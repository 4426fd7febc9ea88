# Verified models of the platform's state machines and algorithms

This project models, in Dafny, the parts of the platform in which several writes, several calls or a queue have to agree
with each other, and proves what they keep. `dafny verify dfyconfig.toml` checks all of it.

Each area has the same three layers. A *protocol* module gives a state, the single steps that change it and runs of
such steps. A *safety* part proves what every run keeps. A *service* part is a class with the stored collections as
fields and the source's methods in their own form; every method is proved to be a run, or a step, of the protocol, so
that the theorems about runs are theorems about the code.

## What is modelled

- **Funding requests** (`FundingProtocol`, `FundingSafety`, `FundingService`). A client call makes two writes and a job
  handler up to two, in the order the code has them: `requestFunding` writes the status and then queues NEW,
  `withdrawFunding` queues WITHDRAW and then writes the status. A call or a handler may die between any two writes, a
  failed job is tried three times, and worker steps interleave anywhere. Assumed: the jobs of one deal are handled in
  the order they were queued, a retried job keeps its place, and the calls on one deal do not overlap. *Outcome* is the
  number of records that draining the queue would leave a deal; it is the notion all the theorems share.
- **Signing events** (`SigningProtocol`, `SigningSafety`, `SigningService`). The off-chain, on-chain and finalise jobs of
  a document run in that order, each delivered at least once. Issuing may put the document's status back and forth, and
  reconciliation and signing on behalf run at any time. Flows of one document run one after the other; nothing asks, when
  one is started, whether the document has a signing record already.
- **Deal desk** (`DealDesk`, `DealDeskService`). Funding decisions with their promissory notes, and the reconciliation
  pass over the deals awaiting agreement. Which operation fails, and the status code the contract reports, are
  parameters. A deal's signing event id is set by the environment.
- **Due-diligence checklists** (`Checklists`, `ChecklistTemplates`, `ChecklistService`, `AutomatedChecks`). Versioned
  templates, instances copied from them, the update loop that resolves titles against one snapshot while it writes, and
  the producer of automated checks. The type written on creation and the type read by an update are one field here.
- **Amounts** (`Currency`, `CurrencyPrinting`, `NumberReading`, `WholeAmounts`). The parser that guesses the decimal separator, over exact
  decimals.
- **Permissions** (`ModulePermissions`, `PermissionService`). The read-through cache and the validator above it.
- **Login lockout** (`LoginLockout`), **reset tokens** (`ResetTokens`), **trade documents** (`TradeDocuments`) and
  **paging** (`Paging`).

Time is an integer. Clocks, fresh ids, random tokens, contract answers, password comparisons and failures are
parameters, so the theorems hold for all of them.

## Where the code does not do what it promises

- A WITHDRAW handler means to fail when there is no record, but does not await the lookup, so its check never fails
  (`src/deal-desk-events/funding-request.processor.ts:52-53`). The model follows the code; the handler deletes what
  there is and completes.
- A WITHDRAW job whose three attempts all die leaves a deal that reads as in progress and still has its record
  (`LostWithdrawalLeavesGhost`). Losing it harms exactly when the deal does not read as requested, or is about to stop
  reading so because `withdrawFunding` has its status still to write (`GhostExactlyWhenWithdrawalLost`); a run is free
  of ghosts, and of deals about to become one, if and only if it has no such loss (`NeverHauntedExactlyWhen`).
- When the note of an approved deal could not be created, approving the deal again does not create it, and a note of an
  earlier approval stays linked (`FailedNoteIsNotRetried`). An approval creates and links a note exactly when the deal
  was not already awaiting agreement (`ApprovalCreatesNoteExactlyWhen`), and after any run an approved deal has a note
  of its last entry exactly when that entry linked one (`ApprovedHasItsNoteExactlyWhen`).
- Permissions count as duplicates by the text `module:role`, so two different ones may collide (`ColonsCollide`).
  `CollidesExactlyWhenShifted` says exactly which, and `KeysDistinctExactlyWhen` lifts it to lists.
- A reset token can change the password more than once in two ways: a reset dies between writing the password and
  marking its token, or two resets look the token up before either marks it (`OverlappingResetsBothChange`); the answer
  of the mark is not looked at. `ChangesAgainExactlyWhen` says exactly when a token can change the password again.
  While resets of the token do not overlap, `SingleUse` counts its changes exactly.
- A file upload that has read a document before it is issued writes the old status back after it
  (`OverlappingUploadReopens`), and an update or a deletion that has passed its check goes through after it.
  `FreezeExactlyWhen` says which open calls break the freeze, and `IssuingFreezesExactlyWhen` when issuing freezes what
  it checked.
- Issuing is meant to ask for content of the document's type. But a document's content is given the class of its type
  when it is read, so the check asks only for some content, and an update of the type alone turns an invoice into a
  promissory note that is issued with the invoice's content (`RetypedInvoiceIsIssued`).
  `IssuedContentMatchesExactlyWhen` gives the exact condition over all runs.
- An update to type OTHER that gives claimants asks the store to set and to remove them at once, which it refuses; of the
  other fields an update removes none is a field of a stored document
  (`src/trade-documents/schema/trade-document.schema.ts:71-119`).
- A second signing flow is not refused for a document that has an open signing record, and leaves it with two
  (`SecondFlowOpensAnother`); each flow still opens only its own record (`EachFlowOpensItsOwn`, `OpensOnly`).
- A whole amount with group marks and no decimals, like "1,000", is read as if its first group mark were the decimal mark:
  it parses back exactly when it is below a thousand (`WholeAmountsParseBackExactlyWhen`).
- Repeating a checklist call that died part-way writes the notes it had written a second time
  (`RepeatIsInvisibleExactlyWhen`).
- Signing on behalf refuses pending, signed and expired events, and lets a revoked one through; the model does as well
  (`src/document-signing/document-signing.service.ts:184-217`).

## Model

| member | source | states |
|---|---|---|
| FundingSafety.NoGhostDealsAlways | src/deal-desk-events/funding-request.processor.ts:22-80 | Every run from a safe state, with calls dying between their writes, NEW jobs given up and workers interleaving, in which no WITHDRAW is given up to harm, stays safe: a deal whose pending jobs would leave it a record reads as FUNDING_REQUESTED |
| FundingSafety.NoGhostDealReachable | src/trade-finance/trade-finance.service.ts:137-171 | The same for every run from the empty store |
| FundingSafety.SafeStep | src/trade-finance/trade-finance.service.ts:137-171 | Each single write keeps the safety invariant; it is the order of the two writes in each call that makes this true |
| FundingSafety.GhostExactlyWhenWithdrawalLost | src/deal-desk-events/funding-request.processor.ts:47-65 | From a safe state a step makes a ghost at once if and only if it gives up a WITHDRAW that still mattered of a deal that does not read as requested; and at once or by an open call's next write if and only if the deal may also be in the middle of `withdrawFunding` |
| FundingSafety.NeverHauntedExactlyWhen | src/trade-finance/trade-finance.service.ts:137-171 | A whole run is free of ghosts and of deals about to become one if and only if none of its steps is such a loss |
| FundingSafety.LostWithdrawalLeavesGhost | src/shared/shared.module.ts:32-40 | Without any client crash, a WITHDRAW job that dies on all three attempts leaves a ghost |
| FundingSafety.OutcomeStep | src/deal-desk-events/funding-request.processor.ts:22-80 | No worker step changes what draining will leave of any deal, except giving up a job that still mattered, which flips its own deal's outcome |
| FundingSafety.DrainingKeepsOutcome | src/deal-desk-events/funding-request.processor.ts:22-80 | Worker runs, in any order and with any retries, leave each deal the outcome it had |
| FundingSafety.DrainingIsConfluent | src/deal-desk-events/funding-request.processor.ts:67-80 | Any two schedules that empty the queue leave each deal the same number of records, that of replaying its jobs in order |
| FundingSafety.AgreesAlways | src/trade-finance/trade-finance.service.ts:137-171 | In crash-free runs that lose no job, a deal between calls is requested if and only if draining leaves it a record |
| FundingSafety.DrainedAgreement | src/trade-finance/trade-finance.service.ts:137-171 | After such a run with an empty queue, exactly the requested deals have a record |
| FundingSafety.ClientSideKept | src/deal-desk-events/funding-request.processor.ts:22-80 | Neither the worker nor calls on other deals change a deal's status or its open call |
| FundingSafety.WithdrawnCanBeRequestedAgain | src/trade-finance/trade-finance.service.ts:137-171 | A deal whose withdrawal was completed is in progress and can be requested again, after any worker steps in between; draining will then leave it a record |
| FundingSafety.AtMostOneRecordAlways | src/deal-desk/deal-processing.service.ts:82-107 | Every run keeps at most one record per deal, each naming an existing checklist instance, and job progress consistent with the store |
| FundingSafety.OneRecordPerDeal | src/deal-desk/deal-processing.service.ts:82-107 | The same from the empty store |
| FundingSafety.WorkerStepDecreases | src/shared/shared.module.ts:32-40 | Every worker step uses up work, every handler run that ends uses up an attempt |
| FundingSafety.DrainingTerminates | src/shared/shared.module.ts:32-40 | A worker run ends at most as many handler runs as attempts are left, three per job, and takes at most four steps for each |
| FundingSafety.HandlerRunsOneMore | src/deal-desk-events/funding-request.processor.ts:67-80 | Every completed job and every failed attempt counts as one handler run |
| FundingSafety.DrainingProgresses | src/deal-desk-events/funding-request.processor.ts:22-80 | While jobs are queued the worker has a step, and one other than failing unless the record of a NEW job exists already |
| FundingService.UninterruptedAttempt | src/deal-desk-events/funding-request.processor.ts:22-65 | An attempt that does not die has its job's effect on any records, and completes unless it is a NEW one that found a record |
| FundingService.FundingDesk.RequestFunding | src/trade-finance/trade-finance.service.ts:137-154 | Refuses a missing deal and one not in progress without a change; otherwise it is the run status-then-job: FUNDING_REQUESTED is written, and a NEW job with three attempts queued unless it dies, and nothing else changes |
| FundingService.FundingDesk.WithdrawFunding | src/trade-finance/trade-finance.service.ts:156-171 | Refuses a missing deal and one not requested without a change; otherwise it is the run job-then-status: a WITHDRAW job with three attempts is queued, and IN_PROGRESS written unless it dies, and nothing else changes |
| FundingService.FundingDesk.CreateDealProcessing | src/deal-desk/deal-processing.service.ts:82-107 | Creates the checklist instance and then the record that names it, stopping where it dies |
| FundingService.FundingDesk.HandleNew | src/deal-desk-events/funding-request.processor.ts:22-45 | Throws when the deal has a record, otherwise creates one; what is stored after dying at each point; is a worker run |
| FundingService.FundingDesk.HandleWithdraw | src/deal-desk-events/funding-request.processor.ts:47-65 | Deletes the record if there is one and never throws for its absence; is a worker run |
| FundingService.FundingDesk.Handle | src/deal-desk-events/funding-request.processor.ts:67-80 | Dispatches on the job's name: completion and records are those of that handler |
| FundingService.FundingDesk.Process | src/deal-desk-events/funding-request.processor.ts:67-80 | One delivery: the whole new store and queue, fewer attempts left, and nothing lost if the attempt does not die |
| FundingService.FundingDesk.Drain | src/deal-desk-events/funding-request.processor.ts:67-80 | Ends with an empty queue after at most three deliveries per job; each deal ends with its outcome if nothing was lost, as when no attempt dies |
| SigningSafety.InvStep | src/document-signing-events/create-signing-event.processor.ts:81-218 | Each read and write of each job keeps the flow invariant |
| SigningSafety.InvAlways | src/document-signing-events/create-signing-event.processor.ts:81-218 | So does every run, with jobs dying and delivered again anywhere |
| SigningSafety.OnlyTheLinkedRecordOpens | src/common/event-flows/issue-event-flow.ts:76-126 | In every run that starts flows only for documents without a signing record, at most one record per document leaves PENDING; it is the linked one, with contract details and the requested parties, and only such records are queued for signing |
| SigningSafety.EachFlowOpensItsOwn | src/document-signing/document-signing.service.ts:113-182 | In every run, with any number of flows one after the other, of the records of a document's last flow at most one has left PENDING, and it is the linked one with contract details and that flow's parties; only records off PENDING are queued for signing |
| SigningSafety.OpensOnly | src/document-signing-events/create-signing-event.processor.ts:81-114 | A record leaves PENDING only with contract details, and only by the finalise step of its own flow, linked, or by reconciliation |
| SigningSafety.OpenSteps | src/document-signing/document-signing.service.ts:184-217 | Which records may be signed on behalf and what reconciliation may report, status by status |
| SigningSafety.EarlierRecordsAreLeft | src/document-signing-events/create-signing-event.processor.ts:81-218 | The records of a document's earlier flows stay as they are, but for a status reconciliation writes |
| SigningSafety.SecondFlowOpensAnother | src/document-signing/document-signing.service.ts:113-182 | A second flow after a finished one is not refused, and whenever it runs to its end the document has two different records off PENDING |
| SigningSafety.OpenedRecordIsFinal | src/document-signing-events/create-signing-event.processor.ts:81-218 | Once a record has left PENDING it stays so and keeps its document and parties; and until another flow is started it stays the linked one |
| SigningSafety.FinishedFlowsAreOpen | src/document-signing-events/create-signing-event.processor.ts:81-114 | A finished flow has opened its document's linked record |
| SigningService.SigningDesk.Create | src/document-signing/document-signing.repository.ts:173-198 | Appends a PENDING record without contract details |
| SigningService.SigningDesk.UpdateContract | src/document-signing/document-signing.repository.ts:209-231 | Sets the contract details of the named record only, and nothing when it is missing |
| SigningService.SigningDesk.UpdateLastKnownStatus | src/document-signing/document-signing.repository.ts:146-171 | Sets the status of the named record only |
| SigningService.SigningDesk.OffChainEvent | src/document-signing-events/create-signing-event.processor.ts:204-218 | Creates a record and then links it; the store after dying at each point; is a run of the protocol |
| SigningService.SigningDesk.OnChainEvent | src/document-signing-events/create-signing-event.processor.ts:121-196 | Throws unless issued with a file, otherwise writes the contract details of the linked record; is a run of the protocol |
| SigningService.SigningDesk.FinaliseEvent | src/document-signing-events/create-signing-event.processor.ts:81-114 | Throws without a link, otherwise opens the linked record; in reachable states it fails only by dying |
| SigningService.SigningDesk.SignDocumentOnBehalf | src/document-signing/document-signing.service.ts:184-217 | Queues exactly one job, exactly for a record in progress or revoked; a signed and an expired one are refused as such, a pending one as not ready; it is then on chain, and if its document's last flow created it, the linked one |
| DealDesk.MovedOnlyAfterReport | src/deal-desk/document-signing-batch-check.service.ts:121-209 | A pass moves a deal only if its signing record already holds the final status that answers the move |
| DealDesk.PassOnDeals | src/deal-desk/document-signing-batch-check.service.ts:57-209 | What a pass does to a deal, by the code of its contract: 1 requests the funding, 2 and 3 expire the deal, any other leaves it, as do every fault before its write and every reason not to ask |
| DealDesk.PassOnRecords | src/deal-desk/document-signing-batch-check.service.ts:121-209 | What it does to the signing record of an awaiting deal: 1 is signed, 2 expired, 3 revoked, any other leaves it |
| DealDesk.PassLeavesOthers | src/deal-desk/document-signing-batch-check.service.ts:57-119 | No record is written that no awaiting deal gets so far with, and none comes or goes |
| DealDesk.FaultFreePassCompletes | src/deal-desk/document-signing-batch-check.service.ts:25-55 | A fault-free pass after any pass leaves what a fault-free pass alone would have left |
| DealDesk.SettledIsStable | src/deal-desk/document-signing-batch-check.service.ts:25-55 | After a fault-free pass one more pass, faults or not, changes nothing |
| DealDesk.CoherentAlways | src/deal-desk/deal-processing.service.ts:157-218 | Every run of create, decide and batch check keeps decision and status coherent, whatever fails |
| DealDesk.DecisionWords | src/deal-desk/deal-processing.service.ts:168-179 | Exactly the spellings of approve and approved approve, those of decline and declined decline, in any mix of cases |
| DealDesk.DecideExactly | src/deal-desk/deal-processing.service.ts:157-218 | What a decision makes of every field of its deal, of the notes and of all other deals, for every word and failure |
| DealDesk.OneNotePerEntry | src/deal-desk/deal-processing.service.ts:181-218 | Notes are created only on entries into AWAITING_AGREEMENT, and where every call succeeds exactly one per entry |
| DealDesk.ApprovedHaveNotesStep | src/deal-desk/deal-processing.service.ts:277-371 | A succeeding entry links the note it created, and approved deals keep theirs |
| DealDesk.ApprovedHaveNotesAlways | src/deal-desk/deal-processing.service.ts:277-371 | In runs where every call succeeds every approved deal has a note that was created |
| DealDesk.ApprovalCreatesNoteExactlyWhen | src/deal-desk/deal-processing.service.ts:181-218 | An approval creates a note and links it if and only if the deal was not yet awaiting agreement and neither write of the note failed |
| DealDesk.ApprovedHasItsNoteExactlyWhen | src/deal-desk/deal-processing.service.ts:181-371 | In every run, with any failures, approvals and declines, a deal that ends approved has a note of its last entry if and only if that entry linked one |
| DealDesk.FailedNoteIsNotRetried | src/deal-desk/deal-processing.service.ts:181-218 | After a failed note creation any further approval changes nothing, and an older note stays linked |
| DealDeskService.DealDeskStore.Create | src/deal-desk/deal-processing.service.ts:82-107 | A new deal is NEW and undecided, with no note |
| DealDeskService.DealDeskStore.CreatePromissoryNote | src/deal-desk/deal-processing.service.ts:277-371 | Creates one note, links it to the deal and reads the deal back; what is left and answered when each of these fails |
| DealDeskService.DealDeskStore.UpdateFundingDecision | src/deal-desk/deal-processing.service.ts:181-218 | The new store for every decision and failure, and exactly when the call succeeds |
| DealDeskService.DealDeskStore.FindByStatus | src/deal-desk/deal-processing.repository.ts:400-415 | Exactly the deals with that status, each once |
| DealDeskService.DealDeskStore.UpdateLastKnownStatus | src/document-signing/document-signing.service.ts:84-107 | Sets one signing record's status |
| DealDeskService.DealDeskStore.UpdateStatus | src/deal-desk/deal-processing.repository.ts:417-438 | Sets one deal's status |
| DealDeskService.DealDeskStore.HandleFinalStatus | src/deal-desk/document-signing-batch-check.service.ts:121-209 | Writes the signing record, then the deal; what is left when it throws at each point |
| DealDeskService.DealDeskStore.ProcessRecord | src/deal-desk/document-signing-batch-check.service.ts:57-119 | Has the pointwise effect on its one deal and that deal's signing record, and exactly when it throws |
| DealDeskService.DealDeskStore.CheckDocumentSigningStatus | src/deal-desk/document-signing-batch-check.service.ts:25-55 | The loop is the pointwise pass over all deals, whichever records throw; nothing changes if the query throws |
| DealDeskService.PassOverOneMore | src/deal-desk/document-signing-batch-check.service.ts:25-55 | Processing one more deal after some others is processing them together, even where deals share a signing record |
| Checklists.IndexOfFirst | src/due-diligence-checklists/due-diligence-checklists.service.ts:115-141 | A title lookup gives the first match, and -1 exactly when there is none |
| Checklists.DistinctExactlyWhenFound | src/due-diligence-checklists/due-diligence-checklists.service.ts:115-141 | Titles are distinct exactly when looking each one up finds it where it stands |
| Checklists.WhoMayUpdate | src/due-diligence-checklists/due-diligence-checklists.service.ts:175-190 | MANUAL calls may update MANUAL items and no others, AUTOMATED calls AUTOMATED items and no others |
| Checklists.ValidPrefixAt | src/due-diligence-checklists/due-diligence-checklists.service.ts:99-173 | The valid prefix is the longest one: all its updates resolve and the next does not |
| Checklists.AfterOneMore | src/due-diligence-checklists/due-diligence-checklists.service.ts:143-165 | One more update sets its item's status, appends its notes, and touches no other item |
| Checklists.SameAddress | src/due-diligence-checklists/due-diligence-checklists.service.ts:113-141 | Indices taken from the snapshot before the loop are those any later instance would give |
| Checklists.AfterKeepsShape | src/due-diligence-checklists/due-diligence-checklists.service.ts:99-173 | Updates keep titles, order and check types |
| Checklists.SameResolution | src/due-diligence-checklists/due-diligence-checklists.service.ts:113-141 | So a call's valid prefix is the same before and after other calls |
| Checklists.AfterInTwo | src/due-diligence-checklists/due-diligence-checklists.service.ts:99-173 | Updates in two calls leave what they leave in one |
| Checklists.WithItemLaws | src/due-diligence-checklists/due-diligence-checklist-instance.repository.ts:34-115 | Writing an item by index reads back, overwrites, and writing the same changes nothing |
| Checklists.RepeatedAfterDeath | src/due-diligence-checklists/due-diligence-checklists.service.ts:143-166 | Repeating a call that died after any number of writes leaves every item the status of the undisturbed call, with the notes written before the death standing before all notes of the call |
| Checklists.RepeatIsInvisibleExactlyWhen | src/due-diligence-checklists/due-diligence-checklists.service.ts:143-166 | So an item is as if the call had not died if and only if no note of it had been written |
| Checklists.FirstWritesWithin | src/due-diligence-checklists/due-diligence-checklists.service.ts:143-166 | The writes before a death are the updates before the one it died in, and the first part of that one |
| ChecklistService.ChecklistStore.CreateChecklist | src/due-diligence-checklists/due-diligence-checklists.repository.ts:17-33 | Adds a template with the given sections, whose version follows its type's latest |
| ChecklistService.ChecklistStore.CreateChecklistInstance | src/due-diligence-checklists/due-diligence-checklists.service.ts:71-97 | Copies the latest template, all items not started and without notes; fails exactly when there is none |
| ChecklistService.ChecklistStore.UpdateChecklistItemStatus | src/due-diligence-checklists/due-diligence-checklist-instance.repository.ts:78-115 | Sets the status of the one item at the indices, or fails without a change |
| ChecklistService.ChecklistStore.AddNote | src/due-diligence-checklists/due-diligence-checklist-instance.repository.ts:34-76 | Appends one note to the one item at the indices, or fails without a change |
| ChecklistService.ChecklistStore.ApplyUpdate | src/due-diligence-checklists/due-diligence-checklists.service.ts:143-165 | Status if given, then the notes in order, on one item; what is written when it dies between any two of these |
| ChecklistService.ChecklistStore.ResolveUpdate | src/due-diligence-checklists/due-diligence-checklists.service.ts:113-141 | Finds the item, its template's check type and the refusal, in the code's order of checks |
| ChecklistService.ChecklistStore.UpdateItem | src/due-diligence-checklists/due-diligence-checklists.service.ts:113-166 | One iteration extends the applied updates by one, or by the part it wrote before it died, or stops with that update's error |
| ChecklistService.ChecklistStore.ApplyUpdates | src/due-diligence-checklists/due-diligence-checklists.service.ts:113-166 | The loop leaves the instance after the longest valid prefix, or after its writes up to the death; it succeeds exactly when that is all updates and it did not die |
| ChecklistService.ChecklistStore.UpdateChecklistInstance | src/due-diligence-checklists/due-diligence-checklists.service.ts:99-173 | The same for the call, with its result, its error and the missing instance |
| ChecklistTemplates.AddTemplateKeepsNumbering | src/due-diligence-checklists/due-diligence-checklists.repository.ts:17-33 | Creation keeps each type's versions 1..n in creation order |
| ChecklistTemplates.LatestVersion | src/due-diligence-checklists/due-diligence-checklists.repository.ts:35-45 | The latest template of a type has the number of that type's templates as its version |
| ChecklistTemplates.GetByVersionFinds | src/due-diligence-checklists/due-diligence-checklists.repository.ts:47-56 | Every template is what its type and version resolve to |
| ChecklistTemplates.VersionsNumberTheTemplates | src/due-diligence-checklists/due-diligence-checklists.repository.ts:17-56 | After every run from the empty store each type's versions are exactly 1..n in creation order and each resolves |
| ChecklistTemplates.CopyResolves | src/due-diligence-checklists/due-diligence-checklists.service.ts:115-141 | An update finds an item in an instance exactly when it finds one in its template, with the same check type |
| ChecklistTemplates.InvStep | src/due-diligence-checklists/due-diligence-checklists.service.ts:71-173 | Each call keeps numbering, and each instance a copy of the template it resolves to |
| ChecklistTemplates.InstancesKeepTheirTemplate | src/due-diligence-checklists/due-diligence-checklists.service.ts:71-97 | In every run an instance keeps its shape and resolves to the template it was copied from |
| ChecklistTemplates.InvAlways | src/due-diligence-checklists/due-diligence-checklists.service.ts:71-173 | Every run keeps the invariant |
| ChecklistTemplates.CallStep | src/due-diligence-checklists/due-diligence-checklists.service.ts:175-190 | A call, refused, dying or not, changes only items of its originator's own check type, and only appends notes |
| ChecklistTemplates.ItemsOverRuns | src/due-diligence-checklists/due-diligence-checklists.service.ts:99-190 | Over every run notes are append-only; a MANUAL item that changed was called upon by a MANUAL call, an AUTOMATED one by an AUTOMATED call |
| ChecklistTemplates.ResolveOnCopy | src/due-diligence-checklists/due-diligence-checklists.service.ts:113-141 | How an update of an instance is answered, in terms of its titles and check types: no section, no item, forbidden, or the item |
| ChecklistTemplates.ResolveWithoutTemplate | src/due-diligence-checklists/due-diligence-checklists.service.ts:130-138 | What is answered when the template is gone or lacks the item |
| ChecklistTemplates.CallSucceedsExactlyWhen | src/due-diligence-checklists/due-diligence-checklists.service.ts:99-190 | A call that does not die succeeds if and only if each of its updates addresses an item of its originator's check type |
| ChecklistTemplates.CallsAreRuns | src/due-diligence-checklists/due-diligence-checklists.service.ts:99-173 | Any list of update calls is a run |
| AutomatedChecks.ChecksQueue.QueueSection | src/onboarding-checks/onboarding-checks.service.ts:59-96 | The inner loop appends the jobs of one section's queued items, in order |
| AutomatedChecks.ChecksQueue.QueueAutomatedChecks | src/onboarding-checks/onboarding-checks.service.ts:59-96 | Appends exactly one job per AUTOMATED item with an event type, in template order, with its titles and configuration, three attempts unless configured otherwise, and a backoff of two seconds |
| AutomatedChecks.JobAddressesItsItem | src/onboarding-checks/onboarding-checks.service.ts:37-57 | With distinct titles a job's update resolves to the item the job was queued for |
| AutomatedChecks.AnyOrderCompletesAll | src/onboarding-checks/onboarding-checks.service.ts:59-96 | Any permutation of the emitted jobs covers every queued item once |
| AutomatedChecks.ChecksInAnyOrder | src/onboarding-checks/onboarding-checks.service.ts:37-57 | In any order no update is refused, and exactly the queued items change, each by its own result |
| AutomatedChecks.AnyTwoOrdersAgree | src/onboarding-checks/onboarding-checks.service.ts:37-57 | Any two orders leave the same instance |
| AutomatedChecks.SeparateCalls | src/onboarding-checks/onboarding-checks.service.ts:37-57 | One call per update leaves what one call with all of them leaves |
| AutomatedChecks.ReportsAreRuns | src/onboarding-checks/onboarding-checks.service.ts:37-57 | The calls by which checks report are a run of any store |
| AutomatedChecks.ChecksEndToEnd | src/onboarding-checks/onboarding-checks.service.ts:37-96 | From any reachable store, the separate calls in any order set exactly the queued items of that one instance |
| Currency.ParseCurrencyToFloat | src/data-extraction-events/utils.ts:1-37 | The branches, reassigning one text, compute the declarative reading: first separator groups, the other marks decimals |
| Currency.SameNumber | src/data-extraction-events/utils.ts:28-36 | Reading the longest numeric prefix does not depend on which character marks the decimals |
| Currency.ExchangingSeparators | src/data-extraction-events/utils.ts:1-37 | For every text, exchanging commas and periods changes neither value nor error |
| NumberReading.ReadsDecimal | src/data-extraction-events/utils.ts:28-36 | A sign, digits on either side of the decimal mark and anything that goes on without a digit read as those digits with that sign and scale |
| NumberReading.ReadsWhole | src/data-extraction-events/utils.ts:28-36 | Digits no decimal mark follows read as a whole number |
| NumberReading.ReadsNothingExactlyWhen | src/data-extraction-events/utils.ts:28-36 | Nothing is read if and only if no digit follows the sign, at once or after a decimal mark |
| NumberReading.RefusedTexts | src/data-extraction-events/utils.ts:1-37 | Which texts are refused as empty and as ambiguous, and that a text without digits is refused |
| CurrencyPrinting.PrintedAmountsParseBack | src/data-extraction-events/utils.ts:1-37 | Every amount of cents printed in US or European style, signed or not, with characters other than digits, commas, periods and minus signs put in anywhere, parses to exactly that amount |
| CurrencyPrinting.CleanUndecorates | src/data-extraction-events/utils.ts:7-7 | Cleaning a text gives exactly what it decorates |
| CurrencyPrinting.DecoratedAround | src/data-extraction-events/utils.ts:7-7 | A printed amount with decoration in front and behind is such a text |
| CurrencyPrinting.PrintedIsClean | src/data-extraction-events/utils.ts:7-7 | A printed amount survives cleaning unchanged |
| CurrencyPrinting.PrintedSeparators | src/data-extraction-events/utils.ts:18-26 | A printed amount has one decimal mark, after every group mark, and group marks exactly from a thousand on |
| WholeAmounts.WholeAmountsRead | src/data-extraction-events/utils.ts:1-37 | A whole amount printed with groups and no decimals, signed and decorated in any way, is read as its leading group with the next one as decimals |
| WholeAmounts.WholeAmountsParseBackExactlyWhen | src/data-extraction-events/utils.ts:1-37 | So it parses back to itself if and only if it is below a thousand |
| ModulePermissions.CacheOkStep | src/account-users/services/module-permissions.service.ts:18-44 | Upserts, cached reads and evictions keep every cache entry equal to a direct read |
| ModulePermissions.CacheIsTransparent | src/account-users/services/module-permissions.service.ts:18-44 | After every run each cached read answers as a direct read does |
| ModulePermissions.KeysApart | src/account-users/services/module-permissions.service.ts:18-44 | Cache keys of different modules differ, and differ from the key of the whole list |
| ModulePermissions.UpsertFinds | src/account-users/repositories/module-permissions.repository.ts:16-36 | An upsert is found under its name, with the stored description if it gives none, and changes no other name's record |
| ModulePermissions.StoredIsFound | src/account-users/repositories/module-permissions.repository.ts:32-36 | With one record for each module, the stored records are those that are found |
| ModulePermissions.UpsertKeepsNamesUnique | src/account-users/repositories/module-permissions.repository.ts:16-30 | An upsert keeps one record for each module |
| ModulePermissions.ActiveAfterUpsert | src/account-users/repositories/module-permissions.repository.ts:16-41 | An upsert adds its own module to the active ones or takes it away, and leaves the others |
| ModulePermissions.JoinedKeysApart | src/account-users/services/permissions-validation.service.ts:43-59 | The duplicate key is injective when module names, or role names, have no colon |
| ModulePermissions.CollidesExactlyWhenShifted | src/account-users/services/permissions-validation.service.ts:43-59 | Two different permissions share a key if and only if part of one's name reads as the start of the other's role |
| ModulePermissions.KeysDistinctExactlyWhen | src/account-users/services/permissions-validation.service.ts:43-59 | Keys are distinct if and only if the permissions are and no two are shifted |
| ModulePermissions.DistinctKeysExactly | src/account-users/services/permissions-validation.service.ts:43-59 | Without colons keys are distinct exactly when the permissions are |
| ModulePermissions.ColonsCollide | src/account-users/services/permissions-validation.service.ts:43-59 | Two different permissions with the same key |
| ModulePermissions.SetSize | src/account-users/services/permissions-validation.service.ts:43-59 | Comparing the size of the set of keys with the length of the list detects exactly repeats |
| ModulePermissions.DuplicatesByText | src/account-users/services/permissions-validation.service.ts:43-59 | A list has duplicates exactly when two entries read the same with a colon between module and role |
| PermissionService.PermissionDesk.UpsertModule | src/account-users/services/module-permissions.service.ts:18-23 | Stores and returns the record with the given roles and activity, drops exactly its two cache entries, keeps the cache sound |
| PermissionService.PermissionDesk.FindAllActiveCached | src/account-users/services/module-permissions.service.ts:29-35 | Answers with the active records of the store, leaves them cached and keeps the cache sound |
| PermissionService.PermissionDesk.FindByModuleCached | src/account-users/services/module-permissions.service.ts:37-44 | Answers with the stored record of the name, leaves a found one cached and keeps the cache sound |
| PermissionService.PermissionDesk.GetValidCombinations | src/account-users/services/module-permissions.service.ts:46-57 | Offers exactly the allowable roles of the active modules, with their descriptions |
| PermissionService.PermissionDesk.GetValidRoles | src/account-users/services/module-permissions.service.ts:64-75 | Exactly the roles some active module offers, each once |
| PermissionService.PermissionDesk.GetValidModules | src/account-users/services/module-permissions.service.ts:59-62 | Exactly the names of the active modules |
| PermissionService.PermissionDesk.ValidatePermission | src/account-users/services/permissions-validation.service.ts:15-38 | Accepts exactly an allowable role of an active module, otherwise names the first thing wrong |
| PermissionService.PermissionDesk.ValidatePermissions | src/account-users/services/permissions-validation.service.ts:43-59 | Accepts exactly a list without repeated keys, without repeats where names are free of colons, whose every pair is allowed; otherwise the first error |
| LoginLockout.Account.UpdateSecurity | src/account-users/account-users.repository.ts:135-223 | Absent fields are left alone, present ones are written, a new password sets its flag and time; a missing user is refused without a change |
| LoginLockout.UpdatedFields | src/account-users/account-users.repository.ts:135-188 | What becomes of each field, given or absent |
| LoginLockout.Account.LoginWithPassword | src/auth/auth.service.ts:141-176 | A lock refuses and changes nothing; otherwise the right password of an account that has one, and nothing else, is accepted and clears the count; any other counts one more and locks exactly from the threshold on |
| LoginLockout.NextFailureWaits | src/auth/auth.service.ts:141-176 | In a run nobody gets in, no comparison fails before a lock in force ends |
| LoginLockout.ClockedOneMore | src/auth/auth.service.ts:141-176 | A run with a forward clock goes on with any login no earlier than its last one |
| LoginLockout.FailuresAreApart | src/auth/auth.service.ts:141-176 | From the threshold on, consecutive failed comparisons are a lockout apart |
| LoginLockout.RateBound | src/auth/auth.service.ts:141-176 | Between any two failures from the threshold on lie at least as many lockouts as their distance |
| LoginLockout.RateBoundFromZero | src/auth/auth.service.ts:141-176 | From a zero count, the n-th failure comes no earlier than the threshold's plus (n - max) lockouts |
| ResetTokens.CleanupDeletesDead | src/auth/repositories/password-reset-token.repository.ts:97-120 | Either clean-up, and expiry in the background, removes only tokens that can never be found again |
| ResetTokens.CallsAgree | src/auth/repositories/password-reset-token.repository.ts:32-78 | Stores that differ in such tokens answer every call alike |
| ResetTokens.CleanupsAreInvisible | src/auth/repositories/password-reset-token.repository.ts:97-120 | Leaving out every clean-up of a run, also those between the steps of resets, changes no answer and no password change |
| ResetTokens.SingleUse | src/auth/auth.service.ts:402-437 | In every run in which resets of a token do not overlap, it causes one password change for each reset of it that died just before the mark, one for a reset at that point, and one more if and only if some reset of it reached the mark |
| ResetTokens.ChangesAgainExactlyWhen | src/auth/auth.service.ts:402-437 | Some run of overlapping resets, deaths and clean-ups changes the password with a token again if and only if a reset has looked it up and not yet written the password, or a lookup would find it now |
| ResetTokens.OverlappingResetsBothChange | src/auth/auth.service.ts:402-425 | Two resets that both look the token up before either marks it both change the password, and neither dies |
| ResetTokens.ResetEffect | src/auth/auth.service.ts:402-437 | What a reset that nothing overlaps does as a whole, for every failure |
| ResetTokens.FoundAgainExactlyWhen | src/auth/auth.service.ts:402-437 | After a reset its token is found again, until it expires, if and only if the reset did not reach the mark |
| ResetTokens.SecondChangeExactlyWhen | src/auth/auth.service.ts:402-437 | Two resets of one token, one after the other, both change the password if and only if the first dies just before the mark and the second, before the expiry, gets to the password |
| ResetTokens.ReusableExactlyWhen | src/auth/auth.service.ts:402-437 | Once a reset has changed the password, some run, overlaps included, changes it again with that token if and only if the reset died just before the mark or another one had already looked the token up |
| ResetTokens.TokenStore.CreateToken | src/auth/repositories/password-reset-token.repository.ts:20-30 | Stores an unused token that expires after the reset window |
| ResetTokens.NewTokenIsFoundExactly | src/auth/auth.service.ts:372-384 | A new token is found for exactly half an hour, for its user, and disturbs no other |
| ResetTokens.IndexTakesExpired | src/auth/schemas/password-reset-token.schema.ts:28-28 | Expiry in the background may take any token that has reached its expiry and no other |
| ResetTokens.TokenStore.FindToken | src/auth/repositories/password-reset-token.repository.ts:32-47 | Finds exactly an unused token that has not expired |
| ResetTokens.TokenStore.MarkTokenAsUsed | src/auth/repositories/password-reset-token.repository.ts:61-78 | Marks an unused token, expired or not, and reports whether it found one |
| ResetTokens.TokenStore.ResetPassword | src/auth/auth.service.ts:402-437 | A reset that nothing overlaps is its three steps; the answer for every token, password and failure |
| ResetTokens.TokenStore.CheckToken | src/auth/auth.service.ts:402-412 | The lookup and the password policy are the first step, whatever other resets are under way |
| ResetTokens.TokenStore.ChangePassword | src/auth/auth.service.ts:414-422 | The account write is the second step, at any later time |
| ResetTokens.TokenStore.FinishReset | src/auth/auth.service.ts:424-425 | The mark is the last step, found or not |
| ResetTokens.TokenStore.DeleteExpiredTokens | src/auth/repositories/password-reset-token.repository.ts:97-106 | Deletes and counts exactly the expired tokens |
| ResetTokens.TokenStore.CleanupUsedTokens | src/auth/repositories/password-reset-token.repository.ts:108-120 | Deletes and counts exactly the tokens used longer ago than the retention |
| TradeDocuments.FrozenForGood | src/trade-documents/trade-documents.service.ts:105-173 | A document out of progress with no harmful call open keeps what it says and is not deleted, whatever calls run, overlap and crash, until a status write puts it back in progress |
| TradeDocuments.FreezeExactlyWhen | src/trade-documents/trade-documents.service.ts:105-297 | A document out of progress is kept, with all it says, in every run without such a write if and only if no open call on it is a deletion, an upload that read IN_PROGRESS or an update that would change it or write IN_PROGRESS back |
| TradeDocuments.HarmfulBreaks | src/trade-documents/trade-documents.service.ts:105-297 | Each such call has a run in which the document is deleted or changed |
| TradeDocuments.CrashedCallIsOver | src/trade-documents/trade-documents.service.ts:137-173 | A call that crashes before its last write leaves no more trace |
| TradeDocuments.ReopenedIsUpdatable | src/trade-documents/trade-documents.service.ts:299-319 | A status write that puts the document back in progress ends the freeze: it can be changed and deleted |
| TradeDocuments.IssuingFreezesExactlyWhen | src/issue-trade-document/issue-trade-document.service.ts:180-225 | Whatever runs between the readiness check and the status write, what was checked is kept in every later run if and only if the document still says it at the write and no other open call is harmful |
| TradeDocuments.IssuingFreezes | src/issue-trade-document/issue-trade-document.service.ts:180-225 | In particular issuing with no overlapping call on the document freezes it with what was checked |
| TradeDocuments.IssuedContentMatchesExactlyWhen | src/issue-trade-document/issue-trade-document.service.ts:65-178 | After any run a document of a checked type that is ready to issue has some content, and it was written as content of its type if and only if the type was what it is now when the content was last written |
| TradeDocuments.UpdateMismatchesExactlyWhen | src/trade-documents/trade-documents.repository.ts:42-62 | An update leaves content of another type if and only if it gives none and the content there was written as another type |
| TradeDocuments.MergedFields | src/trade-documents/trade-documents.repository.ts:42-62 | What an update makes of each field, given or absent |
| TradeDocuments.ReadyExactly | src/issue-trade-document/issue-trade-document.service.ts:65-178 | What it takes to be issued, type by type |
| TradeDocuments.RetypedInvoiceIsIssued | src/trade-documents/dtos/trade-document.dto.ts:858-867 | An invoice ready to issue, turned into a promissory note by its type alone, is issued with the invoice's content |
| TradeDocuments.MatchIsKept | src/trade-documents/trade-documents.service.ts:137-173 | A frozen document with content of its type keeps that |
| TradeDocuments.OverlappingUploadReopens | src/trade-documents/trade-documents.service.ts:216-297 | An upload that overlaps issuing makes the document updatable again |
| TradeDocuments.DocumentStore.CreateTradeDocument | src/trade-documents/trade-documents.service.ts:50-73 | A new document is in progress and has no file |
| TradeDocuments.DocumentStore.UpdateTradeDocumentById | src/trade-documents/trade-documents.service.ts:137-173 | Succeeds exactly for a document in progress and an update the store takes, and is then the two steps of the protocol, whatever other calls are open |
| TradeDocuments.DocumentStore.CheckUpdatable | src/trade-documents/trade-documents.service.ts:142-153 | The part up to the write is the first step of the protocol |
| TradeDocuments.DocumentStore.WriteUpdate | src/trade-documents/trade-documents.repository.ts:42-62 | The write is the second step, at any later time; what it refuses |
| TradeDocuments.DocumentStore.DeleteDocumentById | src/trade-documents/trade-documents.service.ts:105-135 | Deletes exactly a document in progress |
| TradeDocuments.DocumentStore.CheckDeletable | src/trade-documents/trade-documents.service.ts:106-123 | The part up to the write is the first step of the protocol |
| TradeDocuments.DocumentStore.RemoveDocument | src/trade-documents/trade-documents.repository.ts:145-154 | The deletion is the second step, at any later time |
| TradeDocuments.DocumentStore.UpdateTradeDocumentFileById | src/trade-documents/trade-documents.service.ts:216-297 | Sets the file of an existing document and, with no overlap, nothing else |
| TradeDocuments.DocumentStore.WriteFile | src/trade-documents/trade-documents.repository.ts:79-94 | Storing the file is the first step and takes the status along |
| TradeDocuments.DocumentStore.WriteStatusOf | src/trade-documents/trade-documents.repository.ts:64-77 | The status write is the last step of an upload or of issuing, at any later time |
| TradeDocuments.DocumentStore.IssueTradeDocument | src/issue-trade-document/issue-trade-document.service.ts:180-225 | Succeeds exactly for a document ready to issue, leaves it PROCESSING and otherwise as it was, and kept for good if and only if no open call on it is harmful |
| TradeDocuments.DocumentStore.CheckReadyToIssue | src/issue-trade-document/issue-trade-document.service.ts:65-178 | The readiness check, which throws for a transferable document without both claimants, is the first step |
| Paging.FirstPages | src/trade-finance/trade-finance.repository.ts:225-246 | The first n pages are the first n * limit matches |
| Paging.PagesPartition | src/trade-finance/trade-finance.repository.ts:225-246 | The pages concatenate to all matches, all but the last are full, later ones are empty, and no smaller number of pages would do |

## Left out

- HTTP controllers, guards, mapping to transfer objects, logging, email; an audit write is a step that may fail.
- The internals of MongoDB, BullMQ, ethers and bcrypt: collections are maps and sequences, queues are sequences.
- Reordering by the queue of one deal's delayed retries, and overlapping calls on one deal: the code takes no locks
  against either.
- Direct writes that bypass the protocols: posting deal-processing records or notes, setting a signing status, client
  updates and deletes of deals, seed scripts.
- Overlapping cache reads and upserts, and an upsert that dies before it drops the cache entries.
- Share links, nonces, analytics counters, configuration and the field mapping of extracted data: single-branch facts.
- The content of promissory notes and their issuing (`issuePromissoryNote`, `signPromissoryNote`).
- The issue processors that set a document ISSUED: the signing flow takes the status as set and unset at any time.
- Check jobs that are executed again after a failure: a check reports once here.
- Templates of one type created at the same instant: creation times strictly increase.
- The branch of `src/deal-desk/document-signing-batch-check.service.ts:57-119` for a missing signing record: the lookup
  throws first, so it is the fault at the lookup.
- Accounts as a second key of trade documents and signing records: a document's id stands for both.
- The wallet test of transferable documents: it refuses only an empty wallet that is a valid address, so none.
- The other fields that a caller writing back a whole document carries along, such as its files.
- Overlapping logins of one account, which can fail faster than the lockout allows, and overlapping approvals of one deal,
  which can each create a note: the code takes no locks against either, and the theorems are about runs without them.
- Overlapping signing flows of one document.
- Characters outside ASCII in lower-casing a decision and in trimming a reference.
- Currency.ParseCurrencyToFloat: does not model binary rounding and gives minus zero as zero, because a result is an
  exact number of units and decimal places.
- FundingService.FundingDesk.CreateDealProcessing: does not model the copied deal details and the record's initial status,
  because no step of this protocol reads them (`DealDeskService` has the status).
- SigningService.SigningDesk.Create: does not model description, account and expiry, because no step reads them.
