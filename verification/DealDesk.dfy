/**
 Deal processing records: funding decisions with their promissory notes, and the hourly reconciliation of the deals
 that await agreement with the status of their signing contract.
 */
module DealDesk {
  import opened Outcomes
  import Signing = SigningProtocol

  datatype DealStatus =
    | New | InProgress | Completed | Rejected | AwaitingAgreement
    | FundingRequested | FundsReleased | LoanRepaid | Withdrawn | Expired

  datatype Decision = Approved | Declined | Undecided

  datatype Deal = Deal(status: DealStatus, decision: Decision, signingEventId: Option<nat>, note: Option<nat>)

  /** `notes` counts the promissory notes created so far; a note's id is the count before it. */
  datatype State = State(deals: map<nat, Deal>, signings: map<nat, Signing.Signing>, notes: nat)

  // ---- decisions ----

  function LowerChar(c: char): char {
    if 'A' <= c <= 'Z' then c - 'A' + 'a' else c
  }

  function ToLower(s: string): string {
    seq(|s|, i requires 0 <= i < |s| => LowerChar(s[i]))
  }

  function GetDealDecision(decision: string): Decision {
    var d := ToLower(decision);
    if d == "approve" || d == "approved" then Approved
    else if d == "decline" || d == "declined" then Declined
    else Undecided
  }

  function GetDealProcessingStatus(decision: Decision): DealStatus {
    match decision
    case Approved => AwaitingAgreement
    case Declined => Rejected
    case Undecided => InProgress
  }

  /**
   Where an `updateFundingDecision` call may fail: before its first write, at either write of the promissory note, or
   at the read of the deal that follows them.
   */
  datatype DecideFault = NoDecideFault | AtDealLookup | AtNoteCreation | AtNoteLink | AtFinalRead

  predicate NoteLinked(fault: DecideFault) { fault == NoDecideFault || fault == AtFinalRead }

  /** The call moves the deal into AWAITING_AGREEMENT from another status. */
  predicate Enters(s: State, id: nat, decision: string) {
    id in s.deals && GetDealDecision(decision) == Approved && s.deals[id].status != AwaitingAgreement
  }

  function Decide(s: State, id: nat, decision: string, fault: DecideFault): State {
    if id !in s.deals || fault == AtDealLookup then s
    else
      var d := GetDealDecision(decision);
      var decided := s.deals[id].(decision := d, status := GetDealProcessingStatus(d));
      if !Enters(s, id, decision) || fault == AtNoteCreation then s.(deals := s.deals[id := decided])
      else if fault == AtNoteLink then s.(deals := s.deals[id := decided], notes := s.notes + 1)
      else s.(deals := s.deals[id := decided.(note := Some(s.notes))], notes := s.notes + 1)
  }

  /** The text is the word, in lower-case letters, upper-case ones or both. */
  predicate Spells(text: string, word: string) {
    |text| == |word| && forall i :: 0 <= i < |word| ==>
      text[i] == word[i] || ('a' <= word[i] <= 'z' && text[i] == word[i] - 'a' + 'A')
  }

  lemma ToLowerSpells(text: string, word: string)
    requires forall c <- word :: 'a' <= c <= 'z'
    ensures ToLower(text) == word <==> Spells(text, word)
  {
    if ToLower(text) == word {
      forall i | 0 <= i < |word|
        ensures text[i] == word[i] || ('a' <= word[i] <= 'z' && text[i] == word[i] - 'a' + 'A')
      {
        assert ToLower(text)[i] == word[i];
      }
    }
    if Spells(text, word) {
      forall i | 0 <= i < |word| ensures ToLower(text)[i] == word[i] {
        assert word[i] in word;
      }
    }
  }

  predicate SaysApprove(text: string) { Spells(text, "approve") || Spells(text, "approved") }

  predicate SaysDecline(text: string) { Spells(text, "decline") || Spells(text, "declined") }

  /** Which words decide what. */
  lemma DecisionWords(text: string)
    ensures GetDealDecision(text) == Approved <==> SaysApprove(text)
    ensures GetDealDecision(text) == Declined <==> SaysDecline(text)
    ensures !(SaysApprove(text) && SaysDecline(text))
  {
    ToLowerSpells(text, "approve");
    ToLowerSpells(text, "approved");
    ToLowerSpells(text, "decline");
    ToLowerSpells(text, "declined");
  }

  /** What a decision makes of its deal, of every other deal and of the notes. */
  lemma DecideExactly(s: State, id: nat, text: string, fault: DecideFault)
    requires id in s.deals && fault != AtDealLookup
    ensures var t := Decide(s, id, text, fault);
            var entered := SaysApprove(text) && s.deals[id].status != AwaitingAgreement;
            && t.deals.Keys == s.deals.Keys && t.signings == s.signings
            && (forall other <- s.deals :: other != id ==> t.deals[other] == s.deals[other])
            && t.deals[id].decision == (if SaysApprove(text) then Approved
                                        else if SaysDecline(text) then Declined else Undecided)
            && t.deals[id].status == (if SaysApprove(text) then AwaitingAgreement
                                      else if SaysDecline(text) then Rejected else InProgress)
            && t.deals[id].signingEventId == s.deals[id].signingEventId
            && t.notes == s.notes + (if entered && fault != AtNoteCreation then 1 else 0)
            && t.deals[id].note == (if entered && (fault == NoDecideFault || fault == AtFinalRead)
                                    then Some(s.notes) else s.deals[id].note)
  {
    DecisionWords(text);
  }

  // ---- the batch check ----

  /** The contract's status codes; any other code makes the status call throw. */
  function ContractStatus(code: int): Option<Signing.SigningStatus> {
    if code == 0 then Some(Signing.Pending)
    else if code == 1 then Some(Signing.Signed)
    else if code == 2 then Some(Signing.Expired)
    else if code == 3 then Some(Signing.Revoked)
    else None
  }

  /** Where the processing of one deal may throw; each fault strikes before the named operation takes effect. */
  datatype Fault = NoFault | AtSigningLookup | AtContractCall | AtSigningWrite | AtDealWrite | AtAudit

  /** The final status the chain reports for a signing record, if the record is on chain and its event is over. */
  function FinalStatus(
    signings: map<nat, Signing.Signing>, event: nat, chain: string -> int): Option<Signing.SigningStatus>
  {
    if event in signings && signings[event].contract.Some? && signings[event].contract.value != "" then
      var st := ContractStatus(chain(signings[event].contract.value));
      if st.Some? && st.value != Signing.Pending then st else None
    else None
  }

  function SettledDealStatus(st: Signing.SigningStatus): DealStatus {
    if st == Signing.Signed then FundingRequested else Expired
  }

  /** The deal awaits agreement and its signing event is over. */
  predicate Due(s: State, id: nat, chain: string -> int) {
    && id in s.deals && s.deals[id].status == AwaitingAgreement && s.deals[id].signingEventId.Some?
    && FinalStatus(s.signings, s.deals[id].signingEventId.value, chain).Some?
  }

  predicate SigningWritten(f: Fault) { f == NoFault || f == AtDealWrite || f == AtAudit }

  predicate DealWritten(f: Fault) { f == NoFault || f == AtAudit }

  /** One of the `done` deals got as far as writing the signing record of `event`. */
  predicate Reported(s: State, event: nat, chain: string -> int, faults: nat -> Fault, done: set<nat>) {
    exists id <- done :: Due(s, id, chain) && s.deals[id].signingEventId == Some(event) && SigningWritten(faults(id))
  }

  function DealAfter(s: State, id: nat, chain: string -> int, faults: nat -> Fault, done: set<nat>): Deal
    requires id in s.deals
  {
    if id in done && Due(s, id, chain) && DealWritten(faults(id)) then
      s.deals[id].(status := SettledDealStatus(FinalStatus(s.signings, s.deals[id].signingEventId.value, chain).value))
    else s.deals[id]
  }

  function SigningAfter(
    s: State, event: nat, chain: string -> int, faults: nat -> Fault, done: set<nat>): Signing.Signing
    requires event in s.signings
  {
    if Reported(s, event, chain, faults, done) then
      s.signings[event].(status := FinalStatus(s.signings, event, chain).value)
    else s.signings[event]
  }

  /** The pointwise effect of processing the `done` deals. */
  function PassOver(s: State, chain: string -> int, faults: nat -> Fault, done: set<nat>): State {
    s.(deals := map id | id in s.deals :: DealAfter(s, id, chain, faults, done),
       signings := map e | e in s.signings :: SigningAfter(s, e, chain, faults, done))
  }

  function Pass(s: State, chain: string -> int, faults: nat -> Fault): State {
    PassOver(s, chain, faults, s.deals.Keys)
  }

  /** The deal awaits agreement on a record with this contract. */
  predicate Awaits(s: State, id: nat, contract: string) {
    && id in s.deals && s.deals[id].status == AwaitingAgreement && s.deals[id].signingEventId.Some?
    && s.deals[id].signingEventId.value in s.signings
    && s.signings[s.deals[id].signingEventId.value].contract == Some(contract) && contract != ""
  }

  /**
   What a pass does to each deal, by the code the chain gives for its contract: a signed contract requests the funding,
   an expired or revoked one expires the deal, and any other leaves it, as do the faults before the deal is written.
   */
  lemma PassOnDeals(s: State, chain: string -> int, faults: nat -> Fault, id: nat, contract: string)
    requires id in s.deals
    ensures var d := s.deals[id];
            var t := Pass(s, chain, faults);
            && id in t.deals
            && (!(exists c :: Awaits(s, id, c)) ==> t.deals[id] == d)
            && (faults(id) != NoFault && faults(id) != AtAudit ==> t.deals[id] == d)
            && (Awaits(s, id, contract) && (faults(id) == NoFault || faults(id) == AtAudit) ==>
                  t.deals[id] == match chain(contract)
                                 case 1 => d.(status := FundingRequested)
                                 case 2 => d.(status := Expired)
                                 case 3 => d.(status := Expired)
                                 case _ => d)
  {
    if Due(s, id, chain) {
      assert Awaits(s, id, s.signings[s.deals[id].signingEventId.value].contract.value);
    }
  }

  /** What it does to each signing record: the same code is written to it once some deal that awaits it gets so far. */
  lemma PassOnRecords(s: State, chain: string -> int, faults: nat -> Fault, id: nat, contract: string)
    requires Awaits(s, id, contract)
    ensures var e := s.deals[id].signingEventId.value;
            var r := s.signings[e];
            var t := Pass(s, chain, faults);
            && e in t.signings
            && (faults(id) == NoFault || faults(id) == AtAudit || faults(id) == AtDealWrite ==>
                  t.signings[e] == match chain(contract)
                                   case 1 => r.(status := Signing.Signed)
                                   case 2 => r.(status := Signing.Expired)
                                   case 3 => r.(status := Signing.Revoked)
                                   case _ => r)
  {
    var e := s.deals[id].signingEventId.value;
    if 1 <= chain(contract) <= 3 && SigningWritten(faults(id)) {
      assert Due(s, id, chain) && id in s.deals.Keys;
      assert Reported(s, e, chain, faults, s.deals.Keys);
    } else if !(1 <= chain(contract) <= 3) {
      assert FinalStatus(s.signings, e, chain) == None;
    }
  }

  /** No other record is written, and no deal or record comes or goes. */
  lemma PassLeavesOthers(s: State, chain: string -> int, faults: nat -> Fault, e: nat)
    requires e in s.signings
    requires forall id <- s.deals ::
               s.deals[id].status == AwaitingAgreement && s.deals[id].signingEventId == Some(e) ==>
                 faults(id) == AtSigningLookup || faults(id) == AtContractCall || faults(id) == AtSigningWrite
    ensures var t := Pass(s, chain, faults);
            t.deals.Keys == s.deals.Keys && t.signings.Keys == s.signings.Keys && t.notes == s.notes
            && t.signings[e] == s.signings[e]
  {
  }

  /** A pass moves a deal only once its signing record holds the final status that the move answers to. */
  lemma MovedOnlyAfterReport(s: State, chain: string -> int, faults: nat -> Fault, id: nat)
    requires id in s.deals && Pass(s, chain, faults).deals[id] != s.deals[id]
    ensures var t := Pass(s, chain, faults);
            && s.deals[id].status == AwaitingAgreement && s.deals[id].signingEventId.Some?
            && var e := s.deals[id].signingEventId.value;
               && e in t.signings
               && Some(t.signings[e].status) == FinalStatus(s.signings, e, chain)
               && t.deals[id] == s.deals[id].(status := SettledDealStatus(t.signings[e].status))
  {
    var e := s.deals[id].signingEventId.value;
    assert Reported(s, e, chain, faults, s.deals.Keys);
  }

  lemma SameFinalStatus(s: State, chain: string -> int, faults: nat -> Fault, event: nat)
    ensures FinalStatus(Pass(s, chain, faults).signings, event, chain) == FinalStatus(s.signings, event, chain)
  {
  }

  /** A deal is still due after a pass exactly when it was due and its own write did not happen. */
  lemma DueAfterPass(s: State, chain: string -> int, faults: nat -> Fault, id: nat)
    ensures Due(Pass(s, chain, faults), id, chain) <==> Due(s, id, chain) && !DealWritten(faults(id))
  {
  }

  /** After a pass with any faults, a pass without faults gives what one without faults would have given at once. */
  lemma FaultFreePassCompletes(s: State, chain: string -> int, faults: nat -> Fault)
    ensures Pass(Pass(s, chain, faults), chain, _ => NoFault) == Pass(s, chain, _ => NoFault)
  {
    var calm: nat -> Fault := _ => NoFault;
    var t := Pass(s, chain, faults);
    forall id { DueAfterPass(s, chain, faults, id); }
    forall e { SameFinalStatus(s, chain, faults, e); }
    forall e | e in s.signings ensures Pass(t, chain, calm).signings[e] == Pass(s, chain, calm).signings[e] {
      ReportedInTwoPasses(s, chain, faults, e);
    }
    assert Pass(t, chain, calm).signings == Pass(s, chain, calm).signings;
    assert Pass(t, chain, calm).deals == Pass(s, chain, calm).deals;
  }

  lemma ReportedInTwoPasses(s: State, chain: string -> int, faults: nat -> Fault, event: nat)
    ensures Reported(s, event, chain, _ => NoFault, s.deals.Keys)
       <==> || Reported(s, event, chain, faults, s.deals.Keys)
            || Reported(Pass(s, chain, faults), event, chain, _ => NoFault, s.deals.Keys)
  {
  }

  /** One more pass with the same contract statuses changes nothing, faulty or not. */
  lemma SettledIsStable(s: State, chain: string -> int, faults: nat -> Fault)
    ensures Pass(Pass(s, chain, _ => NoFault), chain, faults) == Pass(s, chain, _ => NoFault)
  {
  }

  // ---- runs ----

  datatype Action =
    | CreateDeal(id: nat)
    | DecideDeal(id: nat, decision: string, fault: DecideFault)
    | LinkSigning(id: nat, event: nat)
    | SetSignings(signings: map<nat, Signing.Signing>)
    | BatchCheck(chain: string -> int, faults: nat -> Fault)

  /** Creating, deciding and checking, with the signing side of the system changing freely in between. */
  function Apply(s: State, a: Action): State {
    match a
    case CreateDeal(id) => if id in s.deals then s else s.(deals := s.deals[id := Deal(New, Undecided, None, None)])
    case DecideDeal(id, d, f) => Decide(s, id, d, f)
    case LinkSigning(id, e) =>
      if id in s.deals then s.(deals := s.deals[id := s.deals[id].(signingEventId := Some(e))]) else s
    case SetSignings(m) => s.(signings := m)
    case BatchCheck(chain, faults) => Pass(s, chain, faults)
  }

  function Exec(s: State, run: seq<Action>): State
    decreases run
  {
    if run == [] then s else Exec(Apply(s, run[0]), run[1..])
  }

  /** The statuses a deal may have with each decision. */
  predicate CoherentDeal(d: Deal) {
    match d.decision
    case Undecided => d.status == New || d.status == InProgress
    case Declined => d.status == Rejected
    case Approved => d.status == AwaitingAgreement || d.status == Expired || d.status == FundingRequested
  }

  predicate Coherent(s: State) {
    forall id <- s.deals :: CoherentDeal(s.deals[id])
  }

  /** Every run keeps decision and status coherent, whatever fails in it. */
  lemma {:induction false} CoherentAlways(s: State, run: seq<Action>)
    requires Coherent(s)
    ensures Coherent(Exec(s, run))
    decreases run
  {
    if run != [] {
      var t := Apply(s, run[0]);
      forall id | id in t.deals ensures CoherentDeal(t.deals[id]) {
        assert id in s.deals ==> CoherentDeal(s.deals[id]);
      }
      CoherentAlways(t, run[1..]);
    }
  }

  /** How many calls of the run moved a deal into AWAITING_AGREEMENT and got as far as creating a note. */
  function NotedEntries(s: State, run: seq<Action>): nat
    decreases run
  {
    if run == [] then 0
    else
      var a := run[0];
      (if a.DecideDeal? && Enters(s, a.id, a.decision) && a.fault != AtDealLookup && a.fault != AtNoteCreation
       then 1 else 0) + NotedEntries(Apply(s, a), run[1..])
  }

  /** How many calls moved a deal into AWAITING_AGREEMENT. */
  function Entries(s: State, run: seq<Action>): nat
    decreases run
  {
    if run == [] then 0
    else
      var a := run[0];
      (if a.DecideDeal? && a.fault != AtDealLookup && Enters(s, a.id, a.decision) then 1 else 0)
      + Entries(Apply(s, a), run[1..])
  }

  predicate EveryCallSucceeds(run: seq<Action>) {
    forall i :: 0 <= i < |run| && run[i].DecideDeal? ==> run[i].fault == NoDecideFault
  }

  /** Every note was created by an entry; and in runs where every call succeeds, every entry created one. */
  lemma {:induction false} OneNotePerEntry(s: State, run: seq<Action>)
    ensures Exec(s, run).notes == s.notes + NotedEntries(s, run)
    ensures EveryCallSucceeds(run) ==> NotedEntries(s, run) == Entries(s, run)
    decreases run
  {
    if run != [] {
      OneNotePerEntry(Apply(s, run[0]), run[1..]);
      assert EveryCallSucceeds(run) ==> EveryCallSucceeds(run[1..]);
    }
  }

  predicate ApprovedHaveNotes(s: State) {
    forall id <- s.deals ::
      s.deals[id].decision == Approved ==> s.deals[id].note.Some? && s.deals[id].note.value < s.notes
  }

  lemma ApprovedHaveNotesStep(s: State, a: Action)
    requires Coherent(s) && ApprovedHaveNotes(s) && (a.DecideDeal? ==> a.fault == NoDecideFault)
    ensures ApprovedHaveNotes(Apply(s, a))
    ensures a.DecideDeal? && Enters(s, a.id, a.decision) ==> Apply(s, a).deals[a.id].note == Some(s.notes)
  {
  }

  /** In runs where every call succeeds, every approved deal has a note linked, the one its last entry created. */
  lemma {:induction false} ApprovedHaveNotesAlways(s: State, run: seq<Action>)
    requires Coherent(s) && ApprovedHaveNotes(s) && EveryCallSucceeds(run)
    ensures ApprovedHaveNotes(Exec(s, run))
    decreases run
  {
    if run != [] {
      ApprovedHaveNotesStep(s, run[0]);
      CoherentAlways(s, [run[0]]);
      assert Exec(s, [run[0]]) == Apply(s, run[0]);
      ApprovedHaveNotesAlways(Apply(s, run[0]), run[1..]);
    }
  }

  predicate LinkedNotesExist(s: State) {
    forall id <- s.deals :: s.deals[id].note.Some? ==> s.deals[id].note.value < s.notes
  }

  /** An approval creates a note and links it if and only if the deal was not already awaiting agreement. */
  lemma ApprovalCreatesNoteExactlyWhen(s: State, id: nat, decision: string, fault: DecideFault)
    requires LinkedNotesExist(s) && id in s.deals && GetDealDecision(decision) == Approved
    ensures var t := Decide(s, id, decision, fault);
            (t.notes == s.notes + 1 && t.deals[id].note == Some(s.notes))
            <==> (s.deals[id].status != AwaitingAgreement && NoteLinked(fault))
  {
  }

  /** When creating the note fails, approving the deal again does not create it, and any older note stays linked. */
  lemma FailedNoteIsNotRetried(s: State, id: nat, decision: string, again: string, fault: DecideFault)
    requires Enters(s, id, decision) && GetDealDecision(again) == Approved
    ensures var failed := Decide(s, id, decision, AtNoteCreation);
            && failed.deals[id].status == AwaitingAgreement
            && failed.deals[id].note == s.deals[id].note
            && Decide(failed, id, again, fault) == failed
  {
    var failed := Decide(s, id, decision, AtNoteCreation);
    assert Decide(failed, id, again, fault).deals == failed.deals;
  }

  /** An entry into AWAITING_AGREEMENT: the number of notes before it, and whether it linked the one it created. */
  datatype Entry = Entry(before: nat, linked: bool)

  /** The deal's last entry in the run, or the given one. */
  function LastEntry(s: State, run: seq<Action>, id: nat, last: Entry): Entry
    decreases run
  {
    if run == [] then last
    else
      var a := run[0];
      LastEntry(Apply(s, a), run[1..], id,
                if a.DecideDeal? && a.id == id && a.fault != AtDealLookup && Enters(s, id, a.decision)
                then Entry(s.notes, NoteLinked(a.fault)) else last)
  }

  /** The note linked to the deal is one created at or after the entry. */
  predicate HasNoteOf(s: State, id: nat, e: Entry)
    requires id in s.deals
  {
    s.deals[id].note.Some? && s.deals[id].note.value >= e.before
  }

  predicate EntryCounts(s: State, id: nat, e: Entry) {
    id in s.deals && s.deals[id].decision == Approved ==> (HasNoteOf(s, id, e) <==> e.linked)
  }

  /**
   Exactly when an approved deal has its note: in every run, whatever fails in it and in whatever order deals are
   approved and declined, a deal that ends approved has a note of its last entry if and only if that entry linked one.
   */
  lemma {:induction false} ApprovedHasItsNoteExactlyWhen(s: State, run: seq<Action>, id: nat, last: Entry)
    requires Coherent(s) && LinkedNotesExist(s) && EntryCounts(s, id, last)
    ensures LinkedNotesExist(Exec(s, run)) && EntryCounts(Exec(s, run), id, LastEntry(s, run, id, last))
    decreases run
  {
    if run != [] {
      var a := run[0];
      var t := Apply(s, a);
      CoherentAlways(s, [a]);
      assert Exec(s, [a]) == t;
      assert LinkedNotesExist(t) by {
        forall i | i in t.deals ensures t.deals[i].note.Some? ==> t.deals[i].note.value < t.notes {
          assert i in s.deals ==> CoherentDeal(s.deals[i]);
        }
      }
      var next :=
        if a.DecideDeal? && a.id == id && a.fault != AtDealLookup && Enters(s, id, a.decision)
        then Entry(s.notes, NoteLinked(a.fault)) else last;
      assert id in s.deals ==> CoherentDeal(s.deals[id]);
      assert EntryCounts(t, id, next);
      ApprovedHasItsNoteExactlyWhen(t, run[1..], id, next);
    }
  }
}
