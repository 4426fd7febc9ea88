/**
 The signing-event code in its own form: the signing record store, the three job handlers and signing on behalf.
 Each handler attempt is shown to be a run of the protocol, and its effect on the store is stated outright.
 */
module SigningService {
  import opened Outcomes
  import opened SigningProtocol
  import opened SigningSafety

  datatype SignError = DetailsNotFound | Closed(status: SigningStatus) | NotReady

  lemma {:induction false} Extend(s: State, run: seq<Action>, a: Action)
    requires ValidRun(s, run) && Enabled(Exec(s, run), a)
    ensures ValidRun(s, run + [a]) && Exec(s, run + [a]) == Apply(Exec(s, run), a)
    decreases run
  {
    if run == [] {
      assert run + [a] == [a];
      assert [a][1..] == [];
    } else {
      Extend(Apply(s, run[0]), run[1..], a);
      assert (run + [a])[1..] == run[1..] + [a];
    }
  }

  class SigningDesk {
    var documents: map<string, Document>
    var signings: seq<Signing>
    var signQueue: seq<nat>
    /** Which job of each document's flow is due. */
    ghost var flows: map<string, Flow>

    constructor ()
      ensures Initial(View())
    {
      documents, signings, signQueue, flows := map[], [], [], map[];
    }

    ghost function View(): State
      reads this
    {
      State(documents, flows, signings, signQueue)
    }

    // ---- the record store ----

    /** `create`: a new record starts PENDING, without contract details. */
    method Create(doc: string, parties: seq<Party>) returns (id: nat)
      modifies this`signings
      ensures id == |old(signings)|
      ensures signings == old(signings) + [Signing(doc, parties, None, Pending)]
    {
      id := |signings|;
      signings := signings + [Signing(doc, parties, None, Pending)];
    }

    /** `update`: returns null when no record has the id. */
    method UpdateContract(id: Option<nat>, contract: string) returns (found: bool)
      modifies this`signings
      ensures signings == SetContract(old(signings), id, contract)
      ensures found == (id.Some? && id.value < |old(signings)|)
      ensures signings
           == if found then old(signings)[id.value := old(signings)[id.value].(contract := Some(contract))]
              else old(signings)
    {
      found := id.Some? && id.value < |signings|;
      if found {
        signings := signings[id.value := signings[id.value].(contract := Some(contract))];
      }
    }

    method UpdateLastKnownStatus(id: nat, status: SigningStatus) returns (found: bool)
      modifies this`signings
      ensures found == (id < |old(signings)|)
      ensures signings
           == if found then old(signings)[id := old(signings)[id].(status := status)] else old(signings)
    {
      found := id < |signings|;
      if found {
        signings := signings[id := signings[id].(status := status)];
      }
    }

    // ---- the three jobs, each dying after `survives` of its steps unless it gets through all of them ----

    method OffChainEvent(doc: string, parties: seq<Party>, survives: nat)
      returns (completed: bool, ghost run: seq<Action>)
      requires doc in documents && At(View(), doc, OffChain(OffChainWaiting)) && flows[doc].parties == parties
      modifies this
      ensures completed == (survives >= 3)
      ensures signings == old(signings) + if survives >= 1 then [Signing(doc, parties, None, Pending)] else []
      ensures documents
           == if survives >= 2 then old(documents)[doc := old(documents)[doc].(signingId := Some(|old(signings)|))]
              else old(documents)
      ensures ValidRun(old(View()), run) && View() == Exec(old(View()), run)
      ensures At(View(), doc, if completed then OnChain(OnChainWaiting) else OffChain(OffChainWaiting))
    {
      ghost var s := View();
      completed, run := false, [];
      if survives >= 1 {
        run := Step(s, run, CreateSigning(doc));
        var id := Create(doc, parties);
        if survives >= 2 {
          run := Step(s, run, LinkSigning(doc));
          documents := documents[doc := documents[doc].(signingId := Some(id))];
          completed := survives >= 3;
        }
      }
      run := Step(s, run, if completed then CompleteOffChain(doc) else Die(doc));
    }

    /** The contract call answers with the contract's id for the document. */
    method OnChainEvent(doc: string, contract: string, survives: nat) returns (completed: bool, ghost run: seq<Action>)
      requires doc in documents && At(View(), doc, OnChain(OnChainWaiting))
      modifies this
      ensures documents == old(documents)
      ensures completed == (documents[doc].issued && survives >= 4)
      ensures signings
           == if documents[doc].issued && survives >= 3
              then SetContract(old(signings), documents[doc].signingId, contract) else old(signings)
      ensures completed && documents[doc].signingId.Some? && documents[doc].signingId.value < |old(signings)| ==>
                var id := documents[doc].signingId.value;
                signings == old(signings)[id := old(signings)[id].(contract := Some(contract))]
      ensures ValidRun(old(View()), run) && View() == Exec(old(View()), run)
      ensures At(View(), doc, if completed then Finalise(FinaliseWaiting) else OnChain(OnChainWaiting))
    {
      ghost var s := View();
      completed, run := false, [];
      if documents[doc].issued && survives >= 1 {
        var link := documents[doc].signingId;
        run := Step(s, run, ReadDocument(doc));
        if survives >= 2 {
          run := Step(s, run, CreateContract(doc, contract));
          if survives >= 3 {
            run := Step(s, run, WriteContract(doc));
            var _ := UpdateContract(link, contract);
            completed := survives >= 4;
          }
        }
      }
      run := Step(s, run, if completed then CompleteOnChain(doc) else Die(doc));
    }

    /** Throws when the document has no link or the linked record is gone. */
    method FinaliseEvent(doc: string, survives: nat) returns (completed: bool, ghost run: seq<Action>)
      requires doc in documents && At(View(), doc, Finalise(FinaliseWaiting))
      modifies this
      ensures documents == old(documents)
      ensures var link := documents[doc].signingId;
              && (completed == (link.Some? && link.value < |old(signings)| && survives >= 3))
              && signings == if link.Some? && link.value < |old(signings)| && survives >= 2
                             then old(signings)[link.value := old(signings)[link.value].(status := InProgress)]
                             else old(signings)
      ensures ValidRun(old(View()), run) && View() == Exec(old(View()), run)
      ensures At(View(), doc, if completed then Finished else Finalise(FinaliseWaiting))
      ensures Inv(old(View())) ==> completed == (survives >= 3)
    {
      ghost var s := View();
      completed, run := false, [];
      assert Inv(s) ==> StageOk(s, doc);
      if documents[doc].signingId.Some? && survives >= 1 {
        var id := documents[doc].signingId.value;
        run := Step(s, run, ReadLink(doc));
        if survives >= 2 {
          if id < |signings| {
            run := Step(s, run, WriteInProgress(doc));
          }
          var found := UpdateLastKnownStatus(id, InProgress);
          completed := found && survives >= 3;
        }
      }
      run := Step(s, run, if completed then CompleteFinalise(doc) else Die(doc));
    }

    /** Extends the run by the action the code is about to take and moves the flow on. */
    ghost method Step(s: State, run: seq<Action>, a: Action) returns (run': seq<Action>)
      requires ValidRun(s, run) && Exec(s, run) == View() && Enabled(View(), a)
      modifies this`flows
      ensures run' == run + [a] && ValidRun(s, run')
      ensures Exec(s, run') == Apply(old(View()), a)
      ensures flows == Apply(old(View()), a).flows
    {
      Extend(s, run, a);
      run' := run + [a];
      flows := Apply(View(), a).flows;
    }

    // ---- signing on behalf ----

    /** `signDocumentOnBehalf`: guards the status and queues the signing job. */
    method SignDocumentOnBehalf(id: nat) returns (r: Result<Signing, SignError>)
      modifies this`signQueue
      ensures r.Ok? <==> id < |signings| && (signings[id].status == InProgress || signings[id].status == Revoked)
      ensures id < |signings| ==>
                && (r == Err(Closed(Signed)) <==> signings[id].status == Signed)
                && (r == Err(Closed(Expired)) <==> signings[id].status == Expired)
      ensures r.Ok? ==> View() == Apply(old(View()), SignOnBehalf(id))
      ensures r.Ok? ==> signQueue == old(signQueue) + [id] && r.value == signings[id]
      ensures Inv(old(View())) ==> Inv(View())
      ensures Inv(old(View())) && r.Ok? ==> signings[id].contract.Some? && (Current(View(), id) ==> Ready(View(), id))
      ensures r.Err? ==> signQueue == old(signQueue)
      ensures r == Err(DetailsNotFound) <==> id >= |signings|
      ensures r == Err(NotReady) <==> id < |signings| && signings[id].status == Pending
    {
      if id >= |signings| {
        return Err(DetailsNotFound);
      }
      var details := signings[id];
      if details.status == Signed || details.status == Expired {
        return Err(Closed(details.status));
      }
      if details.status == Pending {
        return Err(NotReady);
      }
      if Inv(View()) {
        assert SigningOk(View(), id);
        InvStep(View(), SignOnBehalf(id));
      }
      signQueue := signQueue + [id];
      r := Ok(details);
    }
  }
}
