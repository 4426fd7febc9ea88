/** The deal desk's code in its own form: stored deals and signing records, decisions and the batch check loop. */
module DealDeskService {
  import opened Outcomes
  import opened DealDesk
  import Signing = SigningProtocol

  datatype DeskError = NotFound | NoteNotCreated | NoteNotLinked | Unavailable

  /** Processing one more deal after the `done` ones adds that deal to them. */
  lemma PassOverOneMore(s: State, chain: string -> int, faults: nat -> Fault, done: set<nat>, id: nat)
    requires id !in done
    ensures PassOver(PassOver(s, chain, faults, done), chain, faults, {id}) == PassOver(s, chain, faults, done + {id})
  {
    var t := PassOver(s, chain, faults, done);
    forall e ensures FinalStatus(t.signings, e, chain) == FinalStatus(s.signings, e, chain) {}
    assert Due(t, id, chain) <==> Due(s, id, chain);
    forall e | e in s.signings
      ensures SigningAfter(t, e, chain, faults, {id}) == SigningAfter(s, e, chain, faults, done + {id})
    {
      if Reported(s, e, chain, faults, done + {id}) {
        var o :|
          && o in done + {id} && Due(s, o, chain)
          && s.deals[o].signingEventId == Some(e) && SigningWritten(faults(o));
        assert o != id ==> Reported(s, e, chain, faults, done);
        assert o == id ==> Reported(t, e, chain, faults, {id});
      }
    }
    var u := PassOver(s, chain, faults, done + {id});
    assert PassOver(t, chain, faults, {id}).deals == u.deals;
    assert PassOver(t, chain, faults, {id}).signings == u.signings;
  }

  lemma PassOverNone(s: State, chain: string -> int, faults: nat -> Fault)
    ensures PassOver(s, chain, faults, {}) == s
  {
    assert PassOver(s, chain, faults, {}).deals == s.deals;
    assert PassOver(s, chain, faults, {}).signings == s.signings;
  }

  class DealDeskStore {
    var deals: map<nat, Deal>
    var signings: map<nat, Signing.Signing>
    var notes: nat

    ghost function View(): State
      reads this
    {
      State(deals, signings, notes)
    }

    // ---- decisions ----

    /** `createDealProcessing`'s record. */
    method Create(id: nat)
      requires id !in deals
      modifies this`deals
      ensures View() == Apply(old(View()), CreateDeal(id))
      ensures deals == old(deals)[id := Deal(New, Undecided, None, None)]
    {
      deals := deals[id := Deal(New, Undecided, None, None)];
    }

    /** `createPromissoryNote`: creates the note document, links it to the deal, and reads the deal back. */
    method CreatePromissoryNote(id: nat, fault: DecideFault) returns (r: Result<Deal, DeskError>)
      requires id in deals && fault != AtDealLookup
      modifies this`deals, this`notes
      ensures fault == AtNoteCreation ==> r == Err(NoteNotCreated) && View() == old(View())
      ensures fault == AtNoteLink ==> r == Err(NoteNotLinked) && View() == old(View()).(notes := old(notes) + 1)
      ensures NoteLinked(fault) ==>
                && notes == old(notes) + 1
                && deals == old(deals)[id := old(deals)[id].(note := Some(old(notes)))]
                && r == if fault == AtFinalRead then Err(Unavailable) else Ok(deals[id])
    {
      if fault == AtNoteCreation {
        return Err(NoteNotCreated);
      }
      var note := notes;
      notes := notes + 1;
      if fault == AtNoteLink {
        return Err(NoteNotLinked);
      }
      deals := deals[id := deals[id].(note := Some(note))];
      if fault == AtFinalRead {
        return Err(Unavailable);
      }
      r := Ok(deals[id]);
    }

    method UpdateFundingDecision(id: nat, decision: string, fault: DecideFault) returns (r: Result<Deal, DeskError>)
      modifies this`deals, this`notes
      ensures View() == Decide(old(View()), id, decision, fault)
      ensures r.Ok? <==>
              && id in deals && fault != AtDealLookup
              && (Enters(old(View()), id, decision) ==> fault == NoDecideFault)
      ensures r.Ok? ==> r.value == deals[id]
      ensures r == Err(NotFound) <==> id !in deals && fault != AtDealLookup
      ensures r == Err(NoteNotCreated) <==> Enters(old(View()), id, decision) && fault == AtNoteCreation
      ensures r == Err(NoteNotLinked) <==> Enters(old(View()), id, decision) && fault == AtNoteLink
    {
      if fault == AtDealLookup {
        return Err(Unavailable);
      }
      if id !in deals {
        return Err(NotFound);
      }
      var currentStatus := deals[id].status;
      var dealDecision := GetDealDecision(decision);
      var newStatus := GetDealProcessingStatus(dealDecision);
      deals := deals[id := deals[id].(decision := dealDecision, status := newStatus)];
      if newStatus != currentStatus && newStatus == AwaitingAgreement {
        r := CreatePromissoryNote(id, fault);
        return;
      }
      r := Ok(deals[id]);
    }

    // ---- the batch check ----

    /** `findByStatus`: the matching deals, each once, in whatever order the store returns them. */
    method FindByStatus(status: DealStatus) returns (ids: seq<nat>)
      ensures forall id :: id in ids <==> id in deals && deals[id].status == status
      ensures forall i, j :: 0 <= i < j < |ids| ==> ids[i] != ids[j]
    {
      ids := [];
      var rest := deals.Keys;
      while rest != {}
        invariant rest <= deals.Keys
        invariant forall id :: id in ids <==> id in deals && id !in rest && deals[id].status == status
        invariant forall i, j :: 0 <= i < j < |ids| ==> ids[i] != ids[j]
        decreases rest
      {
        var id :| id in rest;
        if deals[id].status == status {
          ids := ids + [id];
        }
        rest := rest - {id};
      }
    }

    method UpdateLastKnownStatus(event: nat, status: Signing.SigningStatus) returns (found: bool)
      modifies this`signings
      ensures found == (event in old(signings))
      ensures signings
           == if found then old(signings)[event := old(signings)[event].(status := status)] else old(signings)
    {
      found := event in signings;
      if found {
        signings := signings[event := signings[event].(status := status)];
      }
    }

    method UpdateStatus(id: nat, status: DealStatus) returns (found: bool)
      modifies this`deals
      ensures found == (id in old(deals))
      ensures deals == if found then old(deals)[id := old(deals)[id].(status := status)] else old(deals)
    {
      found := id in deals;
      if found {
        deals := deals[id := deals[id].(status := status)];
      }
    }

    /** The three status handlers: the signing record first, then the deal, then the audit entry. */
    method HandleFinalStatus(id: nat, event: nat, status: Signing.SigningStatus, fault: Fault) returns (threw: bool)
      requires id in deals && event in signings
      modifies this`deals, this`signings
      ensures signings == if fault == AtSigningWrite then old(signings)
                          else old(signings)[event := old(signings)[event].(status := status)]
      ensures deals == if fault == AtSigningWrite || fault == AtDealWrite then old(deals)
                       else old(deals)[id := old(deals)[id].(
                         status := if status == Signing.Signed then FundingRequested else Expired)]
      ensures threw == (fault == AtSigningWrite || fault == AtDealWrite || fault == AtAudit)
    {
      if fault == AtSigningWrite {
        return true;
      }
      var _ := UpdateLastKnownStatus(event, status);
      if fault == AtDealWrite {
        return true;
      }
      var _ := UpdateStatus(id, SettledDealStatus(status));
      threw := fault == AtAudit;
    }

    /** `processDealProcessingRecord`, given the deal as the loop's query returned it. */
    method ProcessRecord(id: nat, deal: Deal, chain: string -> int, fault: Fault) returns (threw: bool)
      requires id in deals && deal == deals[id] && deal.status == AwaitingAgreement
      modifies this`deals, this`signings
      ensures View() == PassOver(old(View()), chain, _ => fault, {id})
      ensures threw <==>
              && deal.signingEventId.Some?
              && (|| fault == AtSigningLookup || deal.signingEventId.value !in old(signings)
                  || match old(signings)[deal.signingEventId.value].contract
                     case None => false
                     case Some(c) =>
                       && c != ""
                       && (fault == AtContractCall || chain(c) < 0 || chain(c) > 3
                           || (chain(c) != 0 && fault != NoFault)))
    {
      ghost var s := View();
      ghost var faults: nat -> Fault := _ => fault;
      NoReport(s, id, chain, faults);
      if deal.signingEventId == None {
        return false;
      }
      var event := deal.signingEventId.value;
      if fault == AtSigningLookup || event !in signings {
        return true;
      }
      if signings[event].contract == None || signings[event].contract.value == "" {
        return false;
      }
      if fault == AtContractCall {
        return true;
      }
      var status := ContractStatus(chain(signings[event].contract.value));
      if status == None {
        return true;
      }
      if status.value == Signing.Pending {
        return false;
      }
      assert FinalStatus(s.signings, event, chain) == status && Due(s, id, chain);
      threw := HandleFinalStatus(id, event, status.value, fault);
      forall e | e in s.signings
        ensures SigningAfter(s, e, chain, faults, {id}) == signings[e]
      {
        assert Reported(s, e, chain, faults, {id}) <==> e == event && SigningWritten(fault) by {
          if e == event && SigningWritten(fault) {
            assert id in {id} && SigningWritten(faults(id));
          }
        }
      }
      assert deals == PassOver(s, chain, faults, {id}).deals;
      assert signings == PassOver(s, chain, faults, {id}).signings;
    }

    /** A deal that is not due, or whose processing throws before the first write, changes nothing. */
    lemma NoReport(s: State, id: nat, chain: string -> int, faults: nat -> Fault)
      ensures !Due(s, id, chain) || !SigningWritten(faults(id)) ==> PassOver(s, chain, faults, {id}) == s
    {
    }

    /**
     `checkDocumentSigningStatus`: whichever records throw, and wherever, the loop has the pointwise effect of a pass;
     when the query itself throws, nothing happens.
     */
    method CheckDocumentSigningStatus(chain: string -> int, faults: nat -> Fault, queryThrows: bool)
      modifies this`deals, this`signings
      ensures View() == if queryThrows then old(View()) else Pass(old(View()), chain, faults)
    {
      if queryThrows {
        return;
      }
      ghost var s := View();
      var records := FindByStatus(AwaitingAgreement);
      var snapshot := deals;
      ghost var done: set<nat> := {};
      PassOverNone(s, chain, faults);
      for i := 0 to |records|
        invariant done == set j | 0 <= j < i :: records[j]
        invariant View() == PassOver(s, chain, faults, done)
      {
        var id := records[i];
        assert id in records;
        assert deals[id] == snapshot[id];
        PassOverOneMore(s, chain, faults, done, id);
        SameFault(View(), chain, faults, id);
        var _ := ProcessRecord(id, snapshot[id], chain, faults(id));
        done := done + {id};
      }
      OnlyAwaitingMatter(s, chain, faults, done);
    }

    lemma SameFault(s: State, chain: string -> int, faults: nat -> Fault, id: nat)
      ensures PassOver(s, chain, faults, {id}) == PassOver(s, chain, _ => faults(id), {id})
    {
    }

    lemma OnlyAwaitingMatter(s: State, chain: string -> int, faults: nat -> Fault, done: set<nat>)
      requires forall id :: id in done <==> id in s.deals && s.deals[id].status == AwaitingAgreement
      ensures PassOver(s, chain, faults, done) == Pass(s, chain, faults)
    {
    }
  }
}
