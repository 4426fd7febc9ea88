/** What every run of the signing flows keeps. */
module SigningSafety {
  import opened Outcomes
  import opened SigningProtocol

  predicate LinkedTo(s: State, doc: string, id: nat) {
    doc in s.documents && s.documents[doc].signingId == Some(id)
  }

  /** The record was created by its document's last flow, not by an earlier one. */
  predicate Current(s: State, id: nat)
    requires id < |s.signings|
  {
    s.signings[id].documentId in s.flows && id >= s.flows[s.signings[id].documentId].base
  }

  /**
   A record off PENDING is on chain.  Of the records of its document's last flow, which have the parties that flow was
   asked for, only the linked one may have got a contract.
   */
  predicate SigningOk(s: State, id: nat)
    requires id < |s.signings|
  {
    var r := s.signings[id];
    && r.documentId in s.flows
    && (r.status != Pending ==> r.contract.Some?)
    && (Current(s, id) ==>
          && r.parties == s.flows[r.documentId].parties
          && (r.contract.Some? ==> LinkedTo(s, r.documentId, id) && !s.flows[r.documentId].stage.OffChain?))
  }

  /** The document's link names one of its own records. */
  predicate LinkOk(s: State, doc: string)
    requires doc in s.documents
  {
    var link := s.documents[doc].signingId;
    link.Some? ==> link.value < |s.signings| && s.signings[link.value].documentId == doc
  }

  /** The document links to a record that its last flow created. */
  predicate Linked(s: State, doc: string)
    requires doc in s.flows && doc in s.documents
  {
    s.documents[doc].signingId.Some? && s.documents[doc].signingId.value >= s.flows[doc].base
  }

  predicate HasContract(s: State, doc: string) {
    && doc in s.documents && s.documents[doc].signingId.Some?
    && s.documents[doc].signingId.value < |s.signings|
    && s.signings[s.documents[doc].signingId.value].contract.Some?
  }

  predicate Opened(s: State, doc: string) {
    HasContract(s, doc) && s.signings[s.documents[doc].signingId.value].status != Pending
  }

  predicate StageOk(s: State, doc: string)
    requires doc in s.flows
  {
    && doc in s.documents
    && s.flows[doc].base <= |s.signings|
    && (s.flows[doc].stage.OnChain? || s.flows[doc].stage.Finalise? || s.flows[doc].stage.Finished? ==> Linked(s, doc))
    && var link := s.documents[doc].signingId;
       match s.flows[doc].stage
       case OffChain(SigningCreated(id)) =>
         s.flows[doc].base <= id < |s.signings| && s.signings[id].documentId == doc
       case OffChain(SigningLinked) => Linked(s, doc)
       case OffChain(_) => true
       case OnChain(OnChainWaiting) => true
       case OnChain(DocumentRead(l)) => l == link
       case OnChain(ContractCreated(l, _)) => l == link
       case OnChain(ContractWritten) => HasContract(s, doc)
       case Finalise(LinkRead(id)) => HasContract(s, doc) && link == Some(id)
       case Finalise(StatusWritten) => Opened(s, doc)
       case Finalise(_) => HasContract(s, doc)
       case Finished => Opened(s, doc)
       case Abandoned => true
  }

  predicate QueueOk(s: State, i: nat)
    requires i < |s.signQueue|
  {
    s.signQueue[i] < |s.signings| && s.signings[s.signQueue[i]].status != Pending
  }

  ghost predicate Inv(s: State) {
    && (forall i :: 0 <= i < |s.signings| ==> SigningOk(s, i))
    && (forall d <- s.documents :: LinkOk(s, d))
    && (forall d <- s.flows :: StageOk(s, d))
    && (forall i :: 0 <= i < |s.signQueue| ==> QueueOk(s, i))
  }

  lemma InitiallyInv(s: State)
    requires Initial(s)
    ensures Inv(s)
  {
  }

  lemma InvStep(s: State, a: Action)
    requires Inv(s) && Enabled(s, a)
    ensures Inv(Apply(s, a))
  {
    var s' := Apply(s, a);
    forall i | 0 <= i < |s'.signings| ensures SigningOk(s', i) {
      SigningStep(s, a, i);
    }
    forall d | d in s'.documents ensures LinkOk(s', d) {
      LinkStep(s, a, d);
    }
    forall d | d in s'.flows ensures StageOk(s', d) {
      StageStep(s, a, d);
    }
    forall i | 0 <= i < |s'.signQueue| ensures QueueOk(s', i) {
      if i < |s.signQueue| {
        assert QueueOk(s, i);
      }
    }
  }

  lemma SigningStep(s: State, a: Action, i: nat)
    requires Inv(s) && Enabled(s, a) && i < |Apply(s, a).signings|
    ensures SigningOk(Apply(s, a), i)
  {
    if i < |s.signings| {
      assert SigningOk(s, i);
      assert !a.Reconcile? && !a.SignOnBehalf? && a.doc in s.flows ==> StageOk(s, a.doc) && LinkOk(s, a.doc);
      if a.Reconcile? || a.SignOnBehalf? {
      } else if a.doc == s.signings[i].documentId {
        OwnSigningStep(s, a, i);
      } else {
        OtherSigningStep(s, a, i);
      }
    }
  }

  lemma OwnSigningStep(s: State, a: Action, i: nat)
    requires Enabled(s, a) && i < |s.signings| && SigningOk(s, i)
    requires !a.Reconcile? && !a.SignOnBehalf? && a.doc == s.signings[i].documentId && StageOk(s, a.doc)
    ensures SigningOk(Apply(s, a), i)
  {
  }

  /** A step of one document's flow writes no other document's record. */
  lemma OtherSigningStep(s: State, a: Action, i: nat)
    requires Enabled(s, a) && i < |s.signings| && SigningOk(s, i)
    requires !a.Reconcile? && !a.SignOnBehalf? && a.doc != s.signings[i].documentId
    requires a.doc in s.flows ==> StageOk(s, a.doc) && LinkOk(s, a.doc)
    ensures SigningOk(Apply(s, a), i)
  {
    assert Apply(s, a).signings[i] == s.signings[i];
  }

  lemma LinkStep(s: State, a: Action, d: string)
    requires Inv(s) && Enabled(s, a) && d in Apply(s, a).documents
    ensures LinkOk(Apply(s, a), d)
  {
    if d in s.documents {
      assert LinkOk(s, d);
    }
    if a.LinkSigning? {
      assert StageOk(s, a.doc);
    }
  }

  lemma StageStep(s: State, a: Action, d: string)
    requires Inv(s) && Enabled(s, a) && d in Apply(s, a).flows
    ensures StageOk(Apply(s, a), d)
  {
    if a.Reconcile? || a.SignOnBehalf? || a.doc != d {
      assert StageOk(s, d) && LinkOk(s, d);
      assert SigningsGrow(s, Apply(s, a));
      StageFrame(s, Apply(s, a), d);
    } else {
      assert d in s.flows ==> StageOk(s, d) && LinkOk(s, d);
      OwnStageStep(s, a);
    }
  }

  /** No record goes away, changes its document, loses its contract or returns to PENDING. */
  predicate SigningsGrow(s: State, t: State) {
    |s.signings| <= |t.signings| && forall i :: 0 <= i < |s.signings| ==>
      && t.signings[i].documentId == s.signings[i].documentId
      && (s.signings[i].contract.Some? ==> t.signings[i].contract.Some?)
      && (s.signings[i].status != Pending ==> t.signings[i].status != Pending)
  }

  lemma StageFrame(s: State, t: State, d: string)
    requires d in s.flows && d in t.flows && t.flows[d] == s.flows[d]
    requires d in s.documents && d in t.documents && t.documents[d].signingId == s.documents[d].signingId
    requires StageOk(s, d) && SigningsGrow(s, t)
    ensures StageOk(t, d)
  {
  }

  lemma OwnStageStep(s: State, a: Action)
    requires Enabled(s, a) && !a.Reconcile? && !a.SignOnBehalf? && a.doc in Apply(s, a).flows
    requires a.doc in s.flows ==> StageOk(s, a.doc) && LinkOk(s, a.doc)
    ensures StageOk(Apply(s, a), a.doc)
  {
  }

  lemma {:induction false} InvAlways(s: State, run: seq<Action>)
    requires Inv(s) && ValidRun(s, run)
    ensures Inv(Exec(s, run))
    decreases run
  {
    if run != [] {
      InvStep(s, run[0]);
      InvAlways(Apply(s, run[0]), run[1..]);
    }
  }

  /** The record `id` is the one its document links to, is on chain and has the parties the flow was asked for. */
  predicate Ready(s: State, id: nat)
    requires id < |s.signings|
  {
    var r := s.signings[id];
    && LinkedTo(s, r.documentId, id)
    && r.contract.Some?
    && r.documentId in s.flows && r.parties == s.flows[r.documentId].parties
  }

  /**
   In every reachable state, with any number of flows one after the other on each document: of the records of a
   document's last flow at most one has left PENDING, and it is the one the document links to, with contract details and
   the parties that flow was asked for; and signing was queued only for records that have left PENDING.
   */
  lemma EachFlowOpensItsOwn(s: State, run: seq<Action>)
    requires Initial(s) && ValidRun(s, run)
    ensures var t := Exec(s, run);
            && (forall i :: 0 <= i < |t.signings| && t.signings[i].status != Pending && Current(t, i) ==> Ready(t, i))
            && (forall i, j |
                  && 0 <= i < |t.signings| && 0 <= j < |t.signings|
                  && t.signings[i].documentId == t.signings[j].documentId && Current(t, i) && Current(t, j)
                  && t.signings[i].status != Pending && t.signings[j].status != Pending :: i == j)
            && (forall i <- t.signQueue :: i < |t.signings| && t.signings[i].status != Pending)
  {
    InitiallyInv(s);
    InvAlways(s, run);
    var t := Exec(s, run);
    forall i | 0 <= i < |t.signings| && t.signings[i].status != Pending && Current(t, i) ensures Ready(t, i) {
      assert SigningOk(t, i);
    }
    forall i | i in t.signQueue ensures i < |t.signings| && t.signings[i].status != Pending {
      var k :| 0 <= k < |t.signQueue| && t.signQueue[k] == i;
      assert QueueOk(t, k);
    }
  }

  /**
   What takes a record off PENDING: the finalise step of its document's last flow, which created it and gave it its
   contract; or, for a record an own flow put on chain, the reconciliation.
   */
  lemma OpensOnly(s: State, a: Action, id: nat)
    requires Inv(s) && Enabled(s, a) && id < |s.signings| && s.signings[id].status == Pending
    requires Apply(s, a).signings[id].status != Pending
    ensures s.signings[id].contract.Some?
    ensures || (a.Reconcile? && a.id == id)
            || (a.WriteInProgress? && a.doc == s.signings[id].documentId && Current(s, id) && Ready(s, id))
  {
    assert SigningOk(s, id);
    if a.WriteInProgress? {
      assert StageOk(s, a.doc) && LinkOk(s, a.doc);
    }
  }

  /** Which records may be signed on behalf, and what reconciliation may report, status by status. */
  lemma OpenSteps(s: State, id: nat, status: SigningStatus)
    ensures Enabled(s, SignOnBehalf(id)) <==>
            id < |s.signings| && (s.signings[id].status == InProgress || s.signings[id].status == Revoked)
    ensures Enabled(s, Reconcile(id, status)) <==>
            && id < |s.signings| && s.signings[id].contract.Some?
            && (status == Signed || status == Expired || status == Revoked)
  {
  }

  /** No reconciliation of the run is about the record. */
  predicate NotReconciled(run: seq<Action>, id: nat) {
    forall a <- run :: !(a.Reconcile? && a.id == id)
  }

  /** The records of earlier flows are left as they are: only reconciliation still writes their status. */
  lemma {:induction false} EarlierRecordsAreLeft(s: State, run: seq<Action>, id: nat)
    requires Inv(s) && ValidRun(s, run) && id < |s.signings| && !Current(s, id)
    ensures var t := Exec(s, run);
            && id < |t.signings| && !Current(t, id)
            && t.signings[id].(status := s.signings[id].status) == s.signings[id]
            && (NotReconciled(run, id) ==> t.signings[id] == s.signings[id])
    decreases run
  {
    if run != [] {
      InvStep(s, run[0]);
      EarlierRecordStep(s, run[0], id);
      EarlierRecordsAreLeft(Apply(s, run[0]), run[1..], id);
    }
  }

  lemma EarlierRecordStep(s: State, a: Action, id: nat)
    requires Inv(s) && Enabled(s, a) && id < |s.signings| && !Current(s, id)
    ensures var t := Apply(s, a);
            && id < |t.signings| && !Current(t, id)
            && t.signings[id].(status := s.signings[id].status) == s.signings[id]
            && (!(a.Reconcile? && a.id == id) ==> t.signings[id] == s.signings[id])
  {
    assert SigningOk(s, id);
    if a.WriteContract? || a.WriteInProgress? {
      assert StageOk(s, a.doc) && LinkOk(s, a.doc);
    }
  }

  // ---- documents with no earlier signing record ----

  /** A flow is started only for documents that have no signing record yet. */
  predicate StartsFresh(s: State, run: seq<Action>)
    requires ValidRun(s, run)
    decreases run
  {
    run == [] || (
      && (run[0].StartFlow? ==> forall r <- s.signings :: r.documentId != run[0].doc)
      && StartsFresh(Apply(s, run[0]), run[1..]))
  }

  predicate AllCurrent(s: State) {
    forall i :: 0 <= i < |s.signings| ==> Current(s, i)
  }

  lemma StillCurrent(s: State, a: Action, id: nat)
    requires Enabled(s, a) && id < |s.signings| && Current(s, id)
    requires a.StartFlow? ==> s.signings[id].documentId != a.doc
    ensures id < |Apply(s, a).signings| && Current(Apply(s, a), id)
  {
  }

  lemma {:induction false} AllCurrentAlways(s: State, run: seq<Action>)
    requires Inv(s) && AllCurrent(s) && ValidRun(s, run) && StartsFresh(s, run)
    ensures AllCurrent(Exec(s, run))
    decreases run
  {
    if run != [] {
      var t := Apply(s, run[0]);
      InvStep(s, run[0]);
      forall i | 0 <= i < |t.signings| ensures Current(t, i) {
        if i < |s.signings| {
          assert Current(s, i) && s.signings[i] in s.signings;
          StillCurrent(s, run[0], i);
        } else {
          assert StageOk(s, run[0].doc);
        }
      }
      AllCurrentAlways(t, run[1..]);
    }
  }

  /**
   In every reachable state each document has at most one signing record that has left PENDING; it is the one the
   document links to, it has contract details and the requested parties; and signing was queued for no other record.
   */
  lemma OnlyTheLinkedRecordOpens(s: State, run: seq<Action>)
    requires Initial(s) && ValidRun(s, run) && StartsFresh(s, run)
    ensures var t := Exec(s, run);
            && (forall i :: 0 <= i < |t.signings| && t.signings[i].status != Pending ==> Ready(t, i))
            && (forall i, j |
                  && 0 <= i < |t.signings| && 0 <= j < |t.signings|
                  && t.signings[i].documentId == t.signings[j].documentId
                  && t.signings[i].status != Pending && t.signings[j].status != Pending :: i == j)
            && (forall i <- t.signQueue :: i < |t.signings| && Ready(t, i))
  {
    InitiallyInv(s);
    InvAlways(s, run);
    AllCurrentAlways(s, run);
    var t := Exec(s, run);
    forall i | 0 <= i < |t.signings| && t.signings[i].status != Pending ensures Ready(t, i) {
      assert SigningOk(t, i) && Current(t, i);
    }
    forall i | i in t.signQueue ensures i < |t.signings| && Ready(t, i) {
      var k :| 0 <= k < |t.signQueue| && t.signQueue[k] == i;
      assert QueueOk(t, k);
    }
  }

  /** No flow of the document is started in the run. */
  predicate NotRestarted(run: seq<Action>, doc: string) {
    forall a <- run :: !(a.StartFlow? && a.doc == doc)
  }

  /**
   Once a record of a document's last flow has left PENDING it never returns to it, and its document and parties never
   change; and until another flow is started it stays the one record the document links to.
   */
  lemma OpenedRecordIsFinal(s: State, run: seq<Action>, id: nat)
    requires Inv(s) && ValidRun(s, run)
    requires id < |s.signings| && s.signings[id].status != Pending && Current(s, id)
    ensures var t := Exec(s, run);
            && id < |t.signings| && t.signings[id].status != Pending
            && t.signings[id].documentId == s.signings[id].documentId
            && t.signings[id].parties == s.signings[id].parties
            && (NotRestarted(run, s.signings[id].documentId) ==>
                  Current(t, id) && LinkedTo(t, s.signings[id].documentId, id))
  {
    InvAlways(s, run);
    RecordKept(s, run, id);
    if NotRestarted(run, s.signings[id].documentId) {
      StaysCurrent(s, run, id);
      assert SigningOk(Exec(s, run), id);
    }
  }

  lemma {:induction false} RecordKept(s: State, run: seq<Action>, id: nat)
    requires ValidRun(s, run) && id < |s.signings|
    ensures var t := Exec(s, run);
            && id < |t.signings|
            && t.signings[id].documentId == s.signings[id].documentId
            && t.signings[id].parties == s.signings[id].parties
            && (s.signings[id].status != Pending ==> t.signings[id].status != Pending)
    decreases run
  {
    if run != [] {
      RecordKept(Apply(s, run[0]), run[1..], id);
    }
  }

  lemma {:induction false} StaysCurrent(s: State, run: seq<Action>, id: nat)
    requires ValidRun(s, run) && id < |s.signings| && Current(s, id) && NotRestarted(run, s.signings[id].documentId)
    ensures id < |Exec(s, run).signings| && Current(Exec(s, run), id)
    decreases run
  {
    if run != [] {
      StaysCurrent(Apply(s, run[0]), run[1..], id);
    }
  }

  /** And a flow that ran to its end, after any number of redeliveries, has opened the record it links to. */
  lemma FinishedFlowsAreOpen(s: State, run: seq<Action>, doc: string)
    requires Initial(s) && ValidRun(s, run) && At(Exec(s, run), doc, Finished)
    ensures var t := Exec(s, run);
            Opened(t, doc) && Ready(t, t.documents[doc].signingId.value)
            && t.signings[t.documents[doc].signingId.value].documentId == doc
            && Current(t, t.documents[doc].signingId.value)
  {
    InitiallyInv(s);
    InvAlways(s, run);
    FinishedIsOpen(Exec(s, run), doc);
    assert SigningOk(Exec(s, run), Exec(s, run).documents[doc].signingId.value);
  }

  lemma FinishedIsOpen(s: State, doc: string)
    requires Inv(s) && At(s, doc, Finished)
    ensures Opened(s, doc) && s.signings[s.documents[doc].signingId.value].documentId == doc
    ensures Current(s, s.documents[doc].signingId.value)
  {
    assert StageOk(s, doc) && LinkOk(s, doc);
  }

  /**
   A second flow is not refused, and does not take the first one's record back: whenever it runs to its end the document
   has two different records off PENDING, and links to the later one.
   */
  lemma SecondFlowOpensAnother(s: State, parties: seq<Party>, run: seq<Action>, doc: string)
    requires Inv(s) && At(s, doc, Finished)
    ensures Enabled(s, StartFlow(doc, parties))
    ensures var restarted := Apply(s, StartFlow(doc, parties));
            ValidRun(restarted, run) && At(Exec(restarted, run), doc, Finished) ==>
              var t := Exec(restarted, run);
              var first := s.documents[doc].signingId.value;
              && Opened(t, doc)
              && var second := t.documents[doc].signingId.value;
                 && first < |t.signings| && first != second
                 && t.signings[first].documentId == doc && t.signings[first].status != Pending
                 && t.signings[second].documentId == doc && t.signings[second].status != Pending
  {
    FinishedIsOpen(s, doc);
    var first := s.documents[doc].signingId.value;
    var restarted := Apply(s, StartFlow(doc, parties));
    if ValidRun(restarted, run) && At(Exec(restarted, run), doc, Finished) {
      InvStep(s, StartFlow(doc, parties));
      InvAlways(restarted, run);
      EarlierRecordsAreLeft(restarted, run, first);
      RecordKept(restarted, run, first);
      FinishedIsOpen(Exec(restarted, run), doc);
    }
  }
}
