/**
 The life of a trade document: it may be edited and deleted while in progress, and is frozen once it is issued.

 Updating, deleting, uploading a file and issuing each read the document first and write it later, so they are modelled
 as two steps between which other calls may run.
 */
module TradeDocuments {
  import opened Outcomes

  datatype DocumentStatus = InProgress | ReadyToIssue | Issued | Signed | Processing

  datatype DocumentType =
    | Invoice | BillOfExchange | BillOfLading | WarehouseReceipt | PromissoryNote | OtherDocument | Unknown

  /** `kind` is the type under which the content was written; the store keeps the body alone. */
  datatype Content = Content(kind: DocumentType, body: string)

  /** The wallet addresses of the claimants that are given. */
  datatype Claimants = Claimants(owner: Option<string>, beneficiary: Option<string>)

  datatype Document = Document(
    kind: DocumentType,
    reference: string,
    content: Option<Content>,
    claimants: Option<Claimants>,
    status: DocumentStatus,
    file: Option<string>)

  /**
   What a caller may write; absent fields are left alone.  A client gives no status, but a caller that writes back a
   whole document it has read does.
   */
  datatype Upsert = Upsert(
    kind: Option<DocumentType>,
    reference: Option<string>,
    content: Option<string>,
    claimants: Option<Claimants>,
    status: Option<DocumentStatus>)

  predicate IsUpdatable(status: DocumentStatus) { status == InProgress }

  predicate IsDeletable(status: DocumentStatus) { status == InProgress }

  /** The types that need content to be issued. */
  predicate ContentChecked(kind: DocumentType) {
    kind == Invoice || kind == PromissoryNote || kind == BillOfExchange || kind == OtherDocument
  }

  predicate IsBlank(s: string) { forall c <- s :: c == ' ' || c == '\t' || c == '\n' || c == '\r' }

  predicate Transferable(kind: DocumentType) {
    kind == Invoice || kind == BillOfExchange || kind == PromissoryNote
  }

  /**
   `isReadyToIssue` answers yes, if it answers.  It asks for content of the type's class; but reading the document gives
   any stored content the class of the type stored beside it, so that asks only for content.
   */
  predicate ContentReady(d: Document) {
    d.status == InProgress && !IsBlank(d.reference) && (ContentChecked(d.kind) ==> d.content.Some?)
  }

  /** It reads both wallets of a transferable document, and throws when a claimant is missing. */
  predicate IsReadyToIssue(d: Document) {
    && ContentReady(d)
    && (Transferable(d.kind) ==>
          d.claimants.Some? && d.claimants.value.owner.Some? && d.claimants.value.beneficiary.Some?)
  }

  /**
   An update must have a type, by which the fields to remove are chosen; and the store refuses to set and remove the
   claimants at once, as an update to type OTHER with claimants asks it to.
   */
  predicate Storable(u: Upsert) {
    u.kind.Some? && !(u.kind.value == OtherDocument && u.claimants.Some?)
  }

  /** Of the fields the update removes only the claimants are fields of a stored document. */
  function Merged(d: Document, u: Upsert): Document {
    d.(kind := if u.kind.Some? then u.kind.value else d.kind,
       reference := if u.reference.Some? then u.reference.value else d.reference,
       content := if u.content.Some? && u.kind.Some? then Some(Content(u.kind.value, u.content.value)) else d.content,
       claimants :=
         if u.kind == Some(OtherDocument) then None
         else if u.claimants.Some? then u.claimants else d.claimants,
       status := if u.status.Some? then u.status.value else d.status)
  }

  /** What an update makes of each field. */
  lemma MergedFields(d: Document, u: Upsert)
    requires u.kind.Some?
    ensures var m := Merged(d, u);
            && m.kind == u.kind.value && m.file == d.file
            && (match u.reference case None => m.reference == d.reference case Some(r) => m.reference == r)
            && (match u.content
                case None => m.content == d.content
                case Some(body) => m.content == Some(Content(m.kind, body)))
            && (m.kind == OtherDocument ==> m.claimants == None)
            && (m.kind != OtherDocument ==>
                  match u.claimants case None => m.claimants == d.claimants case Some(c) => m.claimants == Some(c))
            && (match u.status case None => m.status == d.status case Some(st) => m.status == st)
  {
  }

  /** What it takes to be issued, type by type. */
  lemma ReadyExactly(d: Document)
    ensures IsReadyToIssue(d) ==> d.status == InProgress && exists c <- d.reference :: c !in " \t\n\r"
    ensures d.status == InProgress && (exists c <- d.reference :: c !in " \t\n\r") ==>
              var claimed := d.claimants.Some? && d.claimants.value.owner.Some? && d.claimants.value.beneficiary.Some?;
              IsReadyToIssue(d) <==> match d.kind
                                     case Invoice => d.content.Some? && claimed
                                     case BillOfExchange => d.content.Some? && claimed
                                     case PromissoryNote => d.content.Some? && claimed
                                     case OtherDocument => d.content.Some?
                                     case _ => true
  {
    assert forall c :: c !in " \t\n\r" <==> !(c == ' ' || c == '\t' || c == '\n' || c == '\r');
  }

  // ---- calls in two steps ----

  /** A call that has read its document and not yet made its last write. */
  datatype OpenCall =
    | Updating(doc: nat, change: Upsert)
    | Deleting(doc: nat)
    | Uploading(doc: nat, writeBack: DocumentStatus)
    | Issuing(doc: nat)

  datatype State = State(docs: map<nat, Document>, calls: map<nat, OpenCall>)

  datatype Action =
    | Create(doc: nat, kind: DocumentType, reference: string, content: Option<string>, claimants: Option<Claimants>)
    | BeginUpdate(call: nat, doc: nat, change: Upsert)
    | BeginDelete(call: nat, doc: nat)
    | BeginUpload(call: nat, doc: nat, file: string)
    | BeginIssue(call: nat, doc: nat)
    | End(call: nat)
    | Crash(call: nat)
    | WriteStatus(doc: nat, status: DocumentStatus)

  /** A call that fails its check changes nothing and is no step. */
  predicate Enabled(s: State, a: Action) {
    match a
    case Create(d, _, _, _, _) => d !in s.docs && forall c <- s.calls :: s.calls[c].doc != d
    case BeginUpdate(c, d, _) => c !in s.calls && d in s.docs && IsUpdatable(s.docs[d].status)
    case BeginDelete(c, d) => c !in s.calls && d in s.docs && IsDeletable(s.docs[d].status)
    case BeginUpload(c, d, _) => c !in s.calls && d in s.docs
    case BeginIssue(c, d) => c !in s.calls && d in s.docs && IsReadyToIssue(s.docs[d])
    case End(c) => c in s.calls
    case Crash(c) => c in s.calls
    case WriteStatus(d, _) => d in s.docs
  }

  function NewDocument(
    kind: DocumentType, reference: string, content: Option<string>, claimants: Option<Claimants>): Document
  {
    Document(kind, reference, if content == None then None else Some(Content(kind, content.value)), claimants,
             InProgress, None)
  }

  function SetStatus(docs: map<nat, Document>, d: nat, status: DocumentStatus): map<nat, Document> {
    if d in docs then docs[d := docs[d].(status := status)] else docs
  }

  function Apply(s: State, a: Action): State
    requires Enabled(s, a)
  {
    match a
    case Create(d, k, r, c, cl) => s.(docs := s.docs[d := NewDocument(k, r, c, cl)])
    case BeginUpdate(c, d, u) => s.(calls := s.calls[c := Updating(d, u)])
    case BeginDelete(c, d) => s.(calls := s.calls[c := Deleting(d)])
    case BeginUpload(c, d, f) =>
      State(s.docs[d := s.docs[d].(file := Some(f))], s.calls[c := Uploading(d, s.docs[d].status)])
    case BeginIssue(c, d) => s.(calls := s.calls[c := Issuing(d)])
    case End(c) =>
      var docs := match s.calls[c]
        case Updating(d, u) => if d in s.docs && Storable(u) then s.docs[d := Merged(s.docs[d], u)] else s.docs
        case Deleting(d) => s.docs - {d}
        case Uploading(d, status) => SetStatus(s.docs, d, status)
        case Issuing(d) => SetStatus(s.docs, d, Processing);
      State(docs, s.calls - {c})
    case Crash(c) => s.(calls := s.calls - {c})
    case WriteStatus(d, status) => s.(docs := SetStatus(s.docs, d, status))
  }

  predicate ValidRun(s: State, run: seq<Action>)
    decreases run
  {
    run == [] || (Enabled(s, run[0]) && ValidRun(Apply(s, run[0]), run[1..]))
  }

  function Exec(s: State, run: seq<Action>): State
    requires ValidRun(s, run)
    decreases run
  {
    if run == [] then s else Exec(Apply(s, run[0]), run[1..])
  }

  // ---- the freeze ----

  function Body(d: Document): Option<string> {
    if d.content == None then None else Some(d.content.value.body)
  }

  /** The documents say the same: all that a client may write. */
  predicate SameContent(a: Document, b: Document) {
    a.kind == b.kind && a.reference == b.reference && Body(a) == Body(b) && a.claimants == b.claimants
  }

  /** The open call can still delete the document, put it back in progress or change what it says. */
  predicate Harmful(c: OpenCall, doc: nat, d: Document) {
    && c.doc == doc
    && match c
       case Deleting(_) => true
       case Uploading(_, writeBack) => writeBack == InProgress
       case Updating(_, u) => Storable(u) && (u.status == Some(InProgress) || !SameContent(Merged(d, u), d))
       case Issuing(_) => false
  }

  predicate NoHarmfulCall(s: State, doc: nat, d: Document) {
    forall c <- s.calls :: !Harmful(s.calls[c], doc, d)
  }

  /** The document is there and says what `d` says. */
  predicate Kept(s: State, doc: nat, d: Document) {
    doc in s.docs && SameContent(s.docs[doc], d)
  }

  /** It is moreover out of progress, and nothing under way can change any of this. */
  predicate Frozen(s: State, doc: nat, d: Document) {
    Kept(s, doc, d) && s.docs[doc].status != InProgress && NoHarmfulCall(s, doc, d)
  }

  /** No status write of the run itself puts the document back in progress. */
  predicate NeverReopened(run: seq<Action>, doc: nat) {
    forall a <- run :: !(a.WriteStatus? && a.doc == doc && a.status == InProgress)
  }

  /** A frozen document stays frozen, whatever calls are made, overlap and crash, until a status write reopens it. */
  lemma {:induction false} FrozenForGood(s: State, run: seq<Action>, doc: nat, d: Document)
    requires Frozen(s, doc, d) && ValidRun(s, run) && NeverReopened(run, doc)
    ensures Frozen(Exec(s, run), doc, d)
    decreases run
  {
    if run != [] {
      FrozenForGood(Apply(s, run[0]), run[1..], doc, d);
    }
  }

  /** Every run without a reopening status write keeps the document and what it says. */
  ghost predicate KeptForever(s: State, doc: nat, d: Document) {
    forall run: seq<Action> :: ValidRun(s, run) && NeverReopened(run, doc) ==> Kept(Exec(s, run), doc, d)
  }

  /** The freeze is exact: a document out of progress is kept in every run if and only if no open call is harmful. */
  lemma FreezeExactlyWhen(s: State, doc: nat, d: Document)
    requires Kept(s, doc, d) && s.docs[doc].status != InProgress
    ensures KeptForever(s, doc, d) <==> NoHarmfulCall(s, doc, d)
  {
    if NoHarmfulCall(s, doc, d) {
      forall run | ValidRun(s, run) && NeverReopened(run, doc) ensures Kept(Exec(s, run), doc, d) {
        FrozenForGood(s, run, doc, d);
      }
    } else {
      var c :| c in s.calls && Harmful(s.calls[c], doc, d);
      HarmfulBreaks(s, c, doc, d);
    }
  }

  /** Let the open call end; if that only reopens the document, delete it then. */
  function BreakingRun(s: State, call: nat, doc: nat, d: Document): seq<Action>
    requires call in s.calls
  {
    if Kept(Apply(s, End(call)), doc, d) then [End(call), BeginDelete(call, doc), End(call)] else [End(call)]
  }

  lemma HarmfulBreaks(s: State, call: nat, doc: nat, d: Document)
    requires Kept(s, doc, d) && call in s.calls && Harmful(s.calls[call], doc, d)
    ensures var run := BreakingRun(s, call, doc, d);
            ValidRun(s, run) && NeverReopened(run, doc) && !Kept(Exec(s, run), doc, d)
  {
    var s1 := Apply(s, End(call));
    OneStep(s, End(call), []);
    if Kept(s1, doc, d) {
      var s2 := Apply(s1, BeginDelete(call, doc));
      OneStep(s2, End(call), []);
      OneStep(s1, BeginDelete(call, doc), [End(call)]);
      OneStep(s, End(call), [BeginDelete(call, doc), End(call)]);
    }
  }

  lemma OneStep(s: State, a: Action, rest: seq<Action>)
    requires Enabled(s, a) && ValidRun(Apply(s, a), rest)
    ensures ValidRun(s, [a] + rest) && Exec(s, [a] + rest) == Exec(Apply(s, a), rest)
  {
    assert ([a] + rest)[1..] == rest;
  }

  predicate Mentions(s: State, a: Action, doc: nat) {
    match a
    case End(c) => c in s.calls && s.calls[c].doc == doc
    case Crash(c) => c in s.calls && s.calls[c].doc == doc
    case _ => a.doc == doc
  }

  /** No step of the run is about the document. */
  predicate LeavesAlone(s: State, run: seq<Action>, doc: nat)
    requires ValidRun(s, run)
    decreases run
  {
    run == [] || (!Mentions(s, run[0], doc) && LeavesAlone(Apply(s, run[0]), run[1..], doc))
  }

  lemma {:induction false} LeftAlone(s: State, run: seq<Action>, doc: nat, call: nat)
    requires ValidRun(s, run) && LeavesAlone(s, run, doc)
    requires doc in s.docs && call in s.calls && s.calls[call].doc == doc
    requires forall c <- s.calls :: c != call ==> s.calls[c].doc != doc
    ensures var t := Exec(s, run);
            && doc in t.docs && t.docs[doc] == s.docs[doc]
            && call in t.calls && t.calls[call] == s.calls[call]
            && forall c <- t.calls :: c != call ==> t.calls[c].doc != doc
    decreases run
  {
    if run != [] {
      LeftAlone(Apply(s, run[0]), run[1..], doc, call);
    }
  }

  /**
   Issuing freezes exactly when it should.  Between the readiness check and the status write anything may run; the
   document then keeps what was checked in every run that follows if and only if it still says that at the write and no
   other call under way is harmful.
   */
  lemma IssuingFreezesExactlyWhen(s: State, call: nat, doc: nat, mid: seq<Action>)
    requires Enabled(s, BeginIssue(call, doc)) && ValidRun(Apply(s, BeginIssue(call, doc)), mid)
    requires var t := Exec(Apply(s, BeginIssue(call, doc)), mid); call in t.calls && t.calls[call] == Issuing(doc)
    ensures var t := Exec(Apply(s, BeginIssue(call, doc)), mid);
            var d := s.docs[doc];
            && Enabled(t, End(call))
            && (KeptForever(Apply(t, End(call)), doc, d)
                <==> Kept(t, doc, d) && forall c <- t.calls :: c != call ==> !Harmful(t.calls[c], doc, d))
  {
    var t := Exec(Apply(s, BeginIssue(call, doc)), mid);
    var d := s.docs[doc];
    var issued := Apply(t, End(call));
    if Kept(t, doc, d) {
      FreezeExactlyWhen(issued, doc, d);
      forall c | c in t.calls && c != call ensures c in issued.calls && issued.calls[c] == t.calls[c] {
      }
    } else {
      assert ValidRun(issued, []) && NeverReopened([], doc) && !Kept(Exec(issued, []), doc, d);
    }
  }

  /**
   In particular, when no other call on the document is under way and calls on other documents run freely in between,
   the document is left PROCESSING and frozen with what was checked.
   */
  lemma IssuingFreezes(s: State, call: nat, doc: nat, mid: seq<Action>)
    requires forall c <- s.calls :: s.calls[c].doc != doc
    requires Enabled(s, BeginIssue(call, doc))
    requires ValidRun(Apply(s, BeginIssue(call, doc)), mid) && LeavesAlone(Apply(s, BeginIssue(call, doc)), mid, doc)
    ensures var t := Exec(Apply(s, BeginIssue(call, doc)), mid);
            var d := s.docs[doc];
            && Enabled(t, End(call))
            && doc in Apply(t, End(call)).docs
            && Apply(t, End(call)).docs[doc] == d.(status := Processing)
            && Frozen(Apply(t, End(call)), doc, d)
            && KeptForever(Apply(t, End(call)), doc, d)
  {
    LeftAlone(Apply(s, BeginIssue(call, doc)), mid, doc, call);
    IssuingFreezesExactlyWhen(s, call, doc, mid);
  }

  /** A call that crashes before its last write leaves no more trace. */
  lemma CrashedCallIsOver(s: State, call: nat)
    requires call in s.calls
    ensures Enabled(s, Crash(call))
    ensures Apply(s, Crash(call)).docs == s.docs && Apply(s, Crash(call)).calls == s.calls - {call}
  {
  }

  /** The freeze ends where a status write puts the document back in progress: it can be changed and deleted again. */
  lemma ReopenedIsUpdatable(s: State, doc: nat, call: nat, change: Upsert)
    requires doc in s.docs && call !in s.calls
    ensures Enabled(s, WriteStatus(doc, InProgress))
    ensures var t := Apply(s, WriteStatus(doc, InProgress));
            && t.docs == s.docs[doc := s.docs[doc].(status := InProgress)]
            && Enabled(t, BeginUpdate(call, doc, change)) && Enabled(t, BeginDelete(call, doc))
  {
  }

  /** A file upload that read the status before the document was issued puts it back in progress when it ends after. */
  lemma OverlappingUploadReopens(s: State, doc: nat, file: string)
    requires s.calls == map[] && doc in s.docs && IsReadyToIssue(s.docs[doc])
    ensures var run := [BeginUpload(0, doc, file), BeginIssue(1, doc), End(1), End(0)];
            && ValidRun(s, run)
            && doc in Exec(s, run).docs && IsUpdatable(Exec(s, run).docs[doc].status)
  {
    var s1 := Apply(s, BeginUpload(0, doc, file));
    var s2 := Apply(s1, BeginIssue(1, doc));
    var s3 := Apply(s2, End(1));
    OneStep(s3, End(0), []);
    OneStep(s2, End(1), [End(0)]);
    OneStep(s1, BeginIssue(1, doc), [End(1), End(0)]);
    OneStep(s, BeginUpload(0, doc, file), [BeginIssue(1, doc), End(1), End(0)]);
  }

  // ---- content of the document's kind ----

  predicate ContentMatches(d: Document) {
    d.content.Some? ==> d.content.value.kind == d.kind
  }

  /** An update leaves content of another kind exactly when it gives none and what is there was written as another. */
  lemma UpdateMismatchesExactlyWhen(d: Document, u: Upsert)
    requires Storable(u)
    ensures !ContentMatches(Merged(d, u))
       <==> u.content == None && d.content.Some? && d.content.value.kind != u.kind.value
  {
  }

  /** The step writes the document's content. */
  predicate WritesContent(s: State, a: Action, doc: nat) {
    match a
    case Create(d, _, _, content, _) => d == doc && content.Some?
    case End(c) =>
      c in s.calls && s.calls[c].Updating? && s.calls[c].doc == doc
      && doc in s.docs && Storable(s.calls[c].change) && s.calls[c].change.content.Some?
    case _ => false
  }

  /** The document's type when the run last wrote its content, or the given one. */
  function TypeAtLastContent(s: State, run: seq<Action>, doc: nat, last: Option<DocumentType>): Option<DocumentType>
    requires ValidRun(s, run)
    decreases run
  {
    if run == [] then last
    else
      var t := Apply(s, run[0]);
      TypeAtLastContent(t, run[1..], doc,
                        if WritesContent(s, run[0], doc) && doc in t.docs then Some(t.docs[doc].kind) else last)
  }

  lemma {:induction false} ContentHasTypeAtLastWrite(s: State, run: seq<Action>, doc: nat, last: Option<DocumentType>)
    requires ValidRun(s, run)
    requires doc in s.docs && s.docs[doc].content.Some? ==> last == Some(s.docs[doc].content.value.kind)
    ensures var t := Exec(s, run);
            doc in t.docs && t.docs[doc].content.Some? ==>
              TypeAtLastContent(s, run, doc, last) == Some(t.docs[doc].content.value.kind)
    decreases run
  {
    if run != [] {
      var t := Apply(s, run[0]);
      var next := if WritesContent(s, run[0], doc) && doc in t.docs then Some(t.docs[doc].kind) else last;
      ContentHasTypeAtLastWrite(t, run[1..], doc, next);
    }
  }

  /**
   Exactly when an issued document has content of its kind: over every run, overlapping calls included, a document of a
   checked type that is ready to issue has some content, and content of its kind if and only if it has the type now
   that it had when its content was last written.
   */
  lemma IssuedContentMatchesExactlyWhen(s: State, run: seq<Action>, call: nat, doc: nat)
    requires s.docs == map[] && ValidRun(s, run) && Enabled(Exec(s, run), BeginIssue(call, doc))
    requires ContentChecked(Exec(s, run).docs[doc].kind)
    ensures var d := Exec(s, run).docs[doc];
            d.content.Some? && (ContentMatches(d) <==> TypeAtLastContent(s, run, doc, None) == Some(d.kind))
  {
    ContentHasTypeAtLastWrite(s, run, doc, None);
  }

  /** A frozen document with content of its kind keeps that, too. */
  lemma {:induction false} MatchIsKept(s: State, run: seq<Action>, doc: nat, d: Document)
    requires Frozen(s, doc, d) && ContentMatches(s.docs[doc]) && ValidRun(s, run) && NeverReopened(run, doc)
    ensures Kept(Exec(s, run), doc, d) && ContentMatches(Exec(s, run).docs[doc])
    decreases run
  {
    if run != [] {
      FrozenForGood(s, [run[0]], doc, d);
      OneStep(s, run[0], []);
      assert [run[0]] + [] == [run[0]];
      MatchIsKept(Apply(s, run[0]), run[1..], doc, d);
    }
  }

  /** An invoice turned into a promissory note by an update of its type alone is issued with the invoice's content. */
  lemma RetypedInvoiceIsIssued(s: State, doc: nat)
    requires s.calls == map[] && doc in s.docs && s.docs[doc].kind == Invoice
    requires IsReadyToIssue(s.docs[doc]) && ContentMatches(s.docs[doc])
    ensures var retype := Upsert(Some(PromissoryNote), None, None, None, None);
            var run := [BeginUpdate(0, doc, retype), End(0), BeginIssue(0, doc), End(0)];
            && ValidRun(s, run)
            && doc in Exec(s, run).docs
            && Exec(s, run).docs[doc] == s.docs[doc].(kind := PromissoryNote, status := Processing)
            && !ContentMatches(Exec(s, run).docs[doc])
  {
    var retype := Upsert(Some(PromissoryNote), None, None, None, None);
    var s1 := Apply(s, BeginUpdate(0, doc, retype));
    var s2 := Apply(s1, End(0));
    var s3 := Apply(s2, BeginIssue(0, doc));
    OneStep(s3, End(0), []);
    OneStep(s2, BeginIssue(0, doc), [End(0)]);
    OneStep(s1, End(0), [BeginIssue(0, doc), End(0)]);
    OneStep(s, BeginUpdate(0, doc, retype), [End(0), BeginIssue(0, doc), End(0)]);
  }

  // ---- the code in its own form ----

  datatype DocumentError =
    | AccountNotFound | DocumentNotFound | NotUpdatable | NotDeletable | TypeMissing | ClaimantsConflict | NotReady
    | ClaimantMissing

  /**
   Each call is its part up to the last read before the final write, and that write.  The two parts are methods of their
   own, each a step of the protocol, so that the parts of any number of calls may alternate.
   */
  class DocumentStore {
    var docs: map<nat, Document>
    ghost var calls: map<nat, OpenCall>

    ghost function View(): State
      reads this
    {
      State(docs, calls)
    }

    /** Both steps of a call, with nothing between them and any other calls under way. */
    twostate predicate Did(call: nat, new begin: Action)
      reads this
    {
      && Enabled(old(View()), begin)
      && Enabled(Apply(old(View()), begin), End(call))
      && View() == Apply(Apply(old(View()), begin), End(call))
    }

    method CreateTradeDocument(accountExists: bool, id: nat, kind: DocumentType, reference: string,
                               content: Option<string>, claimants: Option<Claimants>)
      returns (r: Result<Document, DocumentError>)
      requires id !in docs && forall c <- calls :: calls[c].doc != id
      modifies this`docs
      ensures accountExists ==>
                && Enabled(old(View()), Create(id, kind, reference, content, claimants))
                && View() == Apply(old(View()), Create(id, kind, reference, content, claimants))
                && docs == old(docs)[id := docs[id]] && r == Ok(docs[id])
                && docs[id].kind == kind && docs[id].reference == reference && docs[id].claimants == claimants
                && docs[id].status == InProgress && docs[id].file == None
                && docs[id].content == match content case None => None case Some(body) => Some(Content(kind, body))
      ensures !accountExists ==> r == Err(AccountNotFound) && View() == old(View())
    {
      if !accountExists {
        return Err(AccountNotFound);
      }
      docs := docs[id := NewDocument(kind, reference, content, claimants)];
      r := Ok(docs[id]);
    }

    // ---- update ----

    method CheckUpdatable(ghost call: nat, id: nat, ghost change: Upsert) returns (r: Result<(), DocumentError>)
      requires call !in calls
      modifies this`calls
      ensures r.Ok? <==> Enabled(old(View()), BeginUpdate(call, id, change))
      ensures r == if id !in docs then Err(DocumentNotFound)
                   else if docs[id].status != InProgress then Err(NotUpdatable) else Ok(())
      ensures r.Ok? ==> View() == Apply(old(View()), BeginUpdate(call, id, change))
      ensures r.Err? ==> calls == old(calls)
    {
      if id !in docs {
        return Err(DocumentNotFound);
      }
      if !IsUpdatable(docs[id].status) {
        return Err(NotUpdatable);
      }
      calls := calls[call := Updating(id, change)];
      r := Ok(());
    }

    /** The repository's `updateTradeDocumentById`. */
    method WriteUpdate(ghost call: nat, id: nat, change: Upsert) returns (r: Result<Document, DocumentError>)
      requires call in calls && calls[call] == Updating(id, change)
      modifies this
      ensures View() == Apply(old(View()), End(call))
      ensures r.Err? ==> docs == old(docs)
      ensures r.Ok? ==> id in docs && r.value == docs[id] && docs == old(docs)[id := Merged(old(docs)[id], change)]
      ensures var conflict := change.kind == Some(OtherDocument) && change.claimants.Some?;
              && (r == Err(TypeMissing) <==> change.kind == None)
              && (r == Err(ClaimantsConflict) <==> conflict)
              && (r == Err(DocumentNotFound) <==> change.kind.Some? && !conflict && id !in old(docs))
              && (r.Ok? <==> change.kind.Some? && !conflict && id in old(docs))
    {
      calls := calls - {call};
      if change.kind == None {
        return Err(TypeMissing);
      }
      if change.kind.value == OtherDocument && change.claimants.Some? {
        return Err(ClaimantsConflict);
      }
      if id !in docs {
        return Err(DocumentNotFound);
      }
      docs := docs[id := Merged(docs[id], change)];
      r := Ok(docs[id]);
    }

    method UpdateTradeDocumentById(ghost call: nat, id: nat, change: Upsert)
      returns (r: Result<Document, DocumentError>)
      requires call !in calls
      modifies this
      ensures r.Ok? <==>
              && id in old(docs) && old(docs)[id].status == InProgress
              && change.kind.Some? && !(change.kind.value == OtherDocument && change.claimants.Some?)
      ensures r.Ok? ==> Did(call, BeginUpdate(call, id, change)) && id in docs && r.value == docs[id]
      ensures r.Err? ==> View() == old(View())
    {
      var checked := CheckUpdatable(call, id, change);
      if checked.Err? {
        return Err(checked.error);
      }
      r := WriteUpdate(call, id, change);
      assert calls == old(calls);
    }

    // ---- delete ----

    method CheckDeletable(ghost call: nat, id: nat) returns (r: Result<(), DocumentError>)
      requires call !in calls
      modifies this`calls
      ensures r.Ok? <==> Enabled(old(View()), BeginDelete(call, id))
      ensures r == if id !in docs then Err(DocumentNotFound)
                   else if docs[id].status != InProgress then Err(NotDeletable) else Ok(())
      ensures r.Ok? ==> View() == Apply(old(View()), BeginDelete(call, id))
      ensures r.Err? ==> calls == old(calls)
    {
      if id !in docs {
        return Err(DocumentNotFound);
      }
      if !IsDeletable(docs[id].status) {
        return Err(NotDeletable);
      }
      calls := calls[call := Deleting(id)];
      r := Ok(());
    }

    /** The repository's `deleteDocumentById`. */
    method RemoveDocument(ghost call: nat, id: nat) returns (success: bool)
      requires call in calls && calls[call] == Deleting(id)
      modifies this
      ensures View() == Apply(old(View()), End(call))
      ensures success == (id in old(docs)) && docs == old(docs) - {id}
    {
      success := id in docs;
      docs, calls := docs - {id}, calls - {call};
    }

    method DeleteDocumentById(ghost call: nat, id: nat) returns (r: Result<bool, DocumentError>)
      requires call !in calls
      modifies this
      ensures r.Ok? <==> id in old(docs) && old(docs)[id].status == InProgress
      ensures r.Ok? ==> Did(call, BeginDelete(call, id)) && r.value && docs == old(docs) - {id}
      ensures r.Err? ==> View() == old(View())
    {
      var checked := CheckDeletable(call, id);
      if checked.Err? {
        return Err(checked.error);
      }
      var success := RemoveDocument(call, id);
      r := Ok(success);
    }

    // ---- file upload and issue ----

    /** Stores the file and takes the status that came back with the stored document. */
    method WriteFile(ghost call: nat, id: nat, file: string) returns (r: Result<Document, DocumentError>)
      requires call !in calls
      modifies this
      ensures r.Ok? <==> id in old(docs)
      ensures r.Err? ==> r.error == DocumentNotFound
      ensures r.Ok? ==> View() == Apply(old(View()), BeginUpload(call, id, file))
      ensures r.Ok? ==> call in calls && calls[call] == Uploading(id, r.value.status)
      ensures r.Ok? ==>
                id in docs && r.value == docs[id] && docs == old(docs)[id := old(docs)[id].(file := Some(file))]
      ensures r.Err? ==> View() == old(View())
    {
      if id !in docs {
        return Err(DocumentNotFound);
      }
      docs := docs[id := docs[id].(file := Some(file))];
      calls := calls[call := Uploading(id, docs[id].status)];
      r := Ok(docs[id]);
    }

    /** The repository's `updateTradeDocumentStatus`, as the last write of an upload or of issuing. */
    method WriteStatusOf(ghost call: nat, id: nat, status: DocumentStatus) returns (r: Result<(), DocumentError>)
      requires call in calls
      requires calls[call] == Uploading(id, status) || (calls[call] == Issuing(id) && status == Processing)
      modifies this
      ensures View() == Apply(old(View()), End(call))
      ensures r == if id in old(docs) then Ok(()) else Err(DocumentNotFound)
      ensures docs == if id in old(docs) then old(docs)[id := old(docs)[id].(status := status)] else old(docs)
    {
      calls := calls - {call};
      if id !in docs {
        return Err(DocumentNotFound);
      }
      docs := docs[id := docs[id].(status := status)];
      r := Ok(());
    }

    /** `updateTradeDocumentFileById`: stores the file, then writes back the status it read with it. */
    method UpdateTradeDocumentFileById(ghost call: nat, id: nat, file: string)
      returns (r: Result<Document, DocumentError>)
      requires call !in calls
      modifies this
      ensures r.Ok? <==> id in old(docs)
      ensures r.Ok? ==>
                && Did(call, BeginUpload(call, id, file))
                && id in docs && docs[id] == old(docs)[id].(file := Some(file)) && r.value == docs[id]
      ensures r.Err? ==> View() == old(View())
    {
      r := WriteFile(call, id, file);
      if r.Ok? {
        var _ := WriteStatusOf(call, id, r.value.status);
      }
    }

    method CheckReadyToIssue(ghost call: nat, id: nat) returns (r: Result<(), DocumentError>)
      requires call !in calls
      modifies this`calls
      ensures r.Ok? <==> Enabled(old(View()), BeginIssue(call, id))
      ensures r == Err(DocumentNotFound) <==> id !in docs
      ensures r == Err(NotReady) <==> id in docs && !ContentReady(docs[id])
      ensures r == Err(ClaimantMissing) <==> id in docs && ContentReady(docs[id]) && !IsReadyToIssue(docs[id])
      ensures r.Ok? ==> View() == Apply(old(View()), BeginIssue(call, id))
      ensures r.Err? ==> calls == old(calls)
    {
      if id !in docs {
        return Err(DocumentNotFound);
      }
      if !ContentReady(docs[id]) {
        return Err(NotReady);
      }
      if !IsReadyToIssue(docs[id]) {
        return Err(ClaimantMissing);
      }
      calls := calls[call := Issuing(id)];
      r := Ok(());
    }

    /** `issueTradeDocument` and `issueMultiSignTradeDocument` up to queueing the issue flow. */
    method IssueTradeDocument(ghost call: nat, id: nat) returns (r: Result<(), DocumentError>)
      requires call !in calls
      modifies this
      ensures r.Ok? <==> id in old(docs) && IsReadyToIssue(old(docs)[id])
      ensures r.Ok? ==>
                && Did(call, BeginIssue(call, id))
                && id in docs && docs[id] == old(docs)[id].(status := Processing)
                && (KeptForever(View(), id, docs[id]) <==> NoHarmfulCall(View(), id, docs[id]))
      ensures r.Err? ==> View() == old(View())
    {
      r := CheckReadyToIssue(call, id);
      if r.Ok? {
        r := WriteStatusOf(call, id, Processing);
        FreezeExactlyWhen(View(), id, docs[id]);
      }
    }
  }
}
