/**
 Creating a signing event: an off-chain, an on-chain and a finalise job per document, in that order, each delivered at
 least once.  Every action is one read, one write or one lost attempt, so a job may die and be delivered again between
 any two of its writes, and the flows of different documents, the status reconciliation and signing interleave freely.
 Another flow may be started for a document once its last one has ended; nothing asks whether it has a record already.
 */
module SigningProtocol {
  import opened Outcomes

  datatype SigningStatus = Pending | InProgress | Signed | Expired | Revoked

  datatype Role = Issuer | Signer

  datatype Party = Party(walletAddress: string, name: string, role: Role)

  /** A signing record; its id is its position among all records ever created. */
  datatype Signing = Signing(documentId: string, parties: seq<Party>, contract: Option<string>, status: SigningStatus)

  /** The part of a trade document the flow uses; `issued` means issued with a stored issued file. */
  datatype Document = Document(signingId: Option<nat>, issued: bool)

  datatype OffChainProgress = OffChainWaiting | SigningCreated(id: nat) | SigningLinked
  datatype OnChainProgress =
    | OnChainWaiting | DocumentRead(link: Option<nat>) | ContractCreated(link: Option<nat>, contract: string)
    | ContractWritten
  datatype FinaliseProgress = FinaliseWaiting | LinkRead(id: nat) | StatusWritten

  datatype Stage =
    | OffChain(off: OffChainProgress)
    | OnChain(on: OnChainProgress)
    | Finalise(fin: FinaliseProgress)
    | Finished
    | Abandoned

  /** The records from `base` on were created since the flow was started. */
  datatype Flow = Flow(parties: seq<Party>, stage: Stage, base: nat)

  datatype State = State(
    documents: map<string, Document>,
    flows: map<string, Flow>,
    signings: seq<Signing>,
    signQueue: seq<nat>)

  datatype Action =
    | AddDocument(doc: string)
    | SetIssued(doc: string, issued: bool)
    | StartFlow(doc: string, parties: seq<Party>)
    | CreateSigning(doc: string)
    | LinkSigning(doc: string)
    | CompleteOffChain(doc: string)
    | ReadDocument(doc: string)
    | CreateContract(doc: string, contract: string)
    | WriteContract(doc: string)
    | CompleteOnChain(doc: string)
    | ReadLink(doc: string)
    | WriteInProgress(doc: string)
    | CompleteFinalise(doc: string)
    | Die(doc: string)
    | Abandon(doc: string)
    | Reconcile(id: nat, status: SigningStatus)
    | SignOnBehalf(id: nat)

  predicate At(s: State, doc: string, stage: Stage) {
    doc in s.flows && s.flows[doc].stage == stage
  }

  predicate Running(s: State, doc: string) {
    doc in s.flows && !s.flows[doc].stage.Finished? && !s.flows[doc].stage.Abandoned?
  }

  /** `signDocumentOnBehalf` refuses only these statuses; a revoked event is let through. */
  predicate MaySign(status: SigningStatus) {
    status != Signed && status != Expired && status != Pending
  }

  predicate Enabled(s: State, a: Action) {
    match a
    case AddDocument(d) => d !in s.documents
    case SetIssued(d, _) => d in s.documents
    case StartFlow(d, _) => d in s.documents && !Running(s, d)
    case CreateSigning(d) => At(s, d, OffChain(OffChainWaiting))
    case LinkSigning(d) =>
      d in s.documents && d in s.flows && s.flows[d].stage.OffChain? && s.flows[d].stage.off.SigningCreated?
    case CompleteOffChain(d) => At(s, d, OffChain(SigningLinked))
    case ReadDocument(d) => d in s.documents && s.documents[d].issued && At(s, d, OnChain(OnChainWaiting))
    case CreateContract(d, _) =>
      d in s.flows && s.flows[d].stage.OnChain? && s.flows[d].stage.on.DocumentRead?
    case WriteContract(d) =>
      d in s.flows && s.flows[d].stage.OnChain? && s.flows[d].stage.on.ContractCreated?
    case CompleteOnChain(d) => At(s, d, OnChain(ContractWritten))
    case ReadLink(d) => d in s.documents && s.documents[d].signingId.Some? && At(s, d, Finalise(FinaliseWaiting))
    case WriteInProgress(d) =>
      && d in s.flows && s.flows[d].stage.Finalise? && s.flows[d].stage.fin.LinkRead?
      && s.flows[d].stage.fin.id < |s.signings|
    case CompleteFinalise(d) => At(s, d, Finalise(StatusWritten))
    case Die(d) => Running(s, d)
    case Abandon(d) => Running(s, d)
    case Reconcile(i, st) =>
      i < |s.signings| && s.signings[i].contract.Some? && (st == Signed || st == Expired || st == Revoked)
    case SignOnBehalf(i) => i < |s.signings| && MaySign(s.signings[i].status)
  }

  function Goto(s: State, doc: string, stage: Stage): State
    requires doc in s.flows
  {
    s.(flows := s.flows[doc := s.flows[doc].(stage := stage)])
  }

  /** A job that dies is delivered again from its start. */
  function Restart(stage: Stage): Stage {
    match stage
    case OffChain(_) => OffChain(OffChainWaiting)
    case OnChain(_) => OnChain(OnChainWaiting)
    case Finalise(_) => Finalise(FinaliseWaiting)
    case _ => stage
  }

  /** `updateById`: sets the contract details of the record, and does nothing when there is no such record. */
  function SetContract(signings: seq<Signing>, id: Option<nat>, contract: string): seq<Signing> {
    if id.Some? && id.value < |signings| then signings[id.value := signings[id.value].(contract := Some(contract))]
    else signings
  }

  function SetStatus(signings: seq<Signing>, id: nat, status: SigningStatus): seq<Signing>
    requires id < |signings|
  {
    signings[id := signings[id].(status := status)]
  }

  function Apply(s: State, a: Action): State
    requires Enabled(s, a)
  {
    match a
    case AddDocument(d) => s.(documents := s.documents[d := Document(None, false)])
    case SetIssued(d, b) => s.(documents := s.documents[d := s.documents[d].(issued := b)])
    case StartFlow(d, ps) => s.(flows := s.flows[d := Flow(ps, OffChain(OffChainWaiting), |s.signings|)])
    case CreateSigning(d) =>
      Goto(s, d, OffChain(SigningCreated(|s.signings|))).(
        signings := s.signings + [Signing(d, s.flows[d].parties, None, Pending)])
    case LinkSigning(d) =>
      Goto(s, d, OffChain(SigningLinked)).(
        documents := s.documents[d := s.documents[d].(signingId := Some(s.flows[d].stage.off.id))])
    case CompleteOffChain(d) => Goto(s, d, OnChain(OnChainWaiting))
    case ReadDocument(d) => Goto(s, d, OnChain(DocumentRead(s.documents[d].signingId)))
    case CreateContract(d, c) => Goto(s, d, OnChain(ContractCreated(s.flows[d].stage.on.link, c)))
    case WriteContract(d) =>
      Goto(s, d, OnChain(ContractWritten)).(
        signings := SetContract(s.signings, s.flows[d].stage.on.link, s.flows[d].stage.on.contract))
    case CompleteOnChain(d) => Goto(s, d, Finalise(FinaliseWaiting))
    case ReadLink(d) => Goto(s, d, Finalise(LinkRead(s.documents[d].signingId.value)))
    case WriteInProgress(d) =>
      Goto(s, d, Finalise(StatusWritten)).(signings := SetStatus(s.signings, s.flows[d].stage.fin.id, InProgress))
    case CompleteFinalise(d) => Goto(s, d, Finished)
    case Die(d) => Goto(s, d, Restart(s.flows[d].stage))
    case Abandon(d) => Goto(s, d, Abandoned)
    case Reconcile(i, st) => s.(signings := SetStatus(s.signings, i, st))
    case SignOnBehalf(i) => s.(signQueue := s.signQueue + [i])
  }

  predicate ValidRun(s: State, run: seq<Action>)
    decreases run
  {
    run == [] || (Enabled(s, run[0]) && ValidRun(Apply(s, run[0]), run[1..]))
  }

  function Exec(s: State, run: seq<Action>): State
    requires ValidRun(s, run)
    decreases run
  {
    if run == [] then s else Exec(Apply(s, run[0]), run[1..])
  }

  predicate Initial(s: State) {
    s.documents == map[] && s.flows == map[] && s.signings == [] && s.signQueue == []
  }
}
