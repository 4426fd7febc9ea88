/**
 The funding-request protocol as a state machine of single writes.

 A client call makes two writes (the deal's status, a queued job) and a job handler makes up to two (a checklist
 instance, a deal-processing record).  Every action below is one write or one failed attempt, so a run may interleave
 calls on different deals with worker steps anywhere, and a call or a handler may die between any two of its writes.
 */
module FundingProtocol {

  datatype DealStatus =
    | New | InProgress | FundingRequested | Rejected | AwaitingAgreement
    | AwaitingFundsRelease | FundsReleased | LoanRepaid | Completed | Expired

  datatype DealKey = DealKey(accountId: string, dealId: string)

  datatype JobName = NewFundingRequest | WithdrawFundingRequest

  /** How far the current attempt of a job has come. */
  datatype Progress =
    | Waiting
    | LookedUp
    | ChecklistCreated(checklistId: nat)
    | RecordStored
    | RecordDeleted

  /** Number of attempts the shared queue options give every job. */
  const ATTEMPTS: nat := 3

  datatype Job = Job(name: JobName, key: DealKey, attemptsLeft: nat, progress: Progress)

  /** A client call that has made its first write and not yet its second. */
  datatype OpenCall = StatusWritten | WithdrawQueued

  datatype Record = Record(key: DealKey, checklistId: nat)

  /** `checklists` counts the checklist instances created so far; an instance's id is the count before it. */
  datatype State = State(
    deals: map<DealKey, DealStatus>,
    calls: map<DealKey, OpenCall>,
    queue: seq<Job>,
    records: seq<Record>,
    checklists: nat)

  /** The worker actions name a job by its position in the queue. */
  datatype Action =
    | CreateDeal(key: DealKey)
    | WriteRequested(key: DealKey)
    | QueueNew(key: DealKey)
    | QueueWithdraw(key: DealKey)
    | WriteInProgress(key: DealKey)
    | CrashCall(key: DealKey)
    | LookUp(at: nat)
    | CreateChecklist(at: nat)
    | StoreRecord(at: nat)
    | DeleteRecord(at: nat)
    | Complete(at: nat)
    | Fail(at: nat)
  {
    predicate IsWorker() {
      LookUp? || CreateChecklist? || StoreRecord? || DeleteRecord? || Complete? || Fail?
    }
  }

  // ---- the collections ----

  function CountRecords(records: seq<Record>, key: DealKey): nat {
    if records == [] then 0
    else (if records[0].key == key then 1 else 0) + CountRecords(records[1..], key)
  }

  /** `findOneAndDelete`: removes the first record of the deal, if there is one. */
  function DeleteFirst(records: seq<Record>, key: DealKey): seq<Record> {
    if records == [] then []
    else if records[0].key == key then records[1..]
    else [records[0]] + DeleteFirst(records[1..], key)
  }

  function RemoveAt<T>(s: seq<T>, i: nat): seq<T>
    requires i < |s|
  {
    s[..i] + s[i + 1..]
  }

  /** A deal's jobs are handled in the order they were queued: only its first one may run. */
  predicate IsHead(queue: seq<Job>, i: nat) {
    i < |queue| && forall j :: 0 <= j < i ==> queue[j].key != queue[i].key
  }

  // ---- the steps ----

  predicate Enabled(s: State, a: Action) {
    match a
    case CreateDeal(k) => k !in s.deals
    case WriteRequested(k) => k in s.deals && k !in s.calls && s.deals[k] == InProgress
    case QueueNew(k) => k in s.calls && s.calls[k] == StatusWritten
    case QueueWithdraw(k) => k in s.deals && k !in s.calls && s.deals[k] == FundingRequested
    case WriteInProgress(k) => k in s.calls && s.calls[k] == WithdrawQueued
    case CrashCall(k) => k in s.calls
    case LookUp(i) =>
      && IsHead(s.queue, i) && s.queue[i].name == NewFundingRequest && s.queue[i].progress == Waiting
      && CountRecords(s.records, s.queue[i].key) == 0
    case CreateChecklist(i) => IsHead(s.queue, i) && s.queue[i].progress == LookedUp
    case StoreRecord(i) => IsHead(s.queue, i) && s.queue[i].progress.ChecklistCreated?
    case DeleteRecord(i) =>
      IsHead(s.queue, i) && s.queue[i].name == WithdrawFundingRequest && s.queue[i].progress == Waiting
    case Complete(i) =>
      IsHead(s.queue, i) && (s.queue[i].progress == RecordStored || s.queue[i].progress == RecordDeleted)
    case Fail(i) => IsHead(s.queue, i)
  }

  function WithProgress(s: State, i: nat, p: Progress): State
    requires i < |s.queue|
  {
    s.(queue := s.queue[i := s.queue[i].(progress := p)])
  }

  function Apply(s: State, a: Action): State
    requires Enabled(s, a)
  {
    match a
    case CreateDeal(k) => s.(deals := s.deals[k := InProgress])
    case WriteRequested(k) => s.(deals := s.deals[k := FundingRequested], calls := s.calls[k := StatusWritten])
    case QueueNew(k) =>
      s.(queue := s.queue + [Job(NewFundingRequest, k, ATTEMPTS, Waiting)], calls := s.calls - {k})
    case QueueWithdraw(k) =>
      s.(queue := s.queue + [Job(WithdrawFundingRequest, k, ATTEMPTS, Waiting)], calls := s.calls[k := WithdrawQueued])
    case WriteInProgress(k) => s.(deals := s.deals[k := InProgress], calls := s.calls - {k})
    case CrashCall(k) => s.(calls := s.calls - {k})
    case LookUp(i) => WithProgress(s, i, LookedUp)
    case CreateChecklist(i) =>
      WithProgress(s, i, ChecklistCreated(s.checklists)).(checklists := s.checklists + 1)
    case StoreRecord(i) =>
      WithProgress(s, i, RecordStored).(
        records := s.records + [Record(s.queue[i].key, s.queue[i].progress.checklistId)])
    case DeleteRecord(i) =>
      WithProgress(s, i, RecordDeleted).(records := DeleteFirst(s.records, s.queue[i].key))
    case Complete(i) => s.(queue := RemoveAt(s.queue, i))
    case Fail(i) =>
      if s.queue[i].attemptsLeft <= 1 then s.(queue := RemoveAt(s.queue, i))
      else s.(queue := s.queue[i := s.queue[i].(attemptsLeft := s.queue[i].attemptsLeft - 1, progress := Waiting)])
  }

  // ---- runs ----

  predicate ValidRun(s: State, run: seq<Action>)
    decreases run
  {
    run == [] || (Enabled(s, run[0]) && ValidRun(Apply(s, run[0]), run[1..]))
  }

  function Exec(s: State, run: seq<Action>): State
    requires ValidRun(s, run)
    decreases run
  {
    if run == [] then s else Exec(Apply(s, run[0]), run[1..])
  }

  predicate WorkerOnly(run: seq<Action>) {
    forall a <- run :: a.IsWorker()
  }

  predicate Initial(s: State) {
    s.deals == map[] && s.calls == map[] && s.queue == [] && s.records == []
  }

  // ---- what the pending jobs will do ----

  /** A NEW job leaves one record where there was none, a WITHDRAW job removes one where there was any. */
  function Effect(name: JobName, count: nat): nat {
    match name
    case NewFundingRequest => if count == 0 then 1 else count
    case WithdrawFundingRequest => if count == 0 then 0 else count - 1
  }

  /** The deal's number of records after all its jobs in `queue` are applied in order to `count` records. */
  function Replay(queue: seq<Job>, key: DealKey, count: nat): nat {
    if queue == [] then count
    else Replay(queue[1..], key, if queue[0].key == key then Effect(queue[0].name, count) else count)
  }

  /** What draining the queue will leave of the deal. */
  function Outcome(s: State, key: DealKey): nat {
    Replay(s.queue, key, CountRecords(s.records, key))
  }

  predicate HasJob(queue: seq<Job>, key: DealKey) {
    exists j :: 0 <= j < |queue| && queue[j].key == key
  }

  /**
   The last attempt of a job fails although the job has not had its effect and no later job of the deal will make up
   for it.  This is the only way a worker step changes what draining leaves.
   */
  predicate LosesJob(s: State, a: Action) {
    && a.Fail? && IsHead(s.queue, a.at) && s.queue[a.at].attemptsLeft <= 1
    && !HasJob(RemoveAt(s.queue, a.at), s.queue[a.at].key)
    && (CountRecords(s.records, s.queue[a.at].key) > 0) != (s.queue[a.at].name == NewFundingRequest)
  }

  predicate LosesWithdrawal(s: State, a: Action) {
    LosesJob(s, a) && s.queue[a.at].name == WithdrawFundingRequest
  }

  /**
   A WITHDRAW job that still mattered is given up although its deal does not read as requested, or is about to stop
   reading so because the call that queued the job has its status still to write.
   */
  predicate HarmfulLoss(s: State, a: Action) {
    && LosesWithdrawal(s, a)
    && var k := s.queue[a.at].key;
       || (k in s.deals ==> s.deals[k] != FundingRequested)
       || (k in s.calls && s.calls[k] == WithdrawQueued)
  }

  predicate NoHarmfulLoss(s: State, run: seq<Action>)
    requires ValidRun(s, run)
    decreases run
  {
    run == [] || (!HarmfulLoss(s, run[0]) && NoHarmfulLoss(Apply(s, run[0]), run[1..]))
  }

  /** No job of the run is given up before it had its effect. */
  predicate NothingLost(s: State, run: seq<Action>)
    requires ValidRun(s, run)
    decreases run
  {
    run == [] || (!LosesJob(s, run[0]) && NothingLost(Apply(s, run[0]), run[1..]))
  }

  predicate NoCrash(run: seq<Action>) {
    forall a <- run :: !a.CrashCall?
  }

  // ---- termination measure ----

  function Rank(p: Progress): nat {
    match p
    case Waiting => 0
    case LookedUp => 1
    case ChecklistCreated(_) => 2
    case RecordStored => 3
    case RecordDeleted => 3
  }

  function AttemptsLeft(queue: seq<Job>): nat {
    if queue == [] then 0 else queue[0].attemptsLeft + AttemptsLeft(queue[1..])
  }

  /** A handler run is at most four steps, counting the one that ends it. */
  function Work(queue: seq<Job>): int {
    if queue == [] then 0 else 4 * queue[0].attemptsLeft - Rank(queue[0].progress) + Work(queue[1..])
  }

  /** The number of handler runs that end (in success or failure) during `run`. */
  function HandlerRuns(run: seq<Action>): nat {
    if run == [] then 0
    else (if run[0].Complete? || run[0].Fail? then 1 else 0) + HandlerRuns(run[1..])
  }
}
