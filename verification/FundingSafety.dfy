/** What every run of the funding-request protocol keeps, and what draining the queue leaves. */
module FundingSafety {
  import opened FundingProtocol

  // ---- record counts and replay ----

  lemma {:induction false} CountAppend(records: seq<Record>, r: Record, key: DealKey)
    ensures CountRecords(records + [r], key) == CountRecords(records, key) + if r.key == key then 1 else 0
  {
    if records == [] {
      assert records + [r] == [r];
    } else {
      assert (records + [r])[1..] == records[1..] + [r];
      CountAppend(records[1..], r, key);
    }
  }

  /** Deleting takes one record of the deal, if it has any, and none of another deal; and it adds none. */
  lemma {:induction false} CountDelete(records: seq<Record>, deleted: DealKey, key: DealKey)
    ensures CountRecords(DeleteFirst(records, deleted), key)
         == if key == deleted && CountRecords(records, key) > 0
            then CountRecords(records, key) - 1 else CountRecords(records, key)
    ensures forall r <- DeleteFirst(records, deleted) :: r in records
  {
    if records != [] {
      CountDelete(records[1..], deleted, key);
      if records[0].key != deleted {
        assert DeleteFirst(records, deleted)[1..] == DeleteFirst(records[1..], deleted);
      }
    }
  }

  lemma {:induction false} CountPositive(records: seq<Record>, r: Record)
    requires r in records
    ensures CountRecords(records, r.key) > 0
  {
    if records[0] != r {
      CountPositive(records[1..], r);
    }
  }

  lemma {:induction false} ReplayAppend(queue: seq<Job>, j: Job, key: DealKey, n: nat)
    ensures Replay(queue + [j], key, n)
         == if j.key == key then Effect(j.name, Replay(queue, key, n)) else Replay(queue, key, n)
  {
    if queue == [] {
      assert queue + [j] == [j];
    } else {
      assert (queue + [j])[1..] == queue[1..] + [j];
      ReplayAppend(queue[1..], j, key, if queue[0].key == key then Effect(queue[0].name, n) else n);
    }
  }

  /** Replaying a deal's first job first and then the rest of the queue is replaying the queue. */
  lemma {:induction false} ReplayHead(queue: seq<Job>, i: nat, key: DealKey, n: nat)
    requires IsHead(queue, i)
    ensures Replay(queue, key, n)
         == Replay(RemoveAt(queue, i), key, if queue[i].key == key then Effect(queue[i].name, n) else n)
  {
    if i == 0 {
      assert RemoveAt(queue, 0) == queue[1..];
    } else {
      assert RemoveAt(queue, i)[0] == queue[0];
      assert RemoveAt(queue, i)[1..] == RemoveAt(queue[1..], i - 1);
      assert IsHead(queue[1..], i - 1) by {
        forall j | 0 <= j < i - 1 ensures queue[1..][j].key != queue[1..][i - 1].key {
          assert queue[1..][j] == queue[j + 1];
        }
      }
      ReplayHead(queue[1..], i - 1, key, if queue[0].key == key then Effect(queue[0].name, n) else n);
    }
  }

  lemma {:induction false} ReplayUpdate(queue: seq<Job>, i: nat, j: Job, key: DealKey, n: nat)
    requires i < |queue| && j.name == queue[i].name && j.key == queue[i].key
    ensures Replay(queue[i := j], key, n) == Replay(queue, key, n)
  {
    var m := if queue[0].key == key then Effect(queue[0].name, n) else n;
    if i == 0 {
      assert queue[i := j][1..] == queue[1..];
    } else {
      assert queue[i := j][1..] == queue[1..][i - 1 := j];
      ReplayUpdate(queue[1..], i - 1, j, key, m);
    }
  }

  /** With at most one record, a pending job makes the outcome forget what is stored now. */
  lemma {:induction false} ReplayForgets(queue: seq<Job>, key: DealKey, n: nat, m: nat)
    requires n <= 1 && m <= 1
    ensures Replay(queue, key, n) <= 1
    ensures HasJob(queue, key) ==> Replay(queue, key, n) == Replay(queue, key, m)
    ensures !HasJob(queue, key) ==> Replay(queue, key, n) == n
  {
    if queue != [] {
      var rest := queue[1..];
      if queue[0].key == key {
        ReplayForgets(rest, key, Effect(queue[0].name, n), Effect(queue[0].name, m));
      } else {
        ReplayForgets(rest, key, n, m);
        if HasJob(queue, key) {
          var j :| 0 <= j < |queue| && queue[j].key == key;
          assert rest[j - 1].key == key;
        }
      }
      if HasJob(rest, key) {
        var j :| 0 <= j < |rest| && rest[j].key == key;
        assert queue[j + 1].key == key;
      }
    }
  }

  // ---- the structural invariant ----

  ghost predicate AtMostOneRecord(s: State) {
    forall k: DealKey :: CountRecords(s.records, k) <= 1
  }

  predicate ChecklistsExist(s: State) {
    forall r <- s.records :: r.checklistId < s.checklists
  }

  /** The progress of a job agrees with its name and with what is stored. */
  predicate JobOk(s: State, i: nat)
    requires i < |s.queue|
  {
    var j := s.queue[i];
    && 1 <= j.attemptsLeft <= ATTEMPTS
    && j.key in s.deals
    && (j.progress != Waiting ==> IsHead(s.queue, i))
    && match j.progress {
         case Waiting => true
         case LookedUp => j.name == NewFundingRequest && CountRecords(s.records, j.key) == 0
         case ChecklistCreated(c) =>
           j.name == NewFundingRequest && CountRecords(s.records, j.key) == 0 && c < s.checklists
         case RecordStored => j.name == NewFundingRequest && CountRecords(s.records, j.key) == 1
         case RecordDeleted => j.name == WithdrawFundingRequest && CountRecords(s.records, j.key) == 0
       }
  }

  ghost predicate Structured(s: State) {
    && AtMostOneRecord(s)
    && ChecklistsExist(s)
    && (forall i :: 0 <= i < |s.queue| ==> JobOk(s, i))
    && (forall r <- s.records :: r.key in s.deals)
    && s.calls.Keys <= s.deals.Keys
  }

  lemma HeadUnique(queue: seq<Job>, i: nat, j: nat)
    requires IsHead(queue, i) && IsHead(queue, j) && queue[i].key == queue[j].key
    ensures i == j
  {
  }

  lemma JobsAfterAppend(s: State, s': State, j: Job)
    requires forall i :: 0 <= i < |s.queue| ==> JobOk(s, i)
    requires s'.queue == s.queue + [j] && s'.records == s.records && s'.checklists == s.checklists
    requires s.deals.Keys <= s'.deals.Keys && j.key in s'.deals
    requires j.progress == Waiting && j.attemptsLeft == ATTEMPTS
    ensures forall i :: 0 <= i < |s'.queue| ==> JobOk(s', i)
  {
    forall i | 0 <= i < |s'.queue| ensures JobOk(s', i) {
      if i < |s.queue| {
        assert JobOk(s, i) && s'.queue[i] == s.queue[i];
      }
    }
  }

  lemma JobsAfterRemove(s: State, s': State, i: nat)
    requires forall m :: 0 <= m < |s.queue| ==> JobOk(s, m)
    requires IsHead(s.queue, i) && s' == s.(queue := RemoveAt(s.queue, i))
    ensures forall m :: 0 <= m < |s'.queue| ==> JobOk(s', m)
  {
    forall m | 0 <= m < |s'.queue| ensures JobOk(s', m) {
      var o := if m < i then m else m + 1;
      assert JobOk(s, o) && s'.queue[m] == s.queue[o];
      if s.queue[o].progress != Waiting {
        assert IsHead(s'.queue, m) by {
          forall p | 0 <= p < m ensures s'.queue[p].key != s'.queue[m].key {
            assert s'.queue[p] == s.queue[if p < i then p else p + 1];
          }
        }
      }
    }
  }

  /** A step of the head job at `i` that may change the deal's own record count but no other deal's. */
  lemma JobsAfterStep(s: State, s': State, i: nat, j: Job)
    requires forall m :: 0 <= m < |s.queue| ==> JobOk(s, m)
    requires IsHead(s.queue, i) && j.key == s.queue[i].key
    requires s'.queue == s.queue[i := j] && s'.deals == s.deals && s.checklists <= s'.checklists
    requires forall k: DealKey :: k != j.key ==> CountRecords(s'.records, k) == CountRecords(s.records, k)
    requires IsHead(s'.queue, i) ==> JobOk(s', i)
    ensures forall m :: 0 <= m < |s'.queue| ==> JobOk(s', m)
  {
    assert IsHead(s'.queue, i) by {
      forall p | 0 <= p < i ensures s'.queue[p].key != s'.queue[i].key {
        assert s'.queue[p] == s.queue[p];
      }
    }
    forall m | 0 <= m < |s'.queue| ensures JobOk(s', m) {
      if m != i {
        assert JobOk(s, m) && s'.queue[m] == s.queue[m];
        if s.queue[m].progress != Waiting {
          if s.queue[m].key == j.key {
            HeadUnique(s.queue, m, i);
          }
          assert IsHead(s'.queue, m) by {
            forall p | 0 <= p < m ensures s'.queue[p].key != s'.queue[m].key {
              assert s'.queue[p].key == s.queue[p].key;
            }
          }
        }
      }
    }
  }

  lemma StructuredStep(s: State, a: Action)
    requires Structured(s) && Enabled(s, a)
    ensures Structured(Apply(s, a))
  {
    if a.IsWorker() {
      StructuredWorkerStep(s, a);
    } else {
      StructuredCallStep(s, a);
    }
  }

  lemma StructuredCallStep(s: State, a: Action)
    requires Structured(s) && Enabled(s, a) && !a.IsWorker()
    ensures Structured(Apply(s, a))
  {
    var s' := Apply(s, a);
    if a.QueueNew? || a.QueueWithdraw? {
      JobsAfterAppend(s, s', s'.queue[|s.queue|]);
    } else {
      SameJobs(s, s');
    }
  }

  lemma StructuredWorkerStep(s: State, a: Action)
    requires Structured(s) && Enabled(s, a) && a.IsWorker()
    ensures Structured(Apply(s, a))
  {
    var s' := Apply(s, a);
    match a {
      case LookUp(i) => assert JobOk(s, i); JobsAfterStep(s, s', i, s'.queue[i]);
      case CreateChecklist(i) => assert JobOk(s, i); JobsAfterStep(s, s', i, s'.queue[i]);
      case StoreRecord(i) =>
        assert JobOk(s, i);
        var r := Record(s.queue[i].key, s.queue[i].progress.checklistId);
        forall k: DealKey { CountAppend(s.records, r, k); }
        JobsAfterStep(s, s', i, s'.queue[i]);
      case DeleteRecord(i) =>
        assert JobOk(s, i);
        forall k: DealKey { CountDelete(s.records, s.queue[i].key, k); }
        JobsAfterStep(s, s', i, s'.queue[i]);
      case Complete(i) => JobsAfterRemove(s, s', i);
      case Fail(i) =>
        assert JobOk(s, i);
        if s.queue[i].attemptsLeft <= 1 {
          JobsAfterRemove(s, s', i);
        } else {
          JobsAfterStep(s, s', i, s'.queue[i]);
        }
    }
  }

  lemma SameJobs(s: State, s': State)
    requires forall m :: 0 <= m < |s.queue| ==> JobOk(s, m)
    requires s'.queue == s.queue && s'.records == s.records && s'.checklists == s.checklists
    requires s.deals.Keys <= s'.deals.Keys
    ensures forall m :: 0 <= m < |s'.queue| ==> JobOk(s', m)
  {
    forall m | 0 <= m < |s'.queue| ensures JobOk(s', m) {
      assert JobOk(s, m);
    }
  }

  /**
   In every run, with handlers dying at any point and being retried, a deal has at most one deal-processing record,
   and every record names a checklist instance that exists.
   */
  lemma {:induction false} AtMostOneRecordAlways(s: State, run: seq<Action>)
    requires Structured(s) && ValidRun(s, run)
    ensures Structured(Exec(s, run))
    decreases run
  {
    if run != [] {
      StructuredStep(s, run[0]);
      AtMostOneRecordAlways(Apply(s, run[0]), run[1..]);
    }
  }

  lemma OneRecordPerDeal(s: State, run: seq<Action>, key: DealKey)
    requires Initial(s) && ValidRun(s, run)
    ensures CountRecords(Exec(s, run).records, key) <= 1
    ensures forall r <- Exec(s, run).records :: r.checklistId < Exec(s, run).checklists
  {
    forall k: DealKey { NoRecordOf(s.records, k); }
    AtMostOneRecordAlways(s, run);
  }

  // ---- what draining leaves ----

  /** A worker step changes what draining leaves of some deal exactly when it gives up a job that still mattered. */
  lemma OutcomeStep(s: State, a: Action)
    requires Structured(s) && Enabled(s, a) && a.IsWorker()
    ensures !LosesJob(s, a) ==> forall k: DealKey :: Outcome(Apply(s, a), k) == Outcome(s, k)
    ensures LosesJob(s, a) ==>
              var k := s.queue[a.at].key;
              Outcome(Apply(s, a), k) == if LosesWithdrawal(s, a) then 1 else 0
    ensures LosesJob(s, a) ==>
              var k := s.queue[a.at].key;
              Outcome(s, k) == if LosesWithdrawal(s, a) then 0 else 1
    ensures LosesJob(s, a) ==>
              forall k: DealKey :: k != s.queue[a.at].key ==> Outcome(Apply(s, a), k) == Outcome(s, k)
  {
    forall k: DealKey | !LosesJob(s, a) || k != s.queue[a.at].key
      ensures Outcome(Apply(s, a), k) == Outcome(s, k)
    {
      OutcomeStepAt(s, a, k);
    }
    if LosesJob(s, a) {
      var k := s.queue[a.at].key;
      ReplayHead(s.queue, a.at, k, CountRecords(s.records, k));
      ReplayForgets(RemoveAt(s.queue, a.at), k, CountRecords(s.records, k), 0);
      ReplayForgets(RemoveAt(s.queue, a.at), k, Effect(s.queue[a.at].name, CountRecords(s.records, k)), 0);
    }
  }

  lemma OutcomeStepAt(s: State, a: Action, k: DealKey)
    requires Structured(s) && Enabled(s, a) && a.IsWorker()
    requires !LosesJob(s, a) || k != s.queue[a.at].key
    ensures Outcome(Apply(s, a), k) == Outcome(s, k)
  {
    var s' := Apply(s, a);
    var i := a.at;
    var c := CountRecords(s.records, k);
    var c' := CountRecords(s'.records, k);
    assert JobOk(s, i);
    if |s'.queue| == |s.queue| {
      ReplayUpdate(s.queue, i, s'.queue[i], k, c);
      match a {
        case StoreRecord(_) =>
          CountAppend(s.records, Record(s.queue[i].key, s.queue[i].progress.checklistId), k);
        case DeleteRecord(_) => CountDelete(s.records, s.queue[i].key, k);
        case _ =>
      }
      ReplayUpdate(s.queue, i, s'.queue[i], k, c');
      ReplayHead(s.queue, i, k, c);
      ReplayHead(s.queue, i, k, c');
    } else {
      ReplayHead(s.queue, i, k, c);
      ReplayForgets(s'.queue, k, c, Effect(s.queue[i].name, c));
    }
  }

  /**
   Confluence.  Any worker-only run that loses no job leaves each deal the outcome it had, whatever the order in which
   the deals' jobs were handled, interleaved, killed and retried; so any two such runs that empty the queue leave the
   same set of deals having a record.
   */
  lemma {:induction false} DrainingKeepsOutcome(s: State, run: seq<Action>, key: DealKey)
    requires Structured(s) && ValidRun(s, run) && WorkerOnly(run) && NothingLost(s, run)
    ensures Outcome(Exec(s, run), key) == Outcome(s, key)
    decreases run
  {
    if run != [] {
      OutcomeStep(s, run[0]);
      StructuredStep(s, run[0]);
      DrainingKeepsOutcome(Apply(s, run[0]), run[1..], key);
    }
  }

  lemma DrainingIsConfluent(s: State, run: seq<Action>, run': seq<Action>, key: DealKey)
    requires Structured(s)
    requires ValidRun(s, run) && WorkerOnly(run) && NothingLost(s, run) && Exec(s, run).queue == []
    requires ValidRun(s, run') && WorkerOnly(run') && NothingLost(s, run') && Exec(s, run').queue == []
    ensures CountRecords(Exec(s, run).records, key) == CountRecords(Exec(s, run').records, key)
    ensures CountRecords(Exec(s, run).records, key) == Outcome(s, key)
  {
    DrainingKeepsOutcome(s, run, key);
    DrainingKeepsOutcome(s, run', key);
  }

  // ---- no ghost deals ----

  /** Replaying the deal's pending jobs would leave it a record, and its funding does not read as requested. */
  predicate Ghost(s: State, k: DealKey) {
    Outcome(s, k) > 0 && (k in s.deals ==> s.deals[k] != FundingRequested)
  }

  ghost predicate NoGhostDeals(s: State) {
    forall k: DealKey :: Outcome(s, k) > 0 ==> k in s.deals && s.deals[k] == FundingRequested
  }

  /** The deal is a ghost, or the next write of its own open call makes it one. */
  predicate GhostSoon(s: State, k: DealKey) {
    Ghost(s, k) || (Enabled(s, WriteInProgress(k)) && Ghost(Apply(s, WriteInProgress(k)), k))
  }

  /** Between its two writes a call's deal reads as requested; and once a withdrawal is queued it will be effective. */
  ghost predicate OpenCallsOk(s: State) {
    forall k <- s.calls ::
      && k in s.deals && s.deals[k] == FundingRequested
      && (s.calls[k] == WithdrawQueued ==> Outcome(s, k) == 0)
  }

  ghost predicate Safe(s: State) {
    Structured(s) && NoGhostDeals(s) && OpenCallsOk(s)
  }

  lemma UnknownDeal(s: State, k: DealKey)
    requires Structured(s) && k !in s.deals
    ensures Outcome(s, k) == 0
  {
    forall j | 0 <= j < |s.queue| ensures s.queue[j].key != k {
      assert JobOk(s, j);
    }
    NoRecordOf(s.records, k);
    ReplayForgets(s.queue, k, 0, 0);
  }

  lemma {:induction false} NoRecordOf(records: seq<Record>, k: DealKey)
    requires forall r <- records :: r.key != k
    ensures CountRecords(records, k) == 0
  {
    if records != [] {
      assert records[0] in records;
      NoRecordOf(records[1..], k);
    }
  }

  lemma SafeStep(s: State, a: Action)
    requires Safe(s) && Enabled(s, a) && !HarmfulLoss(s, a)
    ensures Safe(Apply(s, a))
  {
    StructuredStep(s, a);
    if a.IsWorker() {
      OutcomeStep(s, a);
    } else {
      SafeCallStep(s, a);
    }
  }

  lemma SafeCallStep(s: State, a: Action)
    requires Safe(s) && Enabled(s, a) && !a.IsWorker()
    ensures NoGhostDeals(Apply(s, a)) && OpenCallsOk(Apply(s, a))
  {
    CallOutcome(s, a);
    if a.QueueWithdraw? {
      ReplayForgets(s.queue, a.key, CountRecords(s.records, a.key), 0);
    }
  }

  /** A client write changes what draining leaves only by queueing a job, and then of that job's deal alone. */
  lemma CallOutcome(s: State, a: Action)
    requires Enabled(s, a) && !a.IsWorker()
    ensures forall k: DealKey ::
              (Outcome(Apply(s, a), k)
               == if a.QueueNew? && a.key == k then Effect(NewFundingRequest, Outcome(s, k))
                  else if a.QueueWithdraw? && a.key == k then Effect(WithdrawFundingRequest, Outcome(s, k))
                  else Outcome(s, k))
  {
    if a.QueueNew? || a.QueueWithdraw? {
      var j := Apply(s, a).queue[|s.queue|];
      forall k: DealKey
        ensures Outcome(Apply(s, a), k) == if a.key == k then Effect(j.name, Outcome(s, k)) else Outcome(s, k)
      {
        ReplayAppend(s.queue, j, k, CountRecords(s.records, k));
      }
    }
  }

  /**
   No ghost deals: in every reachable state, whatever calls crashed between their writes, whatever NEW jobs were given
   up and however worker steps interleave, as long as no WITHDRAW job is given up that harms; so in particular when
   every WITHDRAW job is eventually applied.
   */
  lemma {:induction false} NoGhostDealsAlways(s: State, run: seq<Action>)
    requires Safe(s) && ValidRun(s, run) && NoHarmfulLoss(s, run)
    ensures Safe(Exec(s, run))
    decreases run
  {
    if run != [] {
      SafeStep(s, run[0]);
      NoGhostDealsAlways(Apply(s, run[0]), run[1..]);
    }
  }

  lemma InitiallySafe(s: State)
    requires Initial(s)
    ensures Safe(s)
  {
    forall k: DealKey { NoRecordOf(s.records, k); }
  }

  lemma NoGhostDealReachable(s: State, run: seq<Action>, key: DealKey)
    requires Initial(s) && ValidRun(s, run) && NoHarmfulLoss(s, run)
    ensures var t := Exec(s, run);
            Outcome(t, key) > 0 ==> key in t.deals && t.deals[key] == FundingRequested
  {
    InitiallySafe(s);
    NoGhostDealsAlways(s, run);
    assert !Ghost(Exec(s, run), key);
  }

  /**
   The proviso is exact, step by step.  From a safe state a step makes a ghost at once if and only if it gives up a
   WITHDRAW job that still mattered of a deal that does not read as requested; and it makes a ghost at once or through
   the next write of an open call if and only if the loss is harmful.
   */
  lemma GhostExactlyWhenWithdrawalLost(s: State, a: Action)
    requires Safe(s) && Enabled(s, a)
    ensures NoGhostDeals(Apply(s, a))
       <==> !(LosesWithdrawal(s, a)
              && var k := s.queue[a.at].key; k in s.deals ==> s.deals[k] != FundingRequested)
    ensures (forall k: DealKey :: !GhostSoon(Apply(s, a), k)) <==> !HarmfulLoss(s, a)
    ensures HarmfulLoss(s, a) ==> GhostSoon(Apply(s, a), s.queue[a.at].key)
  {
    var t := Apply(s, a);
    if a.IsWorker() {
      OutcomeStep(s, a);
    }
    if LosesWithdrawal(s, a) {
      var k := s.queue[a.at].key;
      assert Outcome(t, k) == 1;
      forall j: DealKey | j != k ensures !Ghost(t, j) {
        assert !Ghost(s, j);
      }
      assert Ghost(t, k) <==> (k in s.deals ==> s.deals[k] != FundingRequested);
    }
    if HarmfulLoss(s, a) {
      assert GhostSoon(t, s.queue[a.at].key);
    } else {
      SafeStep(s, a);
      forall k: DealKey ensures !GhostSoon(t, k) {
        NotSoon(t, k);
      }
    }
  }

  lemma NotSoon(s: State, k: DealKey)
    requires Safe(s)
    ensures !GhostSoon(s, k)
  {
    if Enabled(s, WriteInProgress(k)) {
      CallOutcome(s, WriteInProgress(k));
    }
    assert !Ghost(s, k);
  }

  /** No state of the run has a ghost, or a deal that its own open call's next write makes one. */
  ghost predicate NeverHaunted(s: State, run: seq<Action>)
    requires ValidRun(s, run)
    decreases run
  {
    (forall k: DealKey :: !GhostSoon(s, k)) && (run == [] || NeverHaunted(Apply(s, run[0]), run[1..]))
  }

  /** And it is exact over whole runs: a run is free of ghosts if and only if none of its losses is harmful. */
  lemma {:induction false} NeverHauntedExactlyWhen(s: State, run: seq<Action>)
    requires Safe(s) && ValidRun(s, run)
    ensures NeverHaunted(s, run) <==> NoHarmfulLoss(s, run)
    decreases run
  {
    forall k: DealKey ensures !GhostSoon(s, k) {
      NotSoon(s, k);
    }
    if run != [] {
      GhostExactlyWhenWithdrawalLost(s, run[0]);
      if HarmfulLoss(s, run[0]) {
        assert !NeverHaunted(Apply(s, run[0]), run[1..]);
      } else {
        SafeStep(s, run[0]);
        NeverHauntedExactlyWhen(Apply(s, run[0]), run[1..]);
      }
    }
  }

  // ---- agreement with the client side ----

  /** A deal with no call open has its funding requested exactly when draining will leave it a record. */
  ghost predicate Agrees(s: State) {
    forall k <- s.deals :: k !in s.calls ==> (s.deals[k] == FundingRequested <==> Outcome(s, k) > 0)
  }

  lemma AgreesStep(s: State, a: Action)
    requires Safe(s) && Agrees(s) && Enabled(s, a) && !LosesJob(s, a) && !a.CrashCall?
    ensures Safe(Apply(s, a)) && Agrees(Apply(s, a))
  {
    SafeStep(s, a);
    if a.IsWorker() {
      OutcomeStep(s, a);
    } else {
      CallOutcome(s, a);
      if a.CreateDeal? {
        UnknownDeal(s, a.key);
      }
    }
  }

  lemma {:induction false} AgreesAlways(s: State, run: seq<Action>)
    requires Safe(s) && Agrees(s) && ValidRun(s, run) && NoCrash(run) && NothingLost(s, run)
    ensures Safe(Exec(s, run)) && Agrees(Exec(s, run))
    decreases run
  {
    if run != [] {
      AgreesStep(s, run[0]);
      AgreesAlways(Apply(s, run[0]), run[1..]);
    }
  }

  /** After a crash-free run with an empty queue, a record exists exactly for the deals that read as requested. */
  lemma DrainedAgreement(s: State, run: seq<Action>, key: DealKey)
    requires Initial(s) && ValidRun(s, run) && NoCrash(run) && NothingLost(s, run)
    requires Exec(s, run).queue == [] && key in Exec(s, run).deals && key !in Exec(s, run).calls
    ensures Exec(s, run).deals[key] == FundingRequested <==> CountRecords(Exec(s, run).records, key) == 1
  {
    InitiallySafe(s);
    AgreesAlways(s, run);
  }

  // ---- asking again ----

  /** No action of the run is a client's write on the deal. */
  predicate LeavesClientSide(run: seq<Action>, k: DealKey) {
    forall a <- run :: a.IsWorker() || a.key != k
  }

  /** The worker, and calls on other deals, never touch what the client sees of a deal. */
  lemma {:induction false} ClientSideKept(s: State, run: seq<Action>, k: DealKey)
    requires ValidRun(s, run) && LeavesClientSide(run, k) && k in s.deals
    ensures k in Exec(s, run).deals && Exec(s, run).deals[k] == s.deals[k]
    ensures k in Exec(s, run).calls <==> k in s.calls
    decreases run
  {
    if run != [] {
      ClientSideKept(Apply(s, run[0]), run[1..], k);
    }
  }

  /**
   A deal whose withdrawal was completed is in progress, and can be requested again after any worker steps and calls on
   other deals; the second request again makes sure that draining leaves it a record.
   */
  lemma WithdrawnCanBeRequestedAgain(s: State, mid: seq<Action>, k: DealKey)
    requires Enabled(s, QueueWithdraw(k)) && Enabled(Apply(s, QueueWithdraw(k)), WriteInProgress(k))
    requires var t := Apply(Apply(s, QueueWithdraw(k)), WriteInProgress(k));
             ValidRun(t, mid) && LeavesClientSide(mid, k)
    ensures var t := Exec(Apply(Apply(s, QueueWithdraw(k)), WriteInProgress(k)), mid);
            && k in t.deals && t.deals[k] == InProgress
            && Enabled(t, WriteRequested(k))
            && var u := Apply(t, WriteRequested(k));
               && u.deals[k] == FundingRequested
               && Enabled(u, QueueNew(k))
               && Apply(u, QueueNew(k)).deals[k] == FundingRequested
               && Outcome(Apply(u, QueueNew(k)), k) > 0
  {
    var t := Apply(Apply(s, QueueWithdraw(k)), WriteInProgress(k));
    ClientSideKept(t, mid, k);
    CallOutcome(Apply(Exec(t, mid), WriteRequested(k)), QueueNew(k));
  }

  // ---- termination of draining ----

  lemma {:induction false} MeasureUpdate(queue: seq<Job>, i: nat, j: Job)
    requires i < |queue|
    ensures AttemptsLeft(queue[i := j]) == AttemptsLeft(queue) - queue[i].attemptsLeft + j.attemptsLeft
    ensures Work(queue[i := j]) == Work(queue) - (4 * queue[i].attemptsLeft - Rank(queue[i].progress))
                                   + (4 * j.attemptsLeft - Rank(j.progress))
  {
    if i == 0 {
      assert queue[i := j][1..] == queue[1..];
    } else {
      assert queue[i := j][1..] == queue[1..][i - 1 := j];
      MeasureUpdate(queue[1..], i - 1, j);
    }
  }

  lemma {:induction false} MeasureRemove(queue: seq<Job>, i: nat)
    requires i < |queue|
    ensures AttemptsLeft(RemoveAt(queue, i)) == AttemptsLeft(queue) - queue[i].attemptsLeft
    ensures Work(RemoveAt(queue, i)) == Work(queue) - (4 * queue[i].attemptsLeft - Rank(queue[i].progress))
  {
    if i == 0 {
      assert RemoveAt(queue, 0) == queue[1..];
    } else {
      assert RemoveAt(queue, i)[0] == queue[0];
      assert RemoveAt(queue, i)[1..] == RemoveAt(queue[1..], i - 1);
      MeasureRemove(queue[1..], i - 1);
    }
  }

  lemma {:induction false} WorkBounds(queue: seq<Job>)
    requires forall j <- queue :: 1 <= j.attemptsLeft <= ATTEMPTS
    ensures |queue| <= Work(queue) <= 4 * AttemptsLeft(queue)
    ensures AttemptsLeft(queue) <= ATTEMPTS * |queue|
  {
    if queue != [] {
      WorkBounds(queue[1..]);
    }
  }

  /** Every worker step uses up work, and every handler run that ends uses up an attempt of its job. */
  lemma WorkerStepDecreases(s: State, a: Action)
    requires Structured(s) && Enabled(s, a) && a.IsWorker()
    ensures Work(Apply(s, a).queue) < Work(s.queue)
    ensures AttemptsLeft(Apply(s, a).queue) <= AttemptsLeft(s.queue) - if a.Complete? || a.Fail? then 1 else 0
  {
    assert JobOk(s, a.at);
    if |Apply(s, a).queue| == |s.queue| {
      MeasureUpdate(s.queue, a.at, Apply(s, a).queue[a.at]);
    } else {
      MeasureRemove(s.queue, a.at);
    }
  }

  /**
   Draining terminates: a worker-only run ends at most as many handler runs as the queued jobs have attempts left,
   so at most three for each of them, and takes at most four steps for each.
   */
  lemma {:induction false} DrainingTerminates(s: State, run: seq<Action>)
    requires Structured(s) && ValidRun(s, run) && WorkerOnly(run)
    ensures HandlerRuns(run) <= AttemptsLeft(s.queue) - AttemptsLeft(Exec(s, run).queue)
    ensures AttemptsLeft(s.queue) <= ATTEMPTS * |s.queue|
    ensures |run| <= Work(s.queue) - Work(Exec(s, run).queue) <= 4 * AttemptsLeft(s.queue)
    decreases run
  {
    JobsBounded(s);
    if run != [] {
      WorkerStepDecreases(s, run[0]);
      StructuredStep(s, run[0]);
      DrainingTerminates(Apply(s, run[0]), run[1..]);
    }
    AtMostOneRecordAlways(s, run);
    JobsBounded(Exec(s, run));
  }

  /** Every completed job and every failed attempt counts as a handler run. */
  lemma {:induction false} HandlerRunsOneMore(run: seq<Action>, a: Action)
    ensures HandlerRuns(run + [a]) == HandlerRuns(run) + if a.Complete? || a.Fail? then 1 else 0
  {
    if run == [] {
      assert run + [a] == [a];
    } else {
      assert (run + [a])[1..] == run[1..] + [a];
      HandlerRunsOneMore(run[1..], a);
    }
  }

  lemma JobsBounded(s: State)
    requires Structured(s)
    ensures |s.queue| <= Work(s.queue) <= 4 * AttemptsLeft(s.queue)
    ensures AttemptsLeft(s.queue) <= ATTEMPTS * |s.queue|
  {
    forall j | j in s.queue ensures 1 <= j.attemptsLeft <= ATTEMPTS {
      var i :| 0 <= i < |s.queue| && s.queue[i] == j;
      assert JobOk(s, i);
    }
    WorkBounds(s.queue);
  }

  /** And it never gets stuck: while jobs are queued, some worker step other than failing an attempt is enabled,
      or the first job is a NEW one whose deal already has its record, which can only fail. */
  lemma DrainingProgresses(s: State)
    requires Structured(s) && s.queue != []
    ensures exists a: Action ::
              && a.IsWorker()
              && Enabled(s, a)
              && (a.Fail? ==> s.queue[0].name == NewFundingRequest && CountRecords(s.records, s.queue[0].key) == 1)
  {
    assert JobOk(s, 0) && IsHead(s.queue, 0);
    var j := s.queue[0];
    var a := match j.progress
      case Waiting =>
        if j.name == WithdrawFundingRequest then DeleteRecord(0)
        else if CountRecords(s.records, j.key) == 0 then LookUp(0) else Fail(0)
      case LookedUp => CreateChecklist(0)
      case ChecklistCreated(_) => StoreRecord(0)
      case _ => Complete(0);
    assert Enabled(s, a);
  }

  // ---- a lost withdrawal ----

  /** Create a deal, request its funding and let the worker store the record. */
  function StoredRun(k: DealKey): seq<Action> {
    [CreateDeal(k), WriteRequested(k), QueueNew(k), LookUp(0), CreateChecklist(0), StoreRecord(0), Complete(0)]
  }

  /** Withdraw, and let the WITHDRAW job die three times before it deletes anything. */
  function LostWithdrawalRun(k: DealKey): seq<Action> {
    [QueueWithdraw(k), WriteInProgress(k), Fail(0), Fail(0), Fail(0)]
  }

  lemma FirstStep(s: State, a: Action, rest: seq<Action>)
    requires Enabled(s, a) && ValidRun(Apply(s, a), rest)
    ensures ValidRun(s, [a] + rest) && Exec(s, [a] + rest) == Exec(Apply(s, a), rest)
  {
    assert ([a] + rest)[1..] == rest;
  }

  lemma StoredRunEnds(k: DealKey, s: State)
    requires Initial(s)
    ensures ValidRun(s, StoredRun(k))
    ensures Exec(s, StoredRun(k))
         == State(map[k := FundingRequested], map[], [], [Record(k, s.checklists)], s.checklists + 1)
  {
    var job := Job(NewFundingRequest, k, ATTEMPTS, Waiting);
    var s1 := s.(deals := map[k := InProgress]);
    var s2 := s.(deals := map[k := FundingRequested], calls := map[k := StatusWritten]);
    var s3 := s.(deals := map[k := FundingRequested], queue := [job]);
    assert Apply(s, CreateDeal(k)) == s1;
    assert Apply(s1, WriteRequested(k)) == s2;
    assert Apply(s2, QueueNew(k)) == s3;
    HandlerStores(k, s3);
    FirstStep(s2, QueueNew(k), StoringAttempt());
    FirstStep(s1, WriteRequested(k), [QueueNew(k)] + StoringAttempt());
    FirstStep(s, CreateDeal(k), [WriteRequested(k)] + ([QueueNew(k)] + StoringAttempt()));
    assert StoredRun(k) == [CreateDeal(k)] + ([WriteRequested(k)] + ([QueueNew(k)] + StoringAttempt()));
  }

  function StoringAttempt(): seq<Action> {
    [LookUp(0), CreateChecklist(0), StoreRecord(0), Complete(0)]
  }

  lemma HandlerStores(k: DealKey, s: State)
    requires s.records == [] && s.queue == [Job(NewFundingRequest, k, ATTEMPTS, Waiting)]
    ensures ValidRun(s, StoringAttempt())
    ensures Exec(s, StoringAttempt())
         == s.(queue := [], records := [Record(k, s.checklists)], checklists := s.checklists + 1)
  {
    var job := s.queue[0];
    var s1 := s.(queue := [job.(progress := LookedUp)]);
    var s2 := s.(queue := [job.(progress := ChecklistCreated(s.checklists))], checklists := s.checklists + 1);
    var s3 := s2.(queue := [job.(progress := RecordStored)], records := [Record(k, s.checklists)]);
    assert Apply(s, LookUp(0)) == s1;
    assert Apply(s1, CreateChecklist(0)) == s2;
    assert Apply(s2, StoreRecord(0)) == s3;
    FirstStep(s3, Complete(0), []);
    FirstStep(s2, StoreRecord(0), [Complete(0)]);
    FirstStep(s1, CreateChecklist(0), [StoreRecord(0), Complete(0)]);
    FirstStep(s, LookUp(0), [CreateChecklist(0), StoreRecord(0), Complete(0)]);
  }

  /**
   The proviso of NoGhostDealsAlways cannot be dropped: without any client crash, a WITHDRAW job that dies three times
   before it deletes anything leaves a deal that reads as in progress and still has its record.
   */
  lemma LostWithdrawalLeavesGhost(k: DealKey, s: State)
    requires Initial(s)
    ensures ValidRun(s, StoredRun(k)) && ValidRun(Exec(s, StoredRun(k)), LostWithdrawalRun(k))
    ensures !NoGhostDeals(Exec(Exec(s, StoredRun(k)), LostWithdrawalRun(k)))
  {
    StoredRunEnds(k, s);
    var run := LostWithdrawalRun(k);
    var s0 := Exec(s, StoredRun(k));
    var s1 := Apply(s0, run[0]);
    var s2 := Apply(s1, run[1]);
    var s3 := Apply(s2, run[2]);
    var s4 := Apply(s3, run[3]);
    FirstStep(s4, run[4], []);
    FirstStep(s3, run[3], [run[4]]);
    FirstStep(s2, run[2], [run[3], run[4]]);
    FirstStep(s1, run[1], [run[2], run[3], run[4]]);
    FirstStep(s0, run[0], [run[1], run[2], run[3], run[4]]);
    assert CountRecords([Record(k, s.checklists)], k) == 1;
    assert Outcome(Exec(s0, run), k) == 1;
  }
}
