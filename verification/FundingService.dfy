/**
 The funding-request code in its own form: the two client calls and the job handlers, writing to stored collections.
 Each method is shown to be a run of the protocol's single writes, so what holds of every run holds of the code.
 */
module FundingService {
  import opened Outcomes
  import opened FundingProtocol
  import opened FundingSafety

  datatype ApiError = DealNotFound | WrongState(status: DealStatus) | Died

  lemma {:induction false} RunsCompose(s: State, run: seq<Action>, run': seq<Action>)
    requires ValidRun(s, run) && ValidRun(Exec(s, run), run')
    ensures ValidRun(s, run + run') && Exec(s, run + run') == Exec(Exec(s, run), run')
    decreases run
  {
    if run == [] {
      assert run + run' == run';
    } else {
      RunsCompose(Apply(s, run[0]), run[1..], run');
      assert (run + run')[1..] == run[1..] + run';
    }
  }

  lemma HeadKept(queue: seq<Job>, i: nat, p: Progress)
    requires IsHead(queue, i)
    ensures IsHead(queue[i := queue[i].(progress := p)], i)
  {
  }

  lemma Extend(s: State, run: seq<Action>, a: Action)
    requires ValidRun(s, run) && Enabled(Exec(s, run), a)
    ensures ValidRun(s, run + [a]) && Exec(s, run + [a]) == Apply(Exec(s, run), a)
  {
    FirstStep(Exec(s, run), a, []);
    assert [a] + [] == [a];
    RunsCompose(s, run, [a]);
  }

  lemma {:induction false} LossesCompose(s: State, run: seq<Action>, run': seq<Action>)
    requires ValidRun(s, run) && ValidRun(Exec(s, run), run')
    ensures ValidRun(s, run + run')
    ensures NothingLost(s, run + run') <==> NothingLost(s, run) && NothingLost(Exec(s, run), run')
    decreases run
  {
    RunsCompose(s, run, run');
    if run == [] {
      assert run + run' == run';
    } else {
      LossesCompose(Apply(s, run[0]), run[1..], run');
      assert (run + run')[1..] == run[1..] + run';
    }
  }

  predicate NoFailure(run: seq<Action>) {
    forall a <- run :: !a.Fail?
  }

  lemma {:induction false} NoFailureNoLoss(s: State, run: seq<Action>)
    requires ValidRun(s, run) && NoFailure(run)
    ensures NothingLost(s, run)
    decreases run
  {
    if run != [] {
      NoFailureNoLoss(Apply(s, run[0]), run[1..]);
    }
  }

  /** An attempt that makes `survives` steps before it dies completes its job. */
  predicate Completes(job: Job, records: seq<Record>, survives: nat) {
    match job.name
    case NewFundingRequest => CountRecords(records, job.key) == 0 && survives > 3
    case WithdrawFundingRequest => survives > 1
  }

  /** What an attempt that makes `survives` steps leaves stored. */
  function RecordsAfter(job: Job, records: seq<Record>, checklists: nat, survives: nat): seq<Record> {
    match job.name
    case NewFundingRequest =>
      if CountRecords(records, job.key) == 0 && survives >= 3 then records + [Record(job.key, checklists)] else records
    case WithdrawFundingRequest =>
      if survives >= 1 then DeleteFirst(records, job.key) else records
  }

  /** An attempt that does not die has the effect its job is there for, on any records. */
  lemma UninterruptedAttempt(job: Job, records: seq<Record>, checklists: nat, survives: nat)
    requires survives > 3
    ensures CountRecords(RecordsAfter(job, records, checklists, survives), job.key)
         == Effect(job.name, CountRecords(records, job.key))
    ensures Completes(job, records, survives)
       <==> (job.name == NewFundingRequest ==> CountRecords(records, job.key) == 0)
  {
    CountAppend(records, Record(job.key, checklists), job.key);
    CountDelete(records, job.key, job.key);
  }

  /** How a delivery ends: the queue drops the job, or counts a failed attempt. */
  function Ending(i: nat, completed: bool): Action {
    if completed then Complete(i) else Fail(i)
  }

  function SettledQueue(queue: seq<Job>, i: nat, completed: bool): seq<Job>
    requires i < |queue|
  {
    if completed || queue[i].attemptsLeft <= 1 then RemoveAt(queue, i)
    else queue[i := queue[i].(attemptsLeft := queue[i].attemptsLeft - 1, progress := Waiting)]
  }

  ghost predicate IdleState(s: State) {
    Structured(s) && forall j <- s.queue :: j.progress == Waiting
  }

  /** The steps of the handler and the ending of the delivery are a run that leaves the worker idle again. */
  lemma Delivered(s: State, run: seq<Action>, t: State, i: nat, completed: bool)
    requires IdleState(s) && IsHead(s.queue, i) && |t.queue| == |s.queue|
    requires ValidRun(s, run) && t == Exec(s, run) && NoFailure(run) && WorkerOnly(run)
    requires t.queue == s.queue[i := s.queue[i].(progress := t.queue[i].progress)]
    requires completed ==> t.queue[i].progress == RecordStored || t.queue[i].progress == RecordDeleted
    ensures Enabled(t, Ending(i, completed))
    ensures var u := Apply(t, Ending(i, completed));
            && u.queue == SettledQueue(s.queue, i, completed)
            && IdleState(u)
            && AttemptsLeft(u.queue) < AttemptsLeft(s.queue)
            && ValidRun(s, run + [Ending(i, completed)])
            && u == Exec(s, run + [Ending(i, completed)])
    ensures WorkerOnly(run + [Ending(i, completed)])
    ensures (!completed ==> t.queue[i].name == NewFundingRequest && CountRecords(t.records, t.queue[i].key) > 0) ==>
              NothingLost(s, run + [Ending(i, completed)])
  {
    assert JobOk(s, i);
    EndingSettles(s.queue, t, i, completed);
    Extend(s, run, Ending(i, completed));
    SettledIdle(s, run + [Ending(i, completed)], Apply(t, Ending(i, completed)), i, completed);
    if !completed ==> t.queue[i].name == NewFundingRequest && CountRecords(t.records, t.queue[i].key) > 0 {
      LossAtTheEnd(s, run, Ending(i, completed));
    }
  }

  lemma EndingSettles(queue: seq<Job>, t: State, i: nat, completed: bool)
    requires IsHead(queue, i) && |t.queue| == |queue| && queue[i].progress == Waiting
    requires t.queue == queue[i := queue[i].(progress := t.queue[i].progress)]
    requires completed ==> t.queue[i].progress == RecordStored || t.queue[i].progress == RecordDeleted
    ensures Enabled(t, Ending(i, completed))
    ensures Apply(t, Ending(i, completed)).queue == SettledQueue(queue, i, completed)
  {
    HeadKept(queue, i, t.queue[i].progress);
  }

  lemma LossAtTheEnd(s: State, run: seq<Action>, last: Action)
    requires ValidRun(s, run) && NoFailure(run) && Enabled(Exec(s, run), last) && !LosesJob(Exec(s, run), last)
    ensures ValidRun(s, run + [last]) && NothingLost(s, run + [last])
  {
    NoFailureNoLoss(s, run);
    FirstStep(Exec(s, run), last, []);
    assert [last] + [] == [last];
    LossesCompose(s, run, [last]);
  }

  lemma SettledIdle(s: State, run: seq<Action>, u: State, i: nat, completed: bool)
    requires IdleState(s) && ValidRun(s, run) && u == Exec(s, run)
    requires i < |s.queue| && s.queue[i].attemptsLeft >= 1
    requires u.queue == SettledQueue(s.queue, i, completed)
    ensures IdleState(u)
    ensures AttemptsLeft(u.queue) < AttemptsLeft(s.queue)
  {
    AtMostOneRecordAlways(s, run);
    MeasureRemove(s.queue, i);
    if |u.queue| == |s.queue| {
      MeasureUpdate(s.queue, i, u.queue[i]);
    }
    forall m | 0 <= m < |u.queue| ensures u.queue[m].progress == Waiting {
      var o := if |u.queue| == |s.queue| || m < i then m else m + 1;
      assert s.queue[o] in s.queue;
    }
  }

  /** The stored collections, the client service and the worker. */
  class FundingDesk {
    var deals: map<DealKey, DealStatus>
    var queue: seq<Job>
    var records: seq<Record>
    var checklists: nat
    /** The calls on other deals that are between their two writes. */
    ghost var calls: map<DealKey, OpenCall>

    constructor ()
      ensures Initial(View())
    {
      deals, queue, records, checklists, calls := map[], [], [], 0, map[];
    }

    ghost function View(): State
      reads this
    {
      State(deals, calls, queue, records, checklists)
    }

    /** Between attempts no handler is running. */
    ghost predicate Idle()
      reads this
    {
      IdleState(View())
    }

    /** `requestFunding`: writes the status, then queues the NEW job; `dies` stops it between the two. */
    method RequestFunding(key: DealKey, dies: bool) returns (r: Result<(), ApiError>)
      requires key !in calls
      modifies this
      ensures key !in old(deals) ==> r == Err(DealNotFound)
      ensures key in old(deals) && old(deals)[key] != InProgress ==> r == Err(WrongState(old(deals)[key]))
      ensures key in old(deals) && old(deals)[key] == InProgress ==>
                var run := [WriteRequested(key), if dies then CrashCall(key) else QueueNew(key)];
                && r == (if dies then Err(Died) else Ok(()))
                && ValidRun(old(View()), run)
                && View() == Exec(old(View()), run)
                && deals == old(deals)[key := FundingRequested]
                && queue == old(queue) + (if dies then [] else [Job(NewFundingRequest, key, ATTEMPTS, Waiting)])
                && records == old(records) && checklists == old(checklists) && calls == old(calls)
      ensures !(key in old(deals) && old(deals)[key] == InProgress) ==> View() == old(View())
    {
      if key !in deals {
        return Err(DealNotFound);
      }
      if deals[key] != InProgress {
        return Err(WrongState(deals[key]));
      }
      ghost var s0 := View();
      deals := deals[key := FundingRequested];
      ghost var s1 := Apply(s0, WriteRequested(key));
      assert s1.calls - {key} == s0.calls;
      if dies {
        FirstStep(s1, CrashCall(key), []);
        FirstStep(s0, WriteRequested(key), [CrashCall(key)]);
        assert [WriteRequested(key)] + [CrashCall(key)] == [WriteRequested(key), CrashCall(key)];
        return Err(Died);
      }
      queue := queue + [Job(NewFundingRequest, key, ATTEMPTS, Waiting)];
      FirstStep(s1, QueueNew(key), []);
      FirstStep(s0, WriteRequested(key), [QueueNew(key)]);
      assert [WriteRequested(key)] + [QueueNew(key)] == [WriteRequested(key), QueueNew(key)];
      r := Ok(());
    }

    /** `withdrawFunding`: queues the WITHDRAW job, then writes the status; `dies` stops it between the two. */
    method WithdrawFunding(key: DealKey, dies: bool) returns (r: Result<(), ApiError>)
      requires key !in calls
      modifies this
      ensures key !in old(deals) ==> r == Err(DealNotFound)
      ensures key in old(deals) && old(deals)[key] != FundingRequested ==> r == Err(WrongState(old(deals)[key]))
      ensures key in old(deals) && old(deals)[key] == FundingRequested ==>
                var run := [QueueWithdraw(key), if dies then CrashCall(key) else WriteInProgress(key)];
                && r == (if dies then Err(Died) else Ok(()))
                && ValidRun(old(View()), run)
                && View() == Exec(old(View()), run)
                && deals == (if dies then old(deals) else old(deals)[key := InProgress])
                && queue == old(queue) + [Job(WithdrawFundingRequest, key, ATTEMPTS, Waiting)]
                && records == old(records) && checklists == old(checklists) && calls == old(calls)
      ensures !(key in old(deals) && old(deals)[key] == FundingRequested) ==> View() == old(View())
    {
      if key !in deals {
        return Err(DealNotFound);
      }
      if deals[key] != FundingRequested {
        return Err(WrongState(deals[key]));
      }
      ghost var s0 := View();
      queue := queue + [Job(WithdrawFundingRequest, key, ATTEMPTS, Waiting)];
      ghost var s1 := Apply(s0, QueueWithdraw(key));
      assert s1.calls - {key} == s0.calls;
      if dies {
        FirstStep(s1, CrashCall(key), []);
        FirstStep(s0, QueueWithdraw(key), [CrashCall(key)]);
        assert [QueueWithdraw(key)] + [CrashCall(key)] == [QueueWithdraw(key), CrashCall(key)];
        return Err(Died);
      }
      deals := deals[key := InProgress];
      FirstStep(s1, WriteInProgress(key), []);
      FirstStep(s0, QueueWithdraw(key), [WriteInProgress(key)]);
      assert [QueueWithdraw(key)] + [WriteInProgress(key)] == [QueueWithdraw(key), WriteInProgress(key)];
      r := Ok(());
    }

    /** `createDealProcessing`: a checklist instance first, then the record that names it. */
    method CreateDealProcessing(i: nat, survives: nat) returns (completed: bool, ghost run: seq<Action>)
      requires IsHead(queue, i) && queue[i].progress == LookedUp
      modifies this`queue, this`records, this`checklists
      ensures |queue| == |old(queue)| && queue == old(queue)[i := old(queue)[i].(progress := queue[i].progress)]
      ensures checklists == old(checklists) + if survives >= 2 then 1 else 0
      ensures records == old(records) + if survives >= 3 then [Record(queue[i].key, old(checklists))] else []
      ensures completed == (survives > 3)
      ensures completed ==> queue[i].progress == RecordStored
      ensures NoFailure(run) && WorkerOnly(run) && ValidRun(old(View()), run) && View() == Exec(old(View()), run)
    {
      completed, run := false, [];
      if survives < 2 {
        return;
      }
      ghost var s := View();
      var job := queue[i];
      var checklistId := checklists;
      run := Step(s, run, CreateChecklist(i));
      HeadKept(queue, i, ChecklistCreated(checklistId));
      queue := queue[i := job.(progress := ChecklistCreated(checklistId))];
      checklists := checklists + 1;
      if survives >= 3 {
        run := Step(s, run, StoreRecord(i));
        queue := queue[i := job.(progress := RecordStored)];
        records := records + [Record(job.key, checklistId)];
        completed := survives > 3;
      }
    }

    /**
     The steps of a NEW attempt: look the record up, create a checklist instance and then the record.  It makes
     `survives` of them before it dies, and throws when the deal already has a record.
     */
    method HandleNew(i: nat, survives: nat) returns (completed: bool, ghost run: seq<Action>)
      requires IsHead(queue, i) && queue[i].name == NewFundingRequest && queue[i].progress == Waiting
      modifies this`queue, this`records, this`checklists
      ensures |queue| == |old(queue)| && queue == old(queue)[i := old(queue)[i].(progress := queue[i].progress)]
      ensures var key := old(queue)[i].key;
              var firstTime := CountRecords(old(records), key) == 0;
              && completed == (firstTime && survives > 3)
              && checklists == old(checklists) + (if firstTime && survives >= 2 then 1 else 0)
              && records == old(records) + if firstTime && survives >= 3 then [Record(key, old(checklists))] else []
      ensures completed ==> queue[i].progress == RecordStored
      ensures NoFailure(run) && WorkerOnly(run) && ValidRun(old(View()), run) && View() == Exec(old(View()), run)
    {
      completed, run := false, [];
      ghost var s := View();
      if CountRecords(records, queue[i].key) == 0 && survives >= 1 {
        run := Step(s, run, LookUp(i));
        HeadKept(queue, i, LookedUp);
        queue := queue[i := queue[i].(progress := LookedUp)];
        ghost var more;
        completed, more := CreateDealProcessing(i, survives);
        RunsCompose(s, run, more);
        run := run + more;
      }
    }

    /** The steps of a WITHDRAW attempt: its existence check never throws, so it deletes what there is. */
    method HandleWithdraw(i: nat, survives: nat) returns (completed: bool, ghost run: seq<Action>)
      requires IsHead(queue, i) && queue[i].name == WithdrawFundingRequest && queue[i].progress == Waiting
      modifies this`queue, this`records
      ensures |queue| == |old(queue)| && queue == old(queue)[i := old(queue)[i].(progress := queue[i].progress)]
      ensures completed == (survives > 1)
      ensures records == if survives >= 1 then DeleteFirst(old(records), queue[i].key) else old(records)
      ensures completed ==> queue[i].progress == RecordDeleted
      ensures NoFailure(run) && WorkerOnly(run) && ValidRun(old(View()), run) && View() == Exec(old(View()), run)
    {
      completed, run := false, [];
      ghost var s := View();
      var job := queue[i];
      if survives >= 1 {
        run := Step(s, run, DeleteRecord(i));
        queue := queue[i := job.(progress := RecordDeleted)];
        records := DeleteFirst(records, job.key);
        completed := survives > 1;
      }
    }

    /** Extends the run by the action the code is about to take. */
    ghost method Step(s: State, run: seq<Action>, a: Action) returns (run': seq<Action>)
      requires ValidRun(s, run) && Exec(s, run) == View() && Enabled(View(), a)
      ensures run' == run + [a] && ValidRun(s, run') && Exec(s, run') == Apply(View(), a)
    {
      Extend(s, run, a);
      run' := run + [a];
    }

    /** The queue drops a completed job and one out of attempts, and keeps any other in its place for a retry. */
    method Settle(i: nat, completed: bool)
      requires IsHead(queue, i)
      requires completed ==> queue[i].progress == RecordStored || queue[i].progress == RecordDeleted
      modifies this`queue
      ensures View() == Apply(old(View()), if completed then Complete(i) else Fail(i))
      ensures queue == SettledQueue(old(queue), i, completed)
    {
      if completed || queue[i].attemptsLeft <= 1 {
        queue := RemoveAt(queue, i);
      } else {
        queue := queue[i := queue[i].(attemptsLeft := queue[i].attemptsLeft - 1, progress := Waiting)];
      }
    }

    /** Runs the handler of the job at `i`. */
    method Handle(i: nat, survives: nat) returns (completed: bool, ghost run: seq<Action>)
      requires IsHead(queue, i) && queue[i].progress == Waiting
      modifies this`queue, this`records, this`checklists
      ensures |queue| == |old(queue)| && queue == old(queue)[i := old(queue)[i].(progress := queue[i].progress)]
      ensures completed == Completes(old(queue)[i], old(records), survives)
      ensures records == RecordsAfter(old(queue)[i], old(records), old(checklists), survives)
      ensures completed ==> queue[i].progress == RecordStored || queue[i].progress == RecordDeleted
      ensures NoFailure(run) && WorkerOnly(run) && ValidRun(old(View()), run) && View() == Exec(old(View()), run)
    {
      if queue[i].name == NewFundingRequest {
        completed, run := HandleNew(i, survives);
      } else {
        completed, run := HandleWithdraw(i, survives);
      }
    }

    /**
     One delivery of the job at `i`: run its handler, then settle the job with the queue.  An attempt that does not
     die loses nothing: it completes its job, or it is a NEW one whose deal has its record already.
     */
    method Process(i: nat, survives: nat) returns (completed: bool, ghost run: seq<Action>)
      requires Idle() && IsHead(queue, i)
      modifies this`queue, this`records, this`checklists
      ensures Idle()
      ensures completed == Completes(old(queue)[i], old(records), survives)
      ensures records == RecordsAfter(old(queue)[i], old(records), old(checklists), survives)
      ensures var job := old(queue)[i];
              queue == if completed || job.attemptsLeft <= 1 then RemoveAt(old(queue), i)
                       else old(queue)[i := job.(attemptsLeft := job.attemptsLeft - 1)]
      ensures AttemptsLeft(queue) < AttemptsLeft(old(queue))
      ensures WorkerOnly(run) && ValidRun(old(View()), run) && View() == Exec(old(View()), run)
      ensures survives > 3 ==> NothingLost(old(View()), run)
    {
      ghost var s := View();
      completed, run := Handle(i, survives);
      Delivered(s, run, View(), i, completed);
      run := run + [Ending(i, completed)];
      Settle(i, completed);
    }

    /**
     Delivers jobs until none is queued, each time any deal's first one, with any attempt dying anywhere.  It ends
     after at most as many deliveries as the jobs had attempts left; and if no job was given up that still mattered,
     each deal ends with what replaying its jobs in order would have left it.
     */
    method Drain(survives: nat -> nat) returns (deliveries: nat, ghost run: seq<Action>)
      requires Idle()
      modifies this
      ensures queue == [] && deals == old(deals) && calls == old(calls)
      ensures deliveries <= AttemptsLeft(old(queue)) <= ATTEMPTS * |old(queue)|
      ensures ValidRun(old(View()), run) && WorkerOnly(run) && View() == Exec(old(View()), run)
      ensures NothingLost(old(View()), run) ==>
                forall k: DealKey :: CountRecords(records, k) == Outcome(old(View()), k)
      ensures (forall d :: survives(d) > 3) ==> NothingLost(old(View()), run)
    {
      deliveries, run := 0, [];
      ghost var s := View();
      JobsBounded(s);
      while queue != []
        invariant Idle() && deals == s.deals && calls == s.calls
        invariant ValidRun(s, run) && WorkerOnly(run) && View() == Exec(s, run)
        invariant (forall d :: survives(d) > 3) ==> NothingLost(s, run)
        invariant deliveries + AttemptsLeft(queue) <= AttemptsLeft(s.queue)
        decreases AttemptsLeft(queue)
      {
        assert IsHead(queue, 0);
        var i :| 0 <= i < |queue| && IsHead(queue, i);
        var _, more := Process(i, survives(deliveries));
        RunsCompose(s, run, more);
        LossesCompose(s, run, more);
        deliveries, run := deliveries + 1, run + more;
      }
      if NothingLost(s, run) {
        forall k: DealKey ensures CountRecords(records, k) == Outcome(s, k) {
          DrainingKeepsOutcome(s, run, k);
        }
      }
    }
  }
}
