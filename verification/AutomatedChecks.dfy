/**
 Automated checks end to end: the jobs queued for a template's automated items, and the updates that come back for them
 in any order.
 */
module AutomatedChecks {
  import opened Outcomes
  import opened Checklists
  import opened ChecklistTemplates

  /** What every job of one onboarding carries. */
  datatype EventData = EventData(checklistInstanceId: nat, registrationId: string, onboardingProcessingId: string)

  /** `backoff` is the first delay, in milliseconds, of an exponential series of retries. */
  datatype CheckJob = CheckJob(
    eventType: string,
    data: EventData,
    sectionTitle: string,
    itemTitle: string,
    checkConfig: Option<CheckConfig>,
    attempts: nat,
    backoff: nat)

  const DEFAULT_ATTEMPTS: nat := 3
  const BACKOFF: nat := 2000

  /** Automated items without an event type are skipped. */
  predicate Queued(item: TemplateItem) {
    item.checkType == Automated && item.eventType != ""
  }

  /** A missing or zero number of attempts counts as the default. */
  function Attempts(item: TemplateItem): nat {
    if item.checkConfig == None || item.checkConfig.value.retryAttempts == 0 then DEFAULT_ATTEMPTS
    else item.checkConfig.value.retryAttempts
  }

  function JobFor(section: TemplateSection, item: TemplateItem, data: EventData): CheckJob {
    CheckJob(item.eventType, data, section.title, item.title, item.checkConfig, Attempts(item), BACKOFF)
  }

  // ---- the queued positions, in template order ----

  predicate SlotIn(t: Template, slot: Slot) {
    slot.section < |t.sections| && slot.item < |t.sections[slot.section].items|
  }

  predicate QueuedSlot(t: Template, slot: Slot) {
    SlotIn(t, slot) && Queued(t.sections[slot.section].items[slot.item])
  }

  predicate Before(a: Slot, b: Slot) {
    a.section < b.section || (a.section == b.section && a.item < b.item)
  }

  function JobAt(t: Template, slot: Slot, data: EventData): CheckJob
    requires SlotIn(t, slot)
  {
    JobFor(t.sections[slot.section], t.sections[slot.section].items[slot.item], data)
  }

  /** `slots` lists exactly the queued positions before `end`, each once, in template order. */
  ghost predicate ListsQueued(t: Template, slots: seq<Slot>, end: Slot) {
    && (forall k :: 0 <= k < |slots| ==> QueuedSlot(t, slots[k]) && Before(slots[k], end))
    && (forall j, k :: 0 <= j < k < |slots| ==> Before(slots[j], slots[k]))
    && (forall slot: Slot :: QueuedSlot(t, slot) && Before(slot, end) ==> slot in slots)
  }

  predicate JobsOf(t: Template, slots: seq<Slot>, jobs: seq<CheckJob>, data: EventData) {
    |jobs| == |slots| && forall k :: 0 <= k < |slots| ==> SlotIn(t, slots[k]) && jobs[k] == JobAt(t, slots[k], data)
  }

  /** `jobs` are the jobs of exactly the queued items before `end`, in template order; `slots` says which items. */
  ghost predicate Emitted(t: Template, slots: seq<Slot>, jobs: seq<CheckJob>, data: EventData, end: Slot) {
    ListsQueued(t, slots, end) && JobsOf(t, slots, jobs, data)
  }

  class ChecksQueue {
    var queue: seq<CheckJob>

    /** The inner loop: the items of one section. */
    method QueueSection(t: Template, s: nat, data: EventData, ghost base: seq<CheckJob>, ghost slots: seq<Slot>,
                        ghost jobs: seq<CheckJob>)
      returns (ghost slots': seq<Slot>, ghost jobs': seq<CheckJob>)
      requires s < |t.sections| && queue == base + jobs
      requires Emitted(t, slots, jobs, data, Slot(s, 0))
      modifies this
      ensures Emitted(t, slots', jobs', data, Slot(s, |t.sections[s].items|))
      ensures queue == base + jobs'
    {
      var section := t.sections[s];
      slots', jobs' := slots, jobs;
      for i := 0 to |section.items|
        invariant Emitted(t, slots', jobs', data, Slot(s, i))
        invariant queue == base + jobs'
      {
        var item := section.items[i];
        EmitOne(t, slots', jobs', data, Slot(s, i));
        if Queued(item) {
          queue := queue + [JobFor(section, item, data)];
          slots', jobs' := slots' + [Slot(s, i)], jobs' + [JobFor(section, item, data)];
        }
      }
    }

    /**
     `queueAutomatedChecks`: appends exactly one job per automated item that has an event type, in template order.
     The ghost results say which jobs, and for which items.
     */
    method QueueAutomatedChecks(t: Template, data: EventData)
      returns (ghost slots: seq<Slot>, ghost jobs: seq<CheckJob>)
      modifies this
      ensures queue == old(queue) + jobs
      ensures Emitted(t, slots, jobs, data, Slot(|t.sections|, 0))
      ensures forall slot: Slot :: slot in slots <==>
                && slot.section < |t.sections| && slot.item < |t.sections[slot.section].items|
                && t.sections[slot.section].items[slot.item].checkType == Automated
                && t.sections[slot.section].items[slot.item].eventType != ""
      ensures forall j, k :: 0 <= j < k < |slots| ==>
                slots[j].section < slots[k].section
                || (slots[j].section == slots[k].section && slots[j].item < slots[k].item)
      ensures |jobs| == |slots| && forall k :: 0 <= k < |jobs| ==>
                var section := t.sections[slots[k].section];
                var item := section.items[slots[k].item];
                && jobs[k].eventType == item.eventType && jobs[k].data == data
                && jobs[k].sectionTitle == section.title && jobs[k].itemTitle == item.title
                && jobs[k].checkConfig == item.checkConfig && jobs[k].backoff == 2000
                && jobs[k].attempts == match item.checkConfig
                                       case None => 3
                                       case Some(c) => if c.retryAttempts == 0 then 3 else c.retryAttempts
    {
      slots, jobs := [], [];
      assert Emitted(t, slots, jobs, data, Slot(0, 0));
      for s := 0 to |t.sections|
        invariant Emitted(t, slots, jobs, data, Slot(s, 0))
        invariant queue == old(queue) + jobs
      {
        slots, jobs := QueueSection(t, s, data, old(queue), slots, jobs);
        EmitSection(t, slots, jobs, data, s);
      }
      forall slot: Slot | slot in slots ensures QueuedSlot(t, slot) {
        var k :| 0 <= k < |slots| && slots[k] == slot;
      }
    }
  }

  lemma EmitOne(t: Template, slots: seq<Slot>, jobs: seq<CheckJob>, data: EventData, at: Slot)
    requires Emitted(t, slots, jobs, data, at) && SlotIn(t, at)
    ensures if QueuedSlot(t, at)
            then Emitted(t, slots + [at], jobs + [JobAt(t, at, data)], data, Slot(at.section, at.item + 1))
            else Emitted(t, slots, jobs, data, Slot(at.section, at.item + 1))
  {
    OneMoreSlot(t, slots, at);
    OneMoreJob(t, slots, jobs, at, data);
  }

  lemma EmitSection(t: Template, slots: seq<Slot>, jobs: seq<CheckJob>, data: EventData, s: nat)
    requires s < |t.sections| && Emitted(t, slots, jobs, data, Slot(s, |t.sections[s].items|))
    ensures Emitted(t, slots, jobs, data, Slot(s + 1, 0))
  {
    NextSection(t, slots, s);
  }

  lemma OneMoreJob(t: Template, slots: seq<Slot>, jobs: seq<CheckJob>, at: Slot, data: EventData)
    requires JobsOf(t, slots, jobs, data) && SlotIn(t, at)
    ensures JobsOf(t, slots + [at], jobs + [JobAt(t, at, data)], data)
  {
  }

  lemma OneMoreSlot(t: Template, slots: seq<Slot>, at: Slot)
    requires ListsQueued(t, slots, at) && SlotIn(t, at)
    ensures ListsQueued(t, if QueuedSlot(t, at) then slots + [at] else slots, Slot(at.section, at.item + 1))
  {
  }

  lemma NextSection(t: Template, slots: seq<Slot>, s: nat)
    requires s < |t.sections| && ListsQueued(t, slots, Slot(s, |t.sections[s].items|))
    ensures ListsQueued(t, slots, Slot(s + 1, 0))
  {
  }

  // ---- the updates that come back ----

  /** What a check reports: a status and notes for its item. */
  datatype CheckResult = CheckResult(status: ItemStatus, notes: seq<Note>)

  function UpdateFor(job: CheckJob, result: CheckResult): Update {
    Update(job.sectionTitle, job.itemTitle, Some(result.status), result.notes)
  }

  predicate DistinctTitles(t: Template) {
    && NoDuplicates(TemplateSectionTitles(t))
    && forall s :: 0 <= s < |t.sections| ==> NoDuplicates(TemplateItemTitles(t.sections[s]))
  }

  /** With distinct titles a job's update addresses the item the job was queued for. */
  lemma JobAddressesItsItem(t: Template, inst: Instance, slot: Slot, data: EventData, result: CheckResult)
    requires DistinctTitles(t) && CopyOf(inst, t) && QueuedSlot(t, slot)
    ensures Resolve(inst, Some(t), UpdateFor(JobAt(t, slot, data), result), AutomatedOriginator) == Ok(slot)
  {
    assert SectionTitles(inst) == TemplateSectionTitles(t);
    var section := t.sections[slot.section];
    assert TemplateSectionTitles(t)[slot.section] == section.title;
    assert ItemTitles(inst.sections[slot.section]) == TemplateItemTitles(section);
    assert TemplateItemTitles(section)[slot.item] == section.items[slot.item].title;
    IndexOfFirst(SectionTitles(inst), section.title);
    IndexOfFirst(TemplateItemTitles(section), section.items[slot.item].title);
    CopyResolves(inst, t, UpdateFor(JobAt(t, slot, data), result));
  }

  /** The updates of the given items, in the order their checks finished. */
  function UpdatesFor(t: Template, order: seq<Slot>, data: EventData, results: CheckJob -> CheckResult): seq<Update>
    requires forall k :: 0 <= k < |order| ==> SlotIn(t, order[k])
  {
    seq(|order|, k requires 0 <= k < |order| =>
      UpdateFor(JobAt(t, order[k], data), results(JobAt(t, order[k], data))))
  }

  /** All the updates resolve against the instance. */
  predicate AllResolve(inst: Instance, t: Template, us: seq<Update>) {
    forall k :: 0 <= k < |us| ==> Resolve(inst, Some(t), us[k], AutomatedOriginator).Ok?
  }

  lemma {:induction false} NoneRefused(inst: Instance, t: Template, us: seq<Update>)
    requires AllResolve(inst, t, us)
    ensures ValidPrefix(inst, Some(t), us, AutomatedOriginator) == |us|
  {
    if us != [] {
      assert Resolve(inst, Some(t), us[0], AutomatedOriginator).Ok?;
      assert forall k :: 0 <= k < |us[1..]| ==> us[1..][k] == us[k + 1];
      NoneRefused(inst, t, us[1..]);
    }
  }

  /** Each finished check is one `updateAutomatedChecklistItem` call. */
  function CallsFor(id: nat, us: seq<Update>): seq<Action> {
    seq(|us|, k requires 0 <= k < |us| => UpdateItems(id, [us[k]], AutomatedOriginator, None))
  }

  ghost predicate EachOnce(t: Template, order: seq<Slot>) {
    && (forall k :: 0 <= k < |order| ==> SlotIn(t, order[k]) && QueuedSlot(t, order[k]))
    && (forall j, k :: 0 <= j < k < |order| ==> order[j] != order[k])
  }

  /** `order` lists every queued item once. */
  ghost predicate CompletesAll(t: Template, order: seq<Slot>) {
    EachOnce(t, order) && forall slot: Slot :: QueuedSlot(t, slot) ==> slot in order
  }

  /** The queued jobs' items, in any order their checks may finish, are every queued item once. */
  lemma AnyOrderCompletesAll(t: Template, slots: seq<Slot>, order: seq<Slot>)
    requires ListsQueued(t, slots, Slot(|t.sections|, 0)) && multiset(order) == multiset(slots)
    ensures CompletesAll(t, order)
  {
    forall slot: Slot ensures slot in order <==> slot in slots {
      assert slot in multiset(order) <==> slot in multiset(slots);
    }
    forall k | 0 <= k < |order| ensures SlotIn(t, order[k]) && QueuedSlot(t, order[k]) {
      assert order[k] in order;
      var j :| 0 <= j < |slots| && slots[j] == order[k];
      assert QueuedSlot(t, slots[j]);
    }
    forall slot: Slot | QueuedSlot(t, slot) ensures slot in order {
      assert Before(slot, Slot(|t.sections|, 0));
    }
    forall j, k | 0 <= j < k < |order| ensures order[j] != order[k] {
      if order[j] == order[k] {
        Twice(order, j, k);
        OnceEach(slots, order[j]);
      }
    }
  }

  lemma Twice(order: seq<Slot>, j: nat, k: nat)
    requires j < k < |order| && order[j] == order[k]
    ensures multiset(order)[order[j]] >= 2
  {
    assert order == order[..k] + [order[k]] + order[k + 1..];
    assert order[..k][j] in order[..k];
  }

  lemma {:induction false} OnceEach(slots: seq<Slot>, slot: Slot)
    requires forall j, k :: 0 <= j < k < |slots| ==> Before(slots[j], slots[k])
    ensures multiset(slots)[slot] <= 1
  {
    if slots != [] {
      var n := |slots| - 1;
      assert slots == slots[..n] + [slots[n]];
      OnceEach(slots[..n], slot);
      assert forall j :: 0 <= j < n ==> Before(slots[j], slots[n]);
      assert slots[n] !in slots[..n];
    }
  }

  /** What becomes of each item when all checks have reported, whatever the order. */
  function Checked(inst: Instance, t: Template, slot: Slot, data: EventData, results: CheckJob -> CheckResult): Item
    requires HasSlot(inst, slot) && CopyOf(inst, t)
  {
    var item := ItemAt(inst, slot);
    if QueuedSlot(t, slot) then
      var r := results(JobAt(t, slot, data));
      item.(status := r.status, notes := item.notes + r.notes)
    else item
  }

  /** Whether the item is among those that have reported decides what its updates so far amount to. */
  lemma {:induction false} ReportedSoFar(
    inst: Instance, t: Template, order: seq<Slot>, data: EventData, results: CheckJob -> CheckResult, slot: Slot)
    requires DistinctTitles(t) && CopyOf(inst, t) && HasSlot(inst, slot) && EachOnce(t, order)
    ensures ItemAfter(inst, UpdatesFor(t, order, data, results), slot)
         == if slot in order then Checked(inst, t, slot, data, results) else ItemAt(inst, slot)
  {
    if order == [] {
      assert UpdatesFor(t, order, data, results) == [];
    } else {
      var n := |order| - 1;
      var init, last := order[..n], order[n];
      assert order == init + [last];
      ReportedSoFar(inst, t, init, data, results, slot);
      OneMoreReport(inst, t, init, last, data, results, slot);
    }
  }

  lemma OneMoreReport(inst: Instance, t: Template, init: seq<Slot>, last: Slot, data: EventData,
                      results: CheckJob -> CheckResult, slot: Slot)
    requires DistinctTitles(t) && CopyOf(inst, t) && HasSlot(inst, slot) && EachOnce(t, init + [last])
    requires EachOnce(t, init)
    requires ItemAfter(inst, UpdatesFor(t, init, data, results), slot)
          == if slot in init then Checked(inst, t, slot, data, results) else ItemAt(inst, slot)
    ensures ItemAfter(inst, UpdatesFor(t, init + [last], data, results), slot)
         == if slot in init + [last] then Checked(inst, t, slot, data, results) else ItemAt(inst, slot)
  {
    var order := init + [last];
    assert order[|init|] == last;
    var before := UpdatesFor(t, init, data, results);
    var u := UpdateFor(JobAt(t, last, data), results(JobAt(t, last, data)));
    UpdatesSnoc(t, init, last, data, results);
    JobAddressesItsItem(t, inst, last, data, results(JobAt(t, last, data)));
    ItemAfterOneMore(inst, before, u, slot);
    assert Targets(inst, u, slot) <==> slot == last;
    if slot == last {
      assert forall k :: 0 <= k < |init| ==> init[k] == order[k] != order[|init|];
    }
  }

  lemma UpdatesSnoc(t: Template, init: seq<Slot>, last: Slot, data: EventData, results: CheckJob -> CheckResult)
    requires EachOnce(t, init) && EachOnce(t, init + [last])
    ensures QueuedSlot(t, last)
    ensures UpdatesFor(t, init + [last], data, results)
         == UpdatesFor(t, init, data, results) + [UpdateFor(JobAt(t, last, data), results(JobAt(t, last, data)))]
  {
    assert (init + [last])[|init|] == last;
  }

  /**
   Automated checks are order-independent: when every queued check of a template with distinct titles reports to an
   instance of it, in whatever order, no call throws, exactly the queued items change, each by its own result, and the
   instance ends the same.
   */
  lemma {:induction false} ChecksInAnyOrder(
    inst: Instance, t: Template, order: seq<Slot>, data: EventData, results: CheckJob -> CheckResult)
    requires DistinctTitles(t) && CopyOf(inst, t) && CompletesAll(t, order)
    ensures var us := UpdatesFor(t, order, data, results);
            && AllResolve(inst, t, us)
            && ValidPrefix(inst, Some(t), us, AutomatedOriginator) == |us|
            && forall slot: Slot :: HasSlot(inst, slot) ==>
                 ItemAt(After(inst, us), slot) == Checked(inst, t, slot, data, results)
  {
    var us := UpdatesFor(t, order, data, results);
    forall k | 0 <= k < |us| ensures Resolve(inst, Some(t), us[k], AutomatedOriginator).Ok? {
      JobAddressesItsItem(t, inst, order[k], data, results(JobAt(t, order[k], data)));
    }
    NoneRefused(inst, t, us);
    forall slot: Slot | HasSlot(inst, slot)
      ensures ItemAt(After(inst, us), slot) == Checked(inst, t, slot, data, results)
    {
      AfterAt(inst, us, slot);
      ReportedSoFar(inst, t, order, data, results, slot);
    }
  }

  lemma SameItemsAfter(inst: Instance, us: seq<Update>, us': seq<Update>)
    requires forall slot: Slot :: HasSlot(inst, slot) ==> ItemAfter(inst, us, slot) == ItemAfter(inst, us', slot)
    ensures After(inst, us) == After(inst, us')
  {
    forall s | 0 <= s < |inst.sections| ensures SectionAfter(inst, us, s) == SectionAfter(inst, us', s) {
      forall i | 0 <= i < |inst.sections[s].items|
        ensures ItemAfter(inst, us, Slot(s, i)) == ItemAfter(inst, us', Slot(s, i))
      {
        assert HasSlot(inst, Slot(s, i));
      }
      assert SectionAfter(inst, us, s).items == SectionAfter(inst, us', s).items;
    }
    assert After(inst, us).sections == After(inst, us').sections;
  }

  lemma AnyTwoOrdersAgree(
    inst: Instance, t: Template, order: seq<Slot>, order': seq<Slot>, data: EventData, results: CheckJob -> CheckResult)
    requires DistinctTitles(t) && CopyOf(inst, t) && CompletesAll(t, order) && CompletesAll(t, order')
    ensures After(inst, UpdatesFor(t, order, data, results)) == After(inst, UpdatesFor(t, order', data, results))
  {
    var us, us' := UpdatesFor(t, order, data, results), UpdatesFor(t, order', data, results);
    forall slot: Slot | HasSlot(inst, slot) ensures ItemAfter(inst, us, slot) == ItemAfter(inst, us', slot) {
      ReportedSoFar(inst, t, order, data, results, slot);
      ReportedSoFar(inst, t, order', data, results, slot);
      assert QueuedSlot(t, slot) ==> slot in order && slot in order';
      assert !QueuedSlot(t, slot) ==> slot !in order && slot !in order';
    }
    SameItemsAfter(inst, us, us');
  }

  lemma SameShapeResolves(a: Instance, b: Instance, t: Template, us: seq<Update>, from: nat)
    requires SameShape(a, b) && AllResolve(a, t, us) && from <= |us|
    ensures AllResolve(b, t, us[from..])
  {
    forall k | 0 <= k < |us[from..]| ensures Resolve(b, Some(t), us[from..][k], AutomatedOriginator).Ok? {
      assert us[from..][k] == us[from + k];
      SameAddress(a, b, us[from + k]);
    }
  }

  /** The instance after the first of the calls, from which the other calls come to the same as all of them. */
  lemma FirstCall(s: Store, id: nat, t: Template, us: seq<Update>) returns (inst': Instance)
    requires id in s.instances && CopyOf(s.instances[id], t) && us != []
    requires GetByVersion(s.templates, t.kind, t.version) == Some(t)
    requires AllResolve(s.instances[id], t, us)
    ensures UpdateCall(s, id, [us[0]], AutomatedOriginator, None) == s.(instances := s.instances[id := inst'])
    ensures CopyOf(inst', t) && AllResolve(inst', t, us[1..])
    ensures After(inst', us[1..]) == After(s.instances[id], us)
  {
    var inst := s.instances[id];
    inst' := After(inst, [us[0]]);
    assert [us[0]][1..] == [];
    assert ValidPrefix(inst, Some(t), [us[0]], AutomatedOriginator) == 1;
    assert [us[0]][..1] == [us[0]];
    AfterKeepsShape(inst, [us[0]]);
    CopyKeepsShape(inst, inst', t);
    SameShapeResolves(inst, inst', t, us, 1);
    AfterFirst(inst, t, us);
  }

  lemma AfterFirst(inst: Instance, t: Template, us: seq<Update>)
    requires us != [] && AllResolve(inst, t, us)
    ensures After(After(inst, [us[0]]), us[1..]) == After(inst, us)
  {
    forall u | u in us[1..] ensures Address(inst, u).Ok? {
      var k :| 0 <= k < |us[1..]| && us[1..][k] == u;
      assert Resolve(inst, Some(t), us[k + 1], AutomatedOriginator).Ok?;
    }
    AfterInTwo(inst, [us[0]], us[1..]);
    assert [us[0]] + us[1..] == us;
  }

  /** One call per check comes to the same as one call with all the updates. */
  lemma {:induction false} SeparateCalls(s: Store, id: nat, t: Template, us: seq<Update>)
    requires id in s.instances && CopyOf(s.instances[id], t)
    requires GetByVersion(s.templates, t.kind, t.version) == Some(t)
    requires AllResolve(s.instances[id], t, us)
    ensures Exec(s, CallsFor(id, us)) == s.(instances := s.instances[id := After(s.instances[id], us)])
    decreases |us|
  {
    var inst := s.instances[id];
    if us == [] {
      AfterNone(inst);
      assert s.instances[id := inst] == s.instances;
    } else {
      var inst' := FirstCall(s, id, t, us);
      var mid := s.(instances := s.instances[id := inst']);
      CallsUnfold(s, id, us);
      SeparateCalls(mid, id, t, us[1..]);
      MapOverwrite(s.instances, id, inst', After(inst, us));
    }
  }

  /** The checks may report whenever they like: their calls are a run of any store. */
  lemma ReportsAreRuns(s: Store, id: nat, us: seq<Update>)
    ensures ValidRun(s, CallsFor(id, us))
  {
    assert forall a <- CallsFor(id, us) :: a.UpdateItems?;
    CallsAreRuns(s, CallsFor(id, us));
  }

  lemma CallsUnfold(s: Store, id: nat, us: seq<Update>)
    requires us != []
    ensures Exec(s, CallsFor(id, us))
         == Exec(UpdateCall(s, id, [us[0]], AutomatedOriginator, None), CallsFor(id, us[1..]))
  {
    var run := CallsFor(id, us);
    assert run[0] == UpdateItems(id, [us[0]], AutomatedOriginator, None) && run[1..] == CallsFor(id, us[1..]);
  }

  lemma MapOverwrite<K, V>(m: map<K, V>, k: K, a: V, b: V)
    ensures m[k := a][k := b] == m[k := b]
  {
  }

  /** The whole story over the store: all checks of an instance's template report, each in its own call. */
  lemma ChecksEndToEnd(
    s: Store, id: nat, t: Template, order: seq<Slot>, data: EventData, results: CheckJob -> CheckResult)
    requires Inv(s) && id in s.instances
    requires GetByVersion(s.templates, s.instances[id].kind, s.instances[id].version) == Some(t)
    requires DistinctTitles(t) && CompletesAll(t, order)
    ensures var end := Exec(s, CallsFor(id, UpdatesFor(t, order, data, results)));
            && end.templates == s.templates
            && end.instances.Keys == s.instances.Keys
            && (forall other <- s.instances :: other != id ==> end.instances[other] == s.instances[other])
            && forall slot: Slot :: HasSlot(s.instances[id], slot) ==>
                 && HasSlot(end.instances[id], slot)
                 && ItemAt(end.instances[id], slot) == Checked(s.instances[id], t, slot, data, results)
  {
    var inst := s.instances[id];
    var us := UpdatesFor(t, order, data, results);
    ChecksInAnyOrder(inst, t, order, data, results);
    SeparateCalls(s, id, t, us);
    forall slot: Slot { AfterAt(inst, us, slot); }
  }
}
