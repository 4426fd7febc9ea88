/** Versioned checklist templates and the store of instances copied from them, over whole runs. */
module ChecklistTemplates {
  import opened Outcomes
  import opened Checklists

  // ---- queries ----

  /** The position of the latest-created template of the type. */
  function LatestIndex(ts: seq<Template>, kind: ChecklistType): (r: int)
    ensures -1 <= r < |ts|
    ensures r >= 0 ==>
              && ts[r].kind == kind
              && forall j :: 0 <= j < |ts| && ts[j].kind == kind ==> ts[j].createdAt <= ts[r].createdAt
    ensures r == -1 ==> forall j :: 0 <= j < |ts| ==> ts[j].kind != kind
  {
    if ts == [] then -1
    else
      var n := |ts| - 1;
      var r := LatestIndex(ts[..n], kind);
      if ts[n].kind == kind && (r == -1 || ts[r].createdAt < ts[n].createdAt) then n else r
  }

  function GetLatest(ts: seq<Template>, kind: ChecklistType): Option<Template> {
    var r := LatestIndex(ts, kind);
    if r == -1 then None else Some(ts[r])
  }

  /** `findOne` by type and version. */
  function GetByVersion(ts: seq<Template>, kind: ChecklistType, version: nat): Option<Template> {
    if ts == [] then None
    else if ts[0].kind == kind && ts[0].version == version then Some(ts[0])
    else GetByVersion(ts[1..], kind, version)
  }

  function AddTemplate(
    ts: seq<Template>, kind: ChecklistType, sections: seq<TemplateSection>, now: int): seq<Template>
  {
    var latest := GetLatest(ts, kind);
    ts + [Template(kind, if latest == None then 1 else latest.value.version + 1, now, sections)]
  }

  // ---- versions ----

  function CountKind(ts: seq<Template>, kind: ChecklistType): nat {
    if ts == [] then 0
    else CountKind(ts[..|ts| - 1], kind) + if ts[|ts| - 1].kind == kind then 1 else 0
  }

  predicate Increasing(ts: seq<Template>) {
    forall i, j :: 0 <= i < j < |ts| ==> ts[i].createdAt < ts[j].createdAt
  }

  /** Each type's versions are exactly 1, 2, 3, ... in creation order. */
  predicate Numbered(ts: seq<Template>) {
    forall i :: 0 <= i < |ts| ==> ts[i].version == 1 + CountKind(ts[..i], ts[i].kind)
  }

  lemma NumberedInit(ts: seq<Template>)
    requires Increasing(ts) && Numbered(ts) && ts != []
    ensures Increasing(ts[..|ts| - 1]) && Numbered(ts[..|ts| - 1])
  {
    var init := ts[..|ts| - 1];
    forall i | 0 <= i < |init| ensures init[i].version == 1 + CountKind(init[..i], init[i].kind) {
      assert init[..i] == ts[..i];
    }
  }

  /** With increasing creation times the latest template of a type carries the number of its templates. */
  lemma {:induction false} LatestVersion(ts: seq<Template>, kind: ChecklistType)
    requires Increasing(ts) && Numbered(ts)
    ensures GetLatest(ts, kind) == None <==> CountKind(ts, kind) == 0
    ensures GetLatest(ts, kind).Some? ==> GetLatest(ts, kind).value.version == CountKind(ts, kind)
  {
    if ts != [] {
      var init := ts[..|ts| - 1];
      NumberedInit(ts);
      LatestVersion(init, kind);
    }
  }

  lemma AddTemplateKeepsNumbering(ts: seq<Template>, kind: ChecklistType, sections: seq<TemplateSection>, now: int)
    requires Increasing(ts) && Numbered(ts) && forall t <- ts :: t.createdAt < now
    ensures Increasing(AddTemplate(ts, kind, sections, now)) && Numbered(AddTemplate(ts, kind, sections, now))
  {
    LatestVersion(ts, kind);
    var us := AddTemplate(ts, kind, sections, now);
    forall i | 0 <= i < |us| ensures us[i].version == 1 + CountKind(us[..i], us[i].kind) {
      if i < |ts| {
        assert us[..i] == ts[..i];
      } else {
        assert us[..i] == ts;
      }
    }
  }

  lemma {:induction false} CountKindMonotone(ts: seq<Template>, i: nat, j: nat, kind: ChecklistType)
    requires i <= j <= |ts|
    ensures CountKind(ts[..i], kind) <= CountKind(ts[..j], kind)
    ensures i < j && ts[i].kind == kind ==> CountKind(ts[..i], kind) < CountKind(ts[..j], kind)
  {
    if i < j {
      assert ts[..j][..j - 1] == ts[..j - 1];
      CountKindMonotone(ts, i, j - 1, kind);
    }
  }

  /** A version number names one template of its type. */
  lemma VersionsDistinct(ts: seq<Template>, i: nat, j: nat)
    requires Numbered(ts) && i < j < |ts| && ts[i].kind == ts[j].kind
    ensures ts[i].version < ts[j].version
  {
    CountKindMonotone(ts, i, j, ts[i].kind);
  }

  lemma {:induction false} FirstByVersion(ts: seq<Template>, i: nat)
    requires i < |ts|
    requires forall j :: 0 <= j < i ==> !(ts[j].kind == ts[i].kind && ts[j].version == ts[i].version)
    ensures GetByVersion(ts, ts[i].kind, ts[i].version) == Some(ts[i])
  {
    if i > 0 {
      FirstByVersion(ts[1..], i - 1);
    }
  }

  /** So looking a template up by its type and version always finds that template. */
  lemma GetByVersionFinds(ts: seq<Template>, i: nat)
    requires Numbered(ts) && i < |ts|
    ensures GetByVersion(ts, ts[i].kind, ts[i].version) == Some(ts[i])
  {
    forall j | 0 <= j < i ensures !(ts[j].kind == ts[i].kind && ts[j].version == ts[i].version) {
      if ts[j].kind == ts[i].kind {
        VersionsDistinct(ts, j, i);
      }
    }
    FirstByVersion(ts, i);
  }

  lemma {:induction false} GetByVersionAppend(ts: seq<Template>, t: Template, kind: ChecklistType, version: nat)
    requires GetByVersion(ts, kind, version).Some?
    ensures GetByVersion(ts + [t], kind, version) == GetByVersion(ts, kind, version)
  {
    assert (ts + [t])[0] == ts[0] && (ts + [t])[1..] == ts[1..] + [t];
    if !(ts[0].kind == kind && ts[0].version == version) {
      GetByVersionAppend(ts[1..], t, kind, version);
    }
  }

  // ---- instances ----

  function NewSection(section: TemplateSection): Section {
    Section(section.title,
            seq(|section.items|, i requires 0 <= i < |section.items| =>
              Item(section.items[i].title, NotStarted, section.items[i].checkType, [])))
  }

  function NewInstance(t: Template): Instance {
    Instance(t.kind, t.version, seq(|t.sections|, s requires 0 <= s < |t.sections| => NewSection(t.sections[s])))
  }

  /** The instance has the template's type, version, titles, order and check types. */
  predicate CopyOf(inst: Instance, t: Template) {
    && inst.kind == t.kind && inst.version == t.version
    && |inst.sections| == |t.sections|
    && forall s :: 0 <= s < |t.sections| ==>
         && inst.sections[s].title == t.sections[s].title
         && |inst.sections[s].items| == |t.sections[s].items|
         && forall i :: 0 <= i < |t.sections[s].items| ==>
              && inst.sections[s].items[i].title == t.sections[s].items[i].title
              && inst.sections[s].items[i].checkType == t.sections[s].items[i].checkType
  }

  lemma NewInstanceIsCopy(t: Template)
    ensures CopyOf(NewInstance(t), t)
  {
    forall s | 0 <= s < |t.sections| ensures NewInstance(t).sections[s] == NewSection(t.sections[s]) {}
  }

  lemma CopyKeepsShape(a: Instance, b: Instance, t: Template)
    requires CopyOf(a, t) && SameShape(a, b)
    ensures CopyOf(b, t)
  {
  }

  /** First match by title finds the same position, and so the same check type, in a template and in its copies. */
  lemma CopyResolves(inst: Instance, t: Template, u: Update)
    requires CopyOf(inst, t)
    ensures Address(inst, u).Ok? <==> TemplateCheckType(Some(t), u).Ok?
    ensures Address(inst, u).Ok? ==>
              TemplateCheckType(Some(t), u).value == ItemAt(inst, Address(inst, u).value).checkType
  {
    assert SectionTitles(inst) == TemplateSectionTitles(t);
    var s := IndexOf(SectionTitles(inst), u.sectionTitle);
    if s != -1 {
      assert ItemTitles(inst.sections[s]) == TemplateItemTitles(t.sections[s]);
    }
  }

  // ---- runs ----

  datatype Store = Store(templates: seq<Template>, instances: map<nat, Instance>)

  datatype Action =
    | CreateTemplate(kind: ChecklistType, sections: seq<TemplateSection>, now: int)
    | CreateInstance(id: nat, kind: ChecklistType)
    | UpdateItems(id: nat, updates: seq<Update>, originator: Originator, survives: Option<nat>)

  /** Creation times strictly increase and new instances get fresh ids. */
  predicate Enabled(s: Store, a: Action) {
    match a
    case CreateTemplate(_, _, now) => forall t <- s.templates :: t.createdAt < now
    case CreateInstance(id, _) => id !in s.instances
    case UpdateItems(_, _, _, _) => true
  }

  /** The updates a call applies: those before the first refused one, as far as it gets if it dies. */
  function Applied(
    s: Store, inst: Instance, updates: seq<Update>, originator: Originator, survives: Option<nat>): seq<Update>
  {
    var k := ValidPrefix(inst, GetByVersion(s.templates, inst.kind, inst.version), updates, originator);
    if survives == None then updates[..k] else FirstWrites(updates[..k], survives.value)
  }

  /** A call that dies tries no write after `survives` ones. */
  function UpdateCall(
    s: Store, id: nat, updates: seq<Update>, originator: Originator, survives: Option<nat>): Store
  {
    if id !in s.instances then s
    else
      var inst := s.instances[id];
      s.(instances := s.instances[id := After(inst, Applied(s, inst, updates, originator, survives))])
  }

  /** Calls that throw leave what they had written; a call on a missing instance or template leaves everything. */
  function Apply(s: Store, a: Action): Store {
    match a
    case CreateTemplate(kind, sections, now) => s.(templates := AddTemplate(s.templates, kind, sections, now))
    case CreateInstance(id, kind) =>
      var latest := GetLatest(s.templates, kind);
      if latest == None then s else s.(instances := s.instances[id := NewInstance(latest.value)])
    case UpdateItems(id, us, o, n) => UpdateCall(s, id, us, o, n)
  }

  predicate ValidRun(s: Store, run: seq<Action>)
    decreases run
  {
    run == [] || (Enabled(s, run[0]) && ValidRun(Apply(s, run[0]), run[1..]))
  }

  function Exec(s: Store, run: seq<Action>): Store
    decreases run
  {
    if run == [] then s else Exec(Apply(s, run[0]), run[1..])
  }

  /** Each instance resolves to a template it is a copy of. */
  predicate InstancesOk(s: Store) {
    forall id <- s.instances ::
      var inst := s.instances[id];
      var t := GetByVersion(s.templates, inst.kind, inst.version);
      t.Some? && CopyOf(inst, t.value)
  }

  predicate Inv(s: Store) {
    Increasing(s.templates) && Numbered(s.templates) && InstancesOk(s)
  }

  /** No instance of `s` goes away, changes its shape or comes to resolve to another template. */
  predicate InstancesPersist(s: Store, t: Store) {
    forall id <- s.instances ::
      var inst := s.instances[id];
      && id in t.instances
      && SameShape(inst, t.instances[id])
      && GetByVersion(t.templates, inst.kind, inst.version) == GetByVersion(s.templates, inst.kind, inst.version)
  }

  lemma {:induction false} InvStep(s: Store, a: Action)
    requires Inv(s) && Enabled(s, a)
    ensures Inv(Apply(s, a)) && InstancesPersist(s, Apply(s, a))
  {
    match a {
      case CreateTemplate(_, _, _) => CreateTemplateStep(s, a);
      case CreateInstance(_, kind) =>
        if GetLatest(s.templates, kind).Some? {
          GetByVersionFinds(s.templates, LatestIndex(s.templates, kind));
          NewInstanceIsCopy(GetLatest(s.templates, kind).value);
        }
      case UpdateItems(id, us, o, n) =>
        if id in s.instances {
          UpdateItemsStep(s, id, us, o, n);
        }
    }
  }

  lemma CreateTemplateStep(s: Store, a: Action)
    requires Inv(s) && Enabled(s, a) && a.CreateTemplate?
    ensures Inv(Apply(s, a)) && InstancesPersist(s, Apply(s, a))
  {
    AddTemplateKeepsNumbering(s.templates, a.kind, a.sections, a.now);
    var added := Apply(s, a).templates[|s.templates|];
    forall id | id in s.instances
      ensures var inst := s.instances[id];
              GetByVersion(Apply(s, a).templates, inst.kind, inst.version)
              == GetByVersion(s.templates, inst.kind, inst.version)
    {
      var inst := s.instances[id];
      GetByVersionAppend(s.templates, added, inst.kind, inst.version);
    }
  }

  lemma UpdateItemsStep(s: Store, id: nat, us: seq<Update>, o: Originator, n: Option<nat>)
    requires Inv(s) && id in s.instances
    ensures Inv(UpdateCall(s, id, us, o, n)) && InstancesPersist(s, UpdateCall(s, id, us, o, n))
  {
    var inst := s.instances[id];
    var t := GetByVersion(s.templates, inst.kind, inst.version).value;
    var ws := Applied(s, inst, us, o, n);
    var inst' := After(inst, ws);
    AfterKeepsShape(inst, ws);
    CopyKeepsShape(inst, inst', t);
    assert UpdateCall(s, id, us, o, n) == s.(instances := s.instances[id := inst']);
  }

  lemma SameShapeTransitive(a: Instance, b: Instance, c: Instance)
    requires SameShape(a, b) && SameShape(b, c)
    ensures SameShape(a, c)
  {
  }

  /**
   Over every run, failing calls included: versions stay exactly 1..n per type in creation order; no instance's titles,
   order or check types ever change; and an instance resolves, after any later creations, to the same template, the
   one it is a copy of.
   */
  lemma {:induction false} InstancesKeepTheirTemplate(s: Store, run: seq<Action>, id: nat)
    requires Inv(s) && ValidRun(s, run) && id in s.instances
    ensures var t := Exec(s, run);
            var inst := s.instances[id];
            && Inv(t) && id in t.instances && SameShape(inst, t.instances[id])
            && GetByVersion(t.templates, inst.kind, inst.version) == GetByVersion(s.templates, inst.kind, inst.version)
    decreases run
  {
    if run != [] {
      var mid := Apply(s, run[0]);
      InvStep(s, run[0]);
      InstancesKeepTheirTemplate(mid, run[1..], id);
      SameShapeTransitive(s.instances[id], mid.instances[id], Exec(s, run).instances[id]);
    }
  }

  lemma {:induction false} InvAlways(s: Store, run: seq<Action>)
    requires Inv(s) && ValidRun(s, run)
    ensures Inv(Exec(s, run))
    decreases run
  {
    if run != [] {
      InvStep(s, run[0]);
      InvAlways(Apply(s, run[0]), run[1..]);
    }
  }

  /** From the empty store: the versions of a type are 1..n in creation order, and each finds its own template. */
  lemma VersionsNumberTheTemplates(run: seq<Action>, i: nat)
    requires ValidRun(Store([], map[]), run) && i < |Exec(Store([], map[]), run).templates|
    ensures var ts := Exec(Store([], map[]), run).templates;
            && ts[i].version == 1 + CountKind(ts[..i], ts[i].kind)
            && GetByVersion(ts, ts[i].kind, ts[i].version) == Some(ts[i])
            && (GetLatest(ts, ts[i].kind).Some? && GetLatest(ts, ts[i].kind).value.version == CountKind(ts, ts[i].kind))
  {
    InvAlways(Store([], map[]), run);
    var ts := Exec(Store([], map[]), run).templates;
    GetByVersionFinds(ts, i);
    LatestVersion(ts, ts[i].kind);
  }

  // ---- who may change what ----

  predicate Prefix(a: seq<Note>, b: seq<Note>) {
    |a| <= |b| && a == b[..|a|]
  }

  /** A call changes only items of the check type its originator may update, and it only appends notes. */
  lemma CallStep(s: Store, a: Action, id: nat, slot: Slot)
    requires Inv(s) && Enabled(s, a) && id in s.instances && HasSlot(s.instances[id], slot)
    ensures var t := Apply(s, a);
            && id in t.instances && HasSlot(t.instances[id], slot)
            && Prefix(ItemAt(s.instances[id], slot).notes, ItemAt(t.instances[id], slot).notes)
            && ItemAt(t.instances[id], slot).checkType == ItemAt(s.instances[id], slot).checkType
            && (ItemAt(t.instances[id], slot) != ItemAt(s.instances[id], slot) ==>
                  && a.UpdateItems? && a.id == id
                  && (ItemAt(s.instances[id], slot).checkType == Manual <==> a.originator == ManualOriginator))
  {
    if a.UpdateItems? && a.id == id {
      var inst := s.instances[id];
      var t := GetByVersion(s.templates, inst.kind, inst.version).value;
      var ws := Applied(s, inst, a.updates, a.originator, a.survives);
      AfterAt(inst, ws, slot);
      WhoMayUpdate(ItemAt(inst, slot).checkType, a.originator);
      if !MayUpdate(ItemAt(inst, slot).checkType, a.originator) {
        NoneTargets(s, inst, t, a, slot);
        UntargetedItem(inst, ws, slot, ItemAt(inst, slot).status);
      }
    }
  }

  lemma NoneTargets(s: Store, inst: Instance, t: Template, a: Action, slot: Slot)
    requires a.UpdateItems? && CopyOf(inst, t) && GetByVersion(s.templates, inst.kind, inst.version) == Some(t)
    requires HasSlot(inst, slot) && !MayUpdate(ItemAt(inst, slot).checkType, a.originator)
    ensures forall w <- Applied(s, inst, a.updates, a.originator, a.survives) :: !Targets(inst, w, slot)
  {
    forall w | w in Applied(s, inst, a.updates, a.originator, a.survives) ensures !Targets(inst, w, slot) {
      var j := AppliedFrom(s, inst, a, w);
      ValidPrefixAt(inst, Some(t), a.updates, a.originator, j);
      CopyResolves(inst, t, a.updates[j]);
      assert Address(inst, w) == Address(inst, a.updates[j]);
    }
  }

  /** What a call applies addresses what one of its updates that are not refused does. */
  lemma AppliedFrom(s: Store, inst: Instance, a: Action, w: Update) returns (j: nat)
    requires a.UpdateItems? && w in Applied(s, inst, a.updates, a.originator, a.survives)
    ensures j < ValidPrefix(inst, GetByVersion(s.templates, inst.kind, inst.version), a.updates, a.originator)
    ensures w.sectionTitle == a.updates[j].sectionTitle && w.itemTitle == a.updates[j].itemTitle
  {
    var k := ValidPrefix(inst, GetByVersion(s.templates, inst.kind, inst.version), a.updates, a.originator);
    var us := a.updates[..k];
    if a.survives == None {
      j :| 0 <= j < |us| && us[j] == w;
    } else {
      FirstWritesFrom(us, a.survives.value, w);
      j :| 0 <= j < |us| && w.sectionTitle == us[j].sectionTitle && w.itemTitle == us[j].itemTitle;
    }
  }

  lemma {:induction false} UntargetedItem(inst: Instance, us: seq<Update>, slot: Slot, status: ItemStatus)
    requires forall u <- us :: !Targets(inst, u, slot)
    ensures StatusAfter(inst, us, slot, status) == status && NotesFor(inst, us, slot) == []
  {
    if us != [] {
      assert us[|us| - 1] in us;
      UntargetedItem(inst, us[..|us| - 1], slot, status);
    }
  }

  /** Some call of the run on this instance comes from the originator. */
  predicate CalledBy(run: seq<Action>, id: nat, originator: Originator) {
    exists a <- run :: a.UpdateItems? && a.id == id && a.originator == originator
  }

  /**
   Over every run notes are append-only, and an item changes only if some call on its instance came from the
   originator of its check type: MANUAL items only by MANUAL calls, AUTOMATED items only by AUTOMATED calls.
   */
  lemma {:induction false} ItemsOverRuns(s: Store, run: seq<Action>, id: nat, slot: Slot)
    requires Inv(s) && ValidRun(s, run) && id in s.instances && HasSlot(s.instances[id], slot)
    ensures var t := Exec(s, run);
            && id in t.instances && HasSlot(t.instances[id], slot)
            && Prefix(ItemAt(s.instances[id], slot).notes, ItemAt(t.instances[id], slot).notes)
            && (ItemAt(t.instances[id], slot) != ItemAt(s.instances[id], slot) ==>
                  match ItemAt(s.instances[id], slot).checkType
                  case Manual => CalledBy(run, id, ManualOriginator)
                  case Automated => CalledBy(run, id, AutomatedOriginator))
    decreases run
  {
    if run != [] {
      InvStep(s, run[0]);
      CallStep(s, run[0], id, slot);
      ItemsOverRuns(Apply(s, run[0]), run[1..], id, slot);
      CalledByFirstOrRest(run, id, ManualOriginator);
      CalledByFirstOrRest(run, id, AutomatedOriginator);
    }
  }

  lemma CalledByFirstOrRest(run: seq<Action>, id: nat, originator: Originator)
    requires run != []
    ensures CalledBy(run, id, originator)
       <==> || (run[0].UpdateItems? && run[0].id == id && run[0].originator == originator)
            || CalledBy(run[1..], id, originator)
  {
    assert run == [run[0]] + run[1..];
  }

  // ---- which calls succeed ----

  /** How an update of an instance is resolved, in terms of the instance alone: by title, and then by check type. */
  lemma ResolveOnCopy(inst: Instance, t: Template, u: Update, originator: Originator)
    requires CopyOf(inst, t)
    ensures var r := Resolve(inst, Some(t), u, originator);
            var s := IndexOf(SectionTitles(inst), u.sectionTitle);
            && (r == Err(SectionNotFound) <==> u.sectionTitle !in SectionTitles(inst))
            && (r == Err(ItemNotFound) <==> s >= 0 && u.itemTitle !in ItemTitles(inst.sections[s]))
            && (s >= 0 && u.itemTitle in ItemTitles(inst.sections[s]) ==>
                  var slot := Slot(s, IndexOf(ItemTitles(inst.sections[s]), u.itemTitle));
                  r == if ItemAt(inst, slot).checkType == Manual <==> originator == ManualOriginator
                       then Ok(slot) else Err(Forbidden))
  {
    CopyResolves(inst, t, u);
    var s := IndexOf(SectionTitles(inst), u.sectionTitle);
    IndexOfFirst(SectionTitles(inst), u.sectionTitle);
    if s >= 0 {
      IndexOfFirst(ItemTitles(inst.sections[s]), u.itemTitle);
    }
  }

  /** A template that is gone, or lacks the item, is reported once the instance's own titles are found. */
  lemma ResolveWithoutTemplate(inst: Instance, template: Option<Template>, u: Update, originator: Originator)
    requires Address(inst, u).Ok?
    ensures template == None ==> Resolve(inst, template, u, originator) == Err(TemplateMissing)
    ensures template.Some? ==>
              var s := IndexOf(TemplateSectionTitles(template.value), u.sectionTitle);
              s == -1 || u.itemTitle !in TemplateItemTitles(template.value.sections[s]) ==>
                Resolve(inst, template, u, originator) == Err(TemplateItemNotFound)
  {
    if template.Some? {
      var s := IndexOf(TemplateSectionTitles(template.value), u.sectionTitle);
      if s != -1 {
        IndexOfFirst(TemplateItemTitles(template.value.sections[s]), u.itemTitle);
      }
    }
  }

  /** Update calls may come at any time, on any instance and with any updates. */
  lemma {:induction false} CallsAreRuns(s: Store, calls: seq<Action>)
    requires forall a <- calls :: a.UpdateItems?
    ensures ValidRun(s, calls)
    decreases calls
  {
    if calls != [] {
      assert calls[0] in calls;
      CallsAreRuns(Apply(s, calls[0]), calls[1..]);
    }
  }

  /** The update addresses an item of the originator's own check type. */
  predicate AddressesOwnItem(inst: Instance, u: Update, originator: Originator) {
    var slot := Address(inst, u);
    slot.Ok? && (ItemAt(inst, slot.value).checkType == Manual <==> originator == ManualOriginator)
  }

  /** A call that does not die succeeds if and only if each update addresses an item of its originator's check type. */
  lemma CallSucceedsExactlyWhen(s: Store, id: nat, us: seq<Update>, originator: Originator)
    requires Inv(s) && id in s.instances
    ensures var inst := s.instances[id];
            ValidPrefix(inst, GetByVersion(s.templates, inst.kind, inst.version), us, originator) == |us|
            <==> forall u <- us :: AddressesOwnItem(inst, u, originator)
  {
    var inst := s.instances[id];
    AllValid(inst, GetByVersion(s.templates, inst.kind, inst.version).value, us, originator);
  }

  lemma {:induction false} AllValid(inst: Instance, t: Template, us: seq<Update>, originator: Originator)
    requires CopyOf(inst, t)
    ensures ValidPrefix(inst, Some(t), us, originator) == |us|
       <==> forall u <- us :: AddressesOwnItem(inst, u, originator)
  {
    if us != [] {
      CopyResolves(inst, t, us[0]);
      assert Resolve(inst, Some(t), us[0], originator).Ok? <==> AddressesOwnItem(inst, us[0], originator);
      AllValid(inst, t, us[1..], originator);
    }
  }
}
