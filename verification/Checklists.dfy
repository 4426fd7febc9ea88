/**
 Due-diligence checklists: versioned templates, the instances copied from them, and what a list of item updates means
 for each item on its own.
 */
module Checklists {
  import opened Outcomes

  datatype ChecklistType = Onboarding | DealProcessing

  datatype CheckType = Manual | Automated

  datatype Originator = ManualOriginator | AutomatedOriginator

  datatype ItemStatus = NotStarted | InProgress | Satisfactory | Adverse | Critical

  /** `createdAt` is the time at which the note is stored. */
  datatype Note = Note(text: string, user: string, createdAt: int)

  /** `settings` stands for what a check is given beside its number of attempts. */
  datatype CheckConfig = CheckConfig(retryAttempts: nat, settings: string)

  datatype TemplateItem = TemplateItem(
    title: string,
    checkType: CheckType,
    eventType: string,
    checkConfig: Option<CheckConfig>)

  datatype TemplateSection = TemplateSection(title: string, items: seq<TemplateItem>)

  datatype Template = Template(kind: ChecklistType, version: nat, createdAt: int, sections: seq<TemplateSection>)

  datatype Item = Item(title: string, status: ItemStatus, checkType: CheckType, notes: seq<Note>)

  datatype Section = Section(title: string, items: seq<Item>)

  datatype Instance = Instance(kind: ChecklistType, version: nat, sections: seq<Section>)

  /** An absent list of notes is the empty list. */
  datatype Update = Update(sectionTitle: string, itemTitle: string, status: Option<ItemStatus>, notes: seq<Note>)

  datatype UpdateError =
    | InstanceNotFound | SectionNotFound | ItemNotFound | TemplateMissing | TemplateItemNotFound | Forbidden | Died

  // ---- first match by title ----

  /** `findIndex` by title. */
  function IndexOf(titles: seq<string>, title: string): (r: int)
    ensures -1 <= r < |titles|
  {
    if titles == [] then -1
    else if titles[0] == title then 0
    else
      var r := IndexOf(titles[1..], title);
      if r == -1 then -1 else r + 1
  }

  lemma {:induction false} IndexOfFirst(titles: seq<string>, title: string)
    ensures var r := IndexOf(titles, title);
            && (r == -1 <==> title !in titles)
            && (r >= 0 ==> titles[r] == title && forall j :: 0 <= j < r ==> titles[j] != title)
  {
    if titles != [] && titles[0] != title {
      IndexOfFirst(titles[1..], title);
    }
  }

  predicate NoDuplicates(titles: seq<string>) {
    forall i, j :: 0 <= i < j < |titles| ==> titles[i] != titles[j]
  }

  /** Titles are distinct exactly when looking up each one finds it where it stands. */
  lemma DistinctExactlyWhenFound(titles: seq<string>)
    ensures NoDuplicates(titles) <==> forall i :: 0 <= i < |titles| ==> IndexOf(titles, titles[i]) == i
  {
    forall i | 0 <= i < |titles| {
      IndexOfFirst(titles, titles[i]);
    }
    if forall i :: 0 <= i < |titles| ==> IndexOf(titles, titles[i]) == i {
      forall i, j | 0 <= i < j < |titles| ensures titles[i] != titles[j] {
        assert IndexOf(titles, titles[i]) == i && IndexOf(titles, titles[j]) == j;
      }
    }
  }

  function SectionTitles(inst: Instance): seq<string> {
    seq(|inst.sections|, s requires 0 <= s < |inst.sections| => inst.sections[s].title)
  }

  function ItemTitles(section: Section): seq<string> {
    seq(|section.items|, i requires 0 <= i < |section.items| => section.items[i].title)
  }

  function TemplateSectionTitles(t: Template): seq<string> {
    seq(|t.sections|, s requires 0 <= s < |t.sections| => t.sections[s].title)
  }

  function TemplateItemTitles(section: TemplateSection): seq<string> {
    seq(|section.items|, i requires 0 <= i < |section.items| => section.items[i].title)
  }

  // ---- resolving an update ----

  datatype Slot = Slot(section: nat, item: nat)

  predicate HasSlot(inst: Instance, slot: Slot) {
    slot.section < |inst.sections| && slot.item < |inst.sections[slot.section].items|
  }

  function ItemAt(inst: Instance, slot: Slot): Item
    requires HasSlot(inst, slot)
  {
    inst.sections[slot.section].items[slot.item]
  }

  /** The item an update addresses: the first with the title in the first section with the section's title. */
  function Address(inst: Instance, u: Update): (r: Result<Slot, UpdateError>)
    ensures r.Ok? ==> HasSlot(inst, r.value)
  {
    var s := IndexOf(SectionTitles(inst), u.sectionTitle);
    if s == -1 then Err(SectionNotFound)
    else
      var i := IndexOf(ItemTitles(inst.sections[s]), u.itemTitle);
      if i == -1 then Err(ItemNotFound) else Ok(Slot(s, i))
  }

  function TemplateCheckType(template: Option<Template>, u: Update): Result<CheckType, UpdateError> {
    if template == None then Err(TemplateMissing)
    else
      var t := template.value;
      var s := IndexOf(TemplateSectionTitles(t), u.sectionTitle);
      if s == -1 then Err(TemplateItemNotFound)
      else
        var i := IndexOf(TemplateItemTitles(t.sections[s]), u.itemTitle);
        if i == -1 then Err(TemplateItemNotFound) else Ok(t.sections[s].items[i].checkType)
  }

  /** `validateUpdateOriginator` lets an update through. */
  predicate MayUpdate(checkType: CheckType, originator: Originator) {
    !(checkType == Manual && originator != ManualOriginator)
    && !(checkType == Automated && originator != AutomatedOriginator)
  }

  /** MANUAL items are for MANUAL calls and for those alone, AUTOMATED items for AUTOMATED calls. */
  lemma WhoMayUpdate(checkType: CheckType, originator: Originator)
    ensures MayUpdate(checkType, originator) <==> (checkType == Manual <==> originator == ManualOriginator)
  {
  }

  /** The item an update will be applied to, or why it is refused. */
  function Resolve(
    inst: Instance, template: Option<Template>, u: Update, originator: Originator): (r: Result<Slot, UpdateError>)
    ensures r.Ok? ==> HasSlot(inst, r.value)
  {
    var slot := Address(inst, u);
    if slot.Err? then slot
    else
      var checkType := TemplateCheckType(template, u);
      if checkType.Err? then Err(checkType.error)
      else if !MayUpdate(checkType.value, originator) then Err(Forbidden)
      else slot
  }

  /** The number of updates before the first refused one. */
  function ValidPrefix(inst: Instance, template: Option<Template>, us: seq<Update>, originator: Originator): (k: nat)
    ensures k <= |us|
  {
    if us == [] || Resolve(inst, template, us[0], originator).Err? then 0
    else 1 + ValidPrefix(inst, template, us[1..], originator)
  }

  /** It is the first position that is refused, if any is. */
  lemma {:induction false} ValidPrefixAt(
    inst: Instance, template: Option<Template>, us: seq<Update>, originator: Originator, j: nat)
    requires j < |us| && j <= ValidPrefix(inst, template, us, originator)
    ensures Resolve(inst, template, us[j], originator).Ok? <==> j < ValidPrefix(inst, template, us, originator)
  {
    if j > 0 {
      ValidPrefixAt(inst, template, us[1..], originator, j - 1);
    }
  }

  // ---- what a list of updates means for one item ----

  predicate Targets(inst: Instance, u: Update, slot: Slot) {
    Address(inst, u) == Ok(slot)
  }

  /** The last status any of the updates sets on the item, or its old one. */
  function StatusAfter(inst: Instance, us: seq<Update>, slot: Slot, before: ItemStatus): ItemStatus {
    if us == [] then before
    else
      var u := us[|us| - 1];
      if Targets(inst, u, slot) && u.status.Some? then u.status.value
      else StatusAfter(inst, us[..|us| - 1], slot, before)
  }

  /** All notes the updates have for the item, in order. */
  function NotesFor(inst: Instance, us: seq<Update>, slot: Slot): seq<Note> {
    if us == [] then []
    else
      var u := us[|us| - 1];
      NotesFor(inst, us[..|us| - 1], slot) + if Targets(inst, u, slot) then u.notes else []
  }

  function ItemAfter(inst: Instance, us: seq<Update>, slot: Slot): Item
    requires HasSlot(inst, slot)
  {
    var item := ItemAt(inst, slot);
    item.(status := StatusAfter(inst, us, slot, item.status), notes := item.notes + NotesFor(inst, us, slot))
  }

  function SectionAfter(inst: Instance, us: seq<Update>, s: nat): Section
    requires s < |inst.sections|
  {
    var section := inst.sections[s];
    section.(items := seq(|section.items|, i requires 0 <= i < |section.items| => ItemAfter(inst, us, Slot(s, i))))
  }

  /** The instance with every item as the updates leave it. */
  function After(inst: Instance, us: seq<Update>): Instance {
    inst.(sections := seq(|inst.sections|, s requires 0 <= s < |inst.sections| => SectionAfter(inst, us, s)))
  }

  lemma AfterAt(inst: Instance, us: seq<Update>, slot: Slot)
    ensures HasSlot(After(inst, us), slot) <==> HasSlot(inst, slot)
    ensures HasSlot(inst, slot) ==> ItemAt(After(inst, us), slot) == ItemAfter(inst, us, slot)
  {
  }

  lemma AfterNone(inst: Instance)
    ensures After(inst, []) == inst
  {
    forall s | 0 <= s < |inst.sections| ensures SectionAfter(inst, [], s) == inst.sections[s] {
      forall i | 0 <= i < |inst.sections[s].items|
        ensures ItemAfter(inst, [], Slot(s, i)) == inst.sections[s].items[i]
      {
      }
      assert SectionAfter(inst, [], s).items == inst.sections[s].items;
    }
    assert After(inst, []).sections == inst.sections;
  }

  // ---- single writes ----

  /** `$set` of one item's status. */
  function WithStatus(inst: Instance, slot: Slot, status: ItemStatus): Instance
    requires HasSlot(inst, slot)
  {
    WithItem(inst, slot, ItemAt(inst, slot).(status := status))
  }

  /** `$push` of one note. */
  function WithNote(inst: Instance, slot: Slot, note: Note): Instance
    requires HasSlot(inst, slot)
  {
    var item := ItemAt(inst, slot);
    WithItem(inst, slot, item.(notes := item.notes + [note]))
  }

  function WithItem(inst: Instance, slot: Slot, item: Item): Instance
    requires HasSlot(inst, slot)
  {
    var section := inst.sections[slot.section];
    inst.(sections := inst.sections[slot.section := section.(items := section.items[slot.item := item])])
  }

  lemma WithItemLaws(inst: Instance, slot: Slot, a: Item, b: Item)
    requires HasSlot(inst, slot)
    ensures HasSlot(WithItem(inst, slot, a), slot) && ItemAt(WithItem(inst, slot, a), slot) == a
    ensures WithItem(WithItem(inst, slot, a), slot, b) == WithItem(inst, slot, b)
    ensures WithItem(inst, slot, ItemAt(inst, slot)) == inst
  {
    var section := inst.sections[slot.section];
    assert section.items[slot.item := ItemAt(inst, slot)] == section.items;
    assert inst.sections[slot.section := section] == inst.sections;
    assert section.items[slot.item := a][slot.item := b] == section.items[slot.item := b];
    assert WithItem(WithItem(inst, slot, a), slot, b).sections == WithItem(inst, slot, b).sections;
  }

  /** The last of a list of updates changes only the item it targets, by its status and its notes. */
  lemma AfterOneMore(inst: Instance, us: seq<Update>, u: Update, slot: Slot)
    requires Targets(inst, u, slot)
    ensures HasSlot(After(inst, us), slot)
    ensures var item := ItemAt(After(inst, us), slot);
            After(inst, us + [u])
            == WithItem(After(inst, us), slot,
                        item.(status := if u.status.Some? then u.status.value else item.status,
                              notes := item.notes + u.notes))
  {
    var vs := us + [u];
    assert vs[..|vs| - 1] == us;
    AfterAt(inst, us, slot);
    var item := ItemAt(After(inst, us), slot);
    var item' := item.(status := if u.status.Some? then u.status.value else item.status, notes := item.notes + u.notes);
    var expected := WithItem(After(inst, us), slot, item');
    forall s | 0 <= s < |inst.sections| ensures SectionAfter(inst, vs, s) == expected.sections[s] {
      forall i | 0 <= i < |inst.sections[s].items|
        ensures ItemAfter(inst, vs, Slot(s, i)) == expected.sections[s].items[i]
      {
        ItemAfterOneMore(inst, us, u, Slot(s, i));
        assert Targets(inst, u, Slot(s, i)) <==> Slot(s, i) == slot;
      }
      assert SectionAfter(inst, vs, s).items == expected.sections[s].items;
    }
    assert After(inst, vs).sections == expected.sections;
  }

  lemma ItemAfterOneMore(inst: Instance, us: seq<Update>, u: Update, slot: Slot)
    requires HasSlot(inst, slot)
    ensures var item := ItemAfter(inst, us, slot);
            ItemAfter(inst, us + [u], slot)
            == if Targets(inst, u, slot)
               then item.(status := if u.status.Some? then u.status.value else item.status,
                          notes := item.notes + u.notes)
               else item
  {
    var vs := us + [u];
    assert vs[|vs| - 1] == u && vs[..|vs| - 1] == us;
    var item := ItemAt(inst, slot);
    assert StatusAfter(inst, vs, slot, item.status)
        == if Targets(inst, u, slot) && u.status.Some? then u.status.value
           else StatusAfter(inst, us, slot, item.status);
    assert NotesFor(inst, vs, slot) == NotesFor(inst, us, slot) + if Targets(inst, u, slot) then u.notes else [];
    Regroup(item.notes, NotesFor(inst, us, slot), u.notes);
  }

  // ---- shape ----

  /** Titles, order and check types. */
  predicate SameShape(a: Instance, b: Instance) {
    && a.kind == b.kind && a.version == b.version
    && |a.sections| == |b.sections|
    && forall s :: 0 <= s < |a.sections| ==>
         && a.sections[s].title == b.sections[s].title
         && |a.sections[s].items| == |b.sections[s].items|
         && forall i :: 0 <= i < |a.sections[s].items| ==>
              && a.sections[s].items[i].title == b.sections[s].items[i].title
              && a.sections[s].items[i].checkType == b.sections[s].items[i].checkType
  }

  /** Updates never change the shape, so an update addresses the same item before and after any others. */
  lemma SameAddress(a: Instance, b: Instance, u: Update)
    requires SameShape(a, b)
    ensures Address(a, u) == Address(b, u)
  {
    assert SectionTitles(a) == SectionTitles(b);
    var s := IndexOf(SectionTitles(a), u.sectionTitle);
    if s != -1 {
      assert ItemTitles(a.sections[s]) == ItemTitles(b.sections[s]);
    }
  }

  lemma AfterKeepsShape(inst: Instance, us: seq<Update>)
    ensures SameShape(inst, After(inst, us))
  {
  }

  lemma {:induction false} SameResolution(
    a: Instance, b: Instance, template: Option<Template>, us: seq<Update>, originator: Originator)
    requires SameShape(a, b)
    ensures ValidPrefix(a, template, us, originator) == ValidPrefix(b, template, us, originator)
  {
    if us != [] {
      SameAddress(a, b, us[0]);
      assert Resolve(a, template, us[0], originator) == Resolve(b, template, us[0], originator);
      SameResolution(a, b, template, us[1..], originator);
    }
  }

  /** Two lists of updates one after the other are the two lists together. */
  lemma {:induction false} AfterInTwo(inst: Instance, us: seq<Update>, vs: seq<Update>)
    requires forall v <- vs :: Address(inst, v).Ok?
    ensures After(After(inst, us), vs) == After(inst, us + vs)
  {
    var mid := After(inst, us);
    AfterKeepsShape(inst, us);
    if vs == [] {
      AfterNone(mid);
      assert us + vs == us;
    } else {
      var v := vs[|vs| - 1];
      var ws := vs[..|vs| - 1];
      assert vs == ws + [v] && us + vs == (us + ws) + [v];
      AfterInTwo(inst, us, ws);
      SameAddress(inst, mid, v);
      var slot := Address(inst, v).value;
      AfterOneMore(mid, ws, v, slot);
      AfterOneMore(inst, us + ws, v, slot);
    }
  }

  // ---- calls that die between two writes ----

  /** An update is written as its status, if it has one, and then note by note. */
  function Writes(u: Update): nat {
    (if u.status.Some? then 1 else 0) + |u.notes|
  }

  function TotalWrites(us: seq<Update>): nat {
    if us == [] then 0 else Writes(us[0]) + TotalWrites(us[1..])
  }

  /** The first `n` writes of an update, as an update. */
  function Partial(u: Update, n: nat): Update {
    if n >= Writes(u) then u
    else if u.status == None then u.(notes := u.notes[..n])
    else if n == 0 then u.(status := None, notes := [])
    else u.(notes := u.notes[..n - 1])
  }

  /** The first `n` writes of a list of updates, as updates. */
  function FirstWrites(us: seq<Update>, n: nat): seq<Update> {
    if us == [] then []
    else if Writes(us[0]) <= n then [us[0]] + FirstWrites(us[1..], n - Writes(us[0]))
    else [Partial(us[0], n)]
  }

  lemma {:induction false} AllWrites(us: seq<Update>, n: nat)
    requires n >= TotalWrites(us)
    ensures FirstWrites(us, n) == us
  {
    if us != [] {
      AllWrites(us[1..], n - Writes(us[0]));
    }
  }

  lemma {:induction false} TotalOneMore(us: seq<Update>, k: nat)
    requires k < |us|
    ensures TotalWrites(us[..k + 1]) == TotalWrites(us[..k]) + Writes(us[k])
  {
    assert us[..k + 1][0] == us[0] && us[..k + 1][1..] == us[1..][..k];
    if k > 0 {
      assert us[..k][0] == us[0] && us[..k][1..] == us[1..][..k - 1];
      TotalOneMore(us[1..], k - 1);
    }
  }

  lemma {:induction false} TotalGrows(us: seq<Update>, j: nat, k: nat)
    requires j <= k <= |us|
    ensures TotalWrites(us[..j]) <= TotalWrites(us[..k])
    decreases k
  {
    if j < k {
      TotalGrows(us, j, k - 1);
      TotalOneMore(us, k - 1);
    }
  }

  /** Writes that end within the k-th update are the updates before it and a part of it. */
  lemma {:induction false} FirstWritesWithin(us: seq<Update>, k: nat, n: nat)
    requires k < |us| && TotalWrites(us[..k]) <= n < TotalWrites(us[..k]) + Writes(us[k])
    ensures FirstWrites(us, n) == us[..k] + [Partial(us[k], n - TotalWrites(us[..k]))]
  {
    if k > 0 {
      assert us[..k][0] == us[0] && us[..k][1..] == us[1..][..k - 1];
      FirstWritesWithin(us[1..], k - 1, n - Writes(us[0]));
    }
  }

  /** Every part-written update addresses what one of the updates does. */
  lemma {:induction false} FirstWritesFrom(us: seq<Update>, n: nat, w: Update)
    requires w in FirstWrites(us, n)
    ensures exists j :: 0 <= j < |us| && w.sectionTitle == us[j].sectionTitle && w.itemTitle == us[j].itemTitle
  {
    var first := if Writes(us[0]) <= n then us[0] else Partial(us[0], n);
    if w == first {
      assert w.sectionTitle == us[0].sectionTitle;
    } else {
      FirstWritesFrom(us[1..], n - Writes(us[0]), w);
      var j :| 0 <= j < |us[1..]| && w.sectionTitle == us[1..][j].sectionTitle && w.itemTitle == us[1..][j].itemTitle;
      assert us[j + 1] == us[1..][j];
    }
  }

  // ---- repeating a call that died ----

  predicate SetsStatus(inst: Instance, us: seq<Update>, slot: Slot) {
    exists j :: 0 <= j < |us| && Targets(inst, us[j], slot) && us[j].status.Some?
  }

  lemma {:induction false} StatusAfterSet(inst: Instance, us: seq<Update>, slot: Slot, a: ItemStatus, b: ItemStatus)
    ensures SetsStatus(inst, us, slot) ==> StatusAfter(inst, us, slot, a) == StatusAfter(inst, us, slot, b)
    ensures !SetsStatus(inst, us, slot) ==> StatusAfter(inst, us, slot, a) == a
  {
    if us != [] {
      var init, last := us[..|us| - 1], us[|us| - 1];
      if !(Targets(inst, last, slot) && last.status.Some?) {
        StatusAfterSet(inst, init, slot, a, b);
        if SetsStatus(inst, us, slot) {
          var j :| 0 <= j < |us| && Targets(inst, us[j], slot) && us[j].status.Some?;
          assert init[j] == us[j];
        }
      }
    }
  }

  lemma {:induction false} StatusInTwo(inst: Instance, us: seq<Update>, vs: seq<Update>, slot: Slot, s: ItemStatus)
    ensures StatusAfter(inst, us + vs, slot, s) == StatusAfter(inst, vs, slot, StatusAfter(inst, us, slot, s))
    ensures NotesFor(inst, us + vs, slot) == NotesFor(inst, us, slot) + NotesFor(inst, vs, slot)
  {
    if vs == [] {
      assert us + vs == us;
    } else {
      assert (us + vs)[..|us + vs| - 1] == us + vs[..|vs| - 1];
      StatusInTwo(inst, us, vs[..|vs| - 1], slot, s);
    }
  }

  lemma {:induction false} FirstWritesSet(inst: Instance, us: seq<Update>, n: nat, slot: Slot)
    ensures SetsStatus(inst, FirstWrites(us, n), slot) ==> SetsStatus(inst, us, slot)
  {
    var ws := FirstWrites(us, n);
    if SetsStatus(inst, ws, slot) {
      var j :| 0 <= j < |ws| && Targets(inst, ws[j], slot) && ws[j].status.Some?;
      if j == 0 {
        assert Targets(inst, us[0], slot) && us[0].status.Some?;
      } else {
        var rest := FirstWrites(us[1..], n - Writes(us[0]));
        assert rest[j - 1] == ws[j];
        FirstWritesSet(inst, us[1..], n - Writes(us[0]), slot);
        var i :| 0 <= i < |us[1..]| && Targets(inst, us[1..][i], slot) && us[1..][i].status.Some?;
        assert us[i + 1] == us[1..][i];
      }
    }
  }

  /**
   Repeating a call that died after `n` writes leaves every item the status that the undisturbed call leaves it, and
   repeats the notes that had been written: they stand before all notes of the repeated call.
   */
  lemma RepeatedAfterDeath(inst: Instance, us: seq<Update>, n: nat, slot: Slot)
    requires (forall u <- us :: Address(inst, u).Ok?) && HasSlot(inst, slot)
    ensures var repeated := After(After(inst, FirstWrites(us, n)), us);
            && HasSlot(repeated, slot)
            && ItemAt(repeated, slot)
               == ItemAfter(inst, us, slot).(
                    notes := ItemAt(inst, slot).notes
                             + NotesFor(inst, FirstWrites(us, n), slot) + NotesFor(inst, us, slot))
  {
    ItemInTwo(inst, FirstWrites(us, n), us, slot);
    StatusRepeated(inst, us, n, slot, ItemAt(inst, slot).status);
  }

  lemma ItemInTwo(inst: Instance, ws: seq<Update>, us: seq<Update>, slot: Slot)
    requires (forall u <- us :: Address(inst, u).Ok?) && HasSlot(inst, slot)
    ensures HasSlot(After(After(inst, ws), us), slot)
    ensures var item := ItemAt(inst, slot);
            ItemAt(After(After(inst, ws), us), slot)
            == item.(status := StatusAfter(inst, us, slot, StatusAfter(inst, ws, slot, item.status)),
                     notes := item.notes + NotesFor(inst, ws, slot) + NotesFor(inst, us, slot))
  {
    AfterInTwo(inst, ws, us);
    AfterAt(inst, ws + us, slot);
    var item := ItemAt(inst, slot);
    StatusInTwo(inst, ws, us, slot, item.status);
    Regroup(item.notes, NotesFor(inst, ws, slot), NotesFor(inst, us, slot));
  }

  lemma Regroup(a: seq<Note>, b: seq<Note>, c: seq<Note>)
    ensures a + (b + c) == a + b + c
  {
  }

  /** A status that was set before the death is set again. */
  lemma StatusRepeated(inst: Instance, us: seq<Update>, n: nat, slot: Slot, before: ItemStatus)
    ensures StatusAfter(inst, us, slot, StatusAfter(inst, FirstWrites(us, n), slot, before))
         == StatusAfter(inst, us, slot, before)
  {
    var ws := FirstWrites(us, n);
    StatusAfterSet(inst, us, slot, StatusAfter(inst, ws, slot, before), before);
    StatusAfterSet(inst, ws, slot, before, before);
    FirstWritesSet(inst, us, n, slot);
  }

  /** So the item is the same as if the call had not died exactly when it had written no note on it. */
  lemma RepeatIsInvisibleExactlyWhen(inst: Instance, us: seq<Update>, n: nat, slot: Slot)
    requires (forall u <- us :: Address(inst, u).Ok?) && HasSlot(inst, slot)
    ensures var repeated := After(After(inst, FirstWrites(us, n)), us);
            && HasSlot(repeated, slot)
            && (ItemAt(repeated, slot) == ItemAfter(inst, us, slot) <==> NotesFor(inst, FirstWrites(us, n), slot) == [])
  {
    RepeatedAfterDeath(inst, us, n, slot);
    Inserted(ItemAt(inst, slot).notes, NotesFor(inst, FirstWrites(us, n), slot), NotesFor(inst, us, slot));
  }

  lemma Inserted(a: seq<Note>, b: seq<Note>, c: seq<Note>)
    ensures a + b + c == a + c <==> b == []
  {
    assert |a + b + c| == |a + c| + |b|;
    assert b == [] ==> a + b == a;
  }
}
