/**
 The checklist code in its own form: template and instance stores, and the update loop that resolves titles against
 one snapshot while it writes and stops at the first update it refuses.
 */
module ChecklistService {
  import opened Outcomes
  import opened Checklists
  import opened ChecklistTemplates

  lemma TakeOneMore(us: seq<Update>, n: nat)
    requires n < |us|
    ensures us[..n] + [us[n]] == us[..n + 1]
  {
  }

  class ChecklistStore {
    var templates: seq<Template>
    var instances: map<nat, Instance>

    // ---- templates ----

    /** `create`: gives the new template the version after its type's latest one. */
    method CreateChecklist(kind: ChecklistType, sections: seq<TemplateSection>, now: int) returns (t: Template)
      modifies this`templates
      ensures templates == AddTemplate(old(templates), kind, sections, now) == old(templates) + [t]
      ensures t.kind == kind && t.sections == sections && t.createdAt == now
      ensures t.version == match GetLatest(old(templates), kind) case None => 1 case Some(latest) => latest.version + 1
    {
      var latest := GetLatest(templates, kind);
      var version := if latest == None then 1 else latest.value.version + 1;
      t := Template(kind, version, now, sections);
      templates := templates + [t];
    }

    /** `createChecklistInstance`: copies the latest template of the type; throws when there is none. */
    method CreateChecklistInstance(kind: ChecklistType, id: nat) returns (r: Result<Instance, UpdateError>)
      requires id !in instances
      modifies this`instances
      ensures r.Ok? <==> GetLatest(templates, kind).Some?
      ensures r.Ok? ==>
                && instances == old(instances)[id := r.value]
                && CopyOf(r.value, GetLatest(templates, kind).value)
                && forall slot: Slot :: HasSlot(r.value, slot) ==>
                     ItemAt(r.value, slot).status == NotStarted && ItemAt(r.value, slot).notes == []
      ensures r.Err? ==> r.error == TemplateMissing && instances == old(instances)
    {
      var latest := GetLatest(templates, kind);
      if latest == None {
        return Err(TemplateMissing);
      }
      NewInstanceIsCopy(latest.value);
      instances := instances[id := NewInstance(latest.value)];
      r := Ok(instances[id]);
    }

    // ---- single writes, each checking its indices first ----

    method UpdateChecklistItemStatus(id: nat, slot: Slot, status: ItemStatus) returns (r: Result<(), UpdateError>)
      modifies this`instances
      ensures id in old(instances) && HasSlot(old(instances)[id], slot) ==>
                r == Ok(()) && instances == old(instances)[id := WithStatus(old(instances)[id], slot, status)]
      ensures !(id in old(instances) && HasSlot(old(instances)[id], slot)) ==> r.Err? && instances == old(instances)
      ensures r == Err(InstanceNotFound) <==> id !in old(instances)
      ensures r == Err(SectionNotFound) <==> id in old(instances) && slot.section >= |old(instances)[id].sections|
      ensures r.Ok? || r.error == InstanceNotFound || r.error == SectionNotFound || r.error == ItemNotFound
    {
      if id !in instances {
        return Err(InstanceNotFound);
      }
      if slot.section >= |instances[id].sections| {
        return Err(SectionNotFound);
      }
      if slot.item >= |instances[id].sections[slot.section].items| {
        return Err(ItemNotFound);
      }
      instances := instances[id := WithStatus(instances[id], slot, status)];
      r := Ok(());
    }

    method AddNote(id: nat, slot: Slot, note: Note) returns (r: Result<(), UpdateError>)
      modifies this`instances
      ensures id in old(instances) && HasSlot(old(instances)[id], slot) ==>
                r == Ok(()) && instances == old(instances)[id := WithNote(old(instances)[id], slot, note)]
      ensures !(id in old(instances) && HasSlot(old(instances)[id], slot)) ==> r.Err? && instances == old(instances)
      ensures r == Err(InstanceNotFound) <==> id !in old(instances)
      ensures r == Err(SectionNotFound) <==> id in old(instances) && slot.section >= |old(instances)[id].sections|
      ensures r.Ok? || r.error == InstanceNotFound || r.error == SectionNotFound || r.error == ItemNotFound
    {
      if id !in instances {
        return Err(InstanceNotFound);
      }
      if slot.section >= |instances[id].sections| {
        return Err(SectionNotFound);
      }
      if slot.item >= |instances[id].sections[slot.section].items| {
        return Err(ItemNotFound);
      }
      instances := instances[id := WithNote(instances[id], slot, note)];
      r := Ok(());
    }

    /**
     The writes of one accepted update: its status if it has one, then its notes one by one.  It dies when it tries one
     more write than it survives; otherwise `left` is what it could still make.
     */
    method ApplyUpdate(id: nat, slot: Slot, u: Update, survives: nat) returns (left: Option<nat>)
      requires id in instances && HasSlot(instances[id], slot)
      modifies this`instances
      ensures left == if survives < Writes(u) then None else Some(survives - Writes(u))
      ensures var writes := if u.status.Some? then 1 + |u.notes| else |u.notes|;
              left == if survives < writes then None else Some(survives - writes)
      ensures id in instances && HasSlot(instances[id], slot)
      ensures var item, item' := ItemAt(old(instances)[id], slot), ItemAt(instances[id], slot);
              var forNotes := if u.status == None || survives == 0 then survives else survives - 1;
              && item'.status == (if u.status.Some? && survives > 0 then u.status.value else item.status)
              && item'.notes == item.notes + if forNotes <= |u.notes| then u.notes[..forNotes] else u.notes
      ensures var item := ItemAt(old(instances)[id], slot);
              var w := Partial(u, survives);
              instances == old(instances)[id :=
                WithItem(old(instances)[id], slot,
                         item.(status := if w.status.Some? then w.status.value else item.status,
                               notes := item.notes + w.notes))]
    {
      ghost var inst := instances[id];
      ghost var item := ItemAt(inst, slot);
      assert item.(notes := item.notes + []) == item;
      WithItemLaws(inst, slot, item, item);
      if u.status.Some? {
        if survives == 0 {
          assert instances == old(instances)[id := inst];
          return None;
        }
        var r := UpdateChecklistItemStatus(id, slot, u.status.value);
      }
      var remaining := survives - if u.status.Some? then 1 else 0;
      ghost var marked := item.(status := if u.status.Some? then u.status.value else item.status);
      WithItemLaws(inst, slot, marked, item);
      assert marked.(notes := item.notes + u.notes[..0]) == marked;
      for n := 0 to |u.notes|
        invariant n <= remaining
        invariant instances == old(instances)[id := WithItem(inst, slot, marked.(notes := item.notes + u.notes[..n]))]
      {
        if n == remaining {
          return None;
        }
        WithItemLaws(inst, slot, marked.(notes := item.notes + u.notes[..n]),
                     marked.(notes := item.notes + u.notes[..n + 1]));
        assert item.notes + u.notes[..n + 1] == item.notes + u.notes[..n] + [u.notes[n]];
        var r := AddNote(id, slot, u.notes[n]);
      }
      assert u.notes[..|u.notes|] == u.notes;
      left := Some(remaining - |u.notes|);
    }

    /** Resolves an update against the snapshot and the template, refusing it as the loop body does. */
    method ResolveUpdate(current: Instance, template: Option<Template>, u: Update, originator: Originator)
      returns (r: Result<Slot, UpdateError>)
      ensures r == Resolve(current, template, u, originator)
    {
      var sectionIndex := IndexOf(SectionTitles(current), u.sectionTitle);
      if sectionIndex == -1 {
        return Err(SectionNotFound);
      }
      var itemIndex := IndexOf(ItemTitles(current.sections[sectionIndex]), u.itemTitle);
      if itemIndex == -1 {
        return Err(ItemNotFound);
      }
      var checkType := TemplateCheckType(template, u);
      if checkType.Err? {
        return Err(checkType.error);
      }
      if !MayUpdate(checkType.value, originator) {
        return Err(Forbidden);
      }
      r := Ok(Slot(sectionIndex, itemIndex));
    }

    /** One turn of the loop: the update is resolved against the snapshot and written to the stored instance. */
    method UpdateItem(id: nat, current: Instance, template: Option<Template>, u: Update, originator: Originator,
                      survives: nat, ghost done: seq<Update>)
      returns (r: Result<nat, UpdateError>)
      requires id in instances && instances[id] == After(current, done)
      modifies this`instances
      ensures var slot := Resolve(current, template, u, originator);
              && (slot.Ok? ==>
                    && instances == old(instances)[id := After(current, done + [Partial(u, survives)])]
                    && r == if survives < Writes(u) then Err(Died) else Ok(survives - Writes(u)))
              && (slot.Err? ==> r == Err(slot.error) && instances == old(instances))
    {
      var slot := ResolveUpdate(current, template, u, originator);
      if slot.Err? {
        return Err(slot.error);
      }
      assert Targets(current, Partial(u, survives), slot.value);
      AfterOneMore(current, done, Partial(u, survives), slot.value);
      var left := ApplyUpdate(id, slot.value, u, survives);
      r := if left == None then Err(Died) else Ok(left.value);
    }

    /** What the loop makes of the instances, and its result. */
    ghost predicate LoopLeaves(before: map<nat, Instance>, id: nat, current: Instance, template: Option<Template>,
                               updates: seq<Update>, originator: Originator, survives: nat, r: Result<(), UpdateError>)
      reads this
    {
      var k := ValidPrefix(current, template, updates, originator);
      var dies := survives < TotalWrites(updates[..k]);
      && instances == before[id := After(current, FirstWrites(updates[..k], survives))]
      && (r.Ok? <==> k == |updates| && !dies)
      && (dies ==> r == Err(Died))
      && (r.Err? && !dies ==> Resolve(current, template, updates[k], originator) == Err(r.error))
    }

    /** The n-th turn: it gets past its update, or it leaves what the whole loop does. */
    method Turn(id: nat, current: Instance, template: Option<Template>, updates: seq<Update>, n: nat,
                originator: Originator, left: nat, ghost survives: nat, ghost before: map<nat, Instance>)
      returns (r: Result<nat, UpdateError>)
      requires n < |updates| && n <= ValidPrefix(current, template, updates, originator)
      requires left + TotalWrites(updates[..n]) == survives
      requires id in before && instances == before[id := After(current, updates[..n])]
      modifies this`instances
      ensures r.Ok? ==>
                && n < ValidPrefix(current, template, updates, originator)
                && r.value + TotalWrites(updates[..n + 1]) == survives
                && instances == before[id := After(current, updates[..n + 1])]
      ensures r.Err? ==> LoopLeaves(before, id, current, template, updates, originator, survives, Err(r.error))
    {
      TakeOneMore(updates, n);
      ValidPrefixAt(current, template, updates, originator, n);
      StopsHere(updates, ValidPrefix(current, template, updates, originator), n, survives, left);
      r := UpdateItem(id, current, template, updates[n], originator, left, updates[..n]);
    }

    /** The loop: it stops at the first update it refuses, leaving what the earlier ones wrote, or where it dies. */
    method ApplyUpdates(id: nat, current: Instance, template: Option<Template>, updates: seq<Update>,
                        originator: Originator, survives: nat)
      returns (r: Result<(), UpdateError>)
      requires id in instances && instances[id] == current
      modifies this`instances
      ensures LoopLeaves(old(instances), id, current, template, updates, originator, survives, r)
    {
      ghost var before := instances;
      var left: nat := survives;
      assert before == before[id := After(current, updates[..0])] by {
        AfterNone(current);
        assert updates[..0] == [];
      }
      for n := 0 to |updates|
        invariant n <= ValidPrefix(current, template, updates, originator)
        invariant left + TotalWrites(updates[..n]) == survives
        invariant instances == before[id := After(current, updates[..n])]
      {
        var turn := Turn(id, current, template, updates, n, originator, left, survives, before);
        if turn.Err? {
          return Err(turn.error);
        }
        left := turn.value;
      }
      AllWrites(updates[..|updates|], survives);
      r := Ok(());
    }

    /** What is written when the loop ends at the n-th update: refused there, died in it, or on its way past it. */
    lemma StopsHere(us: seq<Update>, k: nat, n: nat, survives: nat, left: nat)
      requires n <= k <= |us| && n < |us| && left + TotalWrites(us[..n]) == survives
      ensures n == k ==> FirstWrites(us[..k], survives) == us[..k] && TotalWrites(us[..k]) <= survives
      ensures n < k && left < Writes(us[n]) ==>
                FirstWrites(us[..k], survives) == us[..n] + [Partial(us[n], left)] && survives < TotalWrites(us[..k])
      ensures n < k && left >= Writes(us[n]) ==>
                Partial(us[n], left) == us[n] && left - Writes(us[n]) + TotalWrites(us[..n + 1]) == survives
    {
      if n == k {
        AllWrites(us[..k], survives);
      } else {
        TotalOneMore(us, n);
        if left < Writes(us[n]) {
          assert us[..k][..n] == us[..n] && us[..k][n] == us[n];
          FirstWritesWithin(us[..k], n, survives);
          TotalGrows(us, n + 1, k);
        }
      }
    }

    /**
     `updateChecklistInstance`: with k the number of updates before the first refused one, every item is left with the
     last status those k updates set on it and with all their notes for it appended, as far as the call gets if it
     dies; and it succeeds exactly when none was refused and it did not die.
     */
    method UpdateChecklistInstance(id: nat, updates: seq<Update>, originator: Originator, survives: nat)
      returns (r: Result<Instance, UpdateError>)
      modifies this`instances
      ensures id !in old(instances) ==> r == Err(InstanceNotFound) && instances == old(instances)
      ensures id in old(instances) ==>
                var inst := old(instances)[id];
                var template := GetByVersion(templates, inst.kind, inst.version);
                var k := ValidPrefix(inst, template, updates, originator);
                var dies := survives < TotalWrites(updates[..k]);
                && instances == UpdateCall(Store(templates, old(instances)), id, updates, originator,
                                           if dies then Some(survives) else None).instances
                && (r.Ok? <==> k == |updates| && !dies)
                && (r.Ok? ==> r.value == instances[id])
                && (dies ==> r == Err(Died))
                && (r.Err? && !dies ==> Resolve(inst, template, updates[k], originator) == Err(r.error))
    {
      if id !in instances {
        return Err(InstanceNotFound);
      }
      var current := instances[id];
      var template := GetByVersion(templates, current.kind, current.version);
      ghost var k := ValidPrefix(current, template, updates, originator);
      if survives >= TotalWrites(updates[..k]) {
        AllWrites(updates[..k], survives);
      }
      var applied := ApplyUpdates(id, current, template, updates, originator, survives);
      r := if applied.Err? then Err(applied.error) else Ok(instances[id]);
    }
  }
}
