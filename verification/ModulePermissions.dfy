/** Module permissions behind a read-through cache, and the validation of permission lists against them. */
module ModulePermissions {
  import opened Outcomes

  datatype AllowableRole = AllowableRole(role: string, description: Option<string>)

  datatype ModuleRecord = ModuleRecord(
    name: string,
    description: Option<string>,
    roles: seq<AllowableRole>,
    active: bool)

  datatype Permission = Permission(name: string, role: string)

  // ---- the store ----

  /** What a request makes of the stored record, if there is one: without a description it leaves that one alone. */
  function Written(stored: Option<ModuleRecord>, dto: ModuleRecord): ModuleRecord {
    if stored.Some? && dto.description == None then dto.(description := stored.value.description) else dto
  }

  /** `findOneAndUpdate` with upsert: writes the module's record in place, or adds one at the end. */
  function Upsert(store: seq<ModuleRecord>, dto: ModuleRecord): seq<ModuleRecord> {
    if store == [] then [dto]
    else if store[0].name == dto.name then [Written(Some(store[0]), dto)] + store[1..]
    else [store[0]] + Upsert(store[1..], dto)
  }

  function FindByModule(store: seq<ModuleRecord>, name: string): Option<ModuleRecord> {
    if store == [] then None
    else if store[0].name == name then Some(store[0])
    else FindByModule(store[1..], name)
  }

  function FindAllActive(store: seq<ModuleRecord>): seq<ModuleRecord> {
    if store == [] then []
    else (if store[0].active then [store[0]] else []) + FindAllActive(store[1..])
  }

  // ---- the cache ----

  const ALL_KEY := "module-permissions:all"

  function ModuleKey(name: string): string {
    "module-permissions:module:" + name
  }

  datatype Entry = AllEntry(records: seq<ModuleRecord>) | ModuleEntry(record: ModuleRecord)

  /** An entry under the key is what a direct read of the store would give. */
  predicate EntryOk(store: seq<ModuleRecord>, key: string, entry: Entry) {
    match entry
    case AllEntry(records) => key == ALL_KEY && records == FindAllActive(store)
    case ModuleEntry(record) => key == ModuleKey(record.name) && FindByModule(store, record.name) == Some(record)
  }

  predicate CacheOk(store: seq<ModuleRecord>, cache: map<string, Entry>) {
    forall k <- cache :: EntryOk(store, k, cache[k])
  }

  lemma KeysApart(a: string, b: string)
    ensures ModuleKey(a) != ALL_KEY
    ensures ModuleKey(a) == ModuleKey(b) ==> a == b
  {
    assert |ModuleKey(a)| > |ALL_KEY|;
    assert ModuleKey(a)[26..] == a && ModuleKey(b)[26..] == b;
  }

  /** A cached entry under a reader's key is of the kind that reader expects. */
  lemma EntryUnderKey(store: seq<ModuleRecord>, cache: map<string, Entry>, name: string)
    requires CacheOk(store, cache)
    ensures ALL_KEY in cache ==> cache[ALL_KEY] == AllEntry(FindAllActive(store))
    ensures ModuleKey(name) in cache ==>
              FindByModule(store, name).Some? && cache[ModuleKey(name)] == ModuleEntry(FindByModule(store, name).value)
  {
    KeysApart(name, name);
    if ALL_KEY in cache && cache[ALL_KEY].ModuleEntry? {
      KeysApart(cache[ALL_KEY].record.name, name);
    }
    if ModuleKey(name) in cache && cache[ModuleKey(name)].ModuleEntry? {
      KeysApart(cache[ModuleKey(name)].record.name, name);
    }
  }

  lemma {:induction false} FoundName(store: seq<ModuleRecord>, name: string)
    ensures FindByModule(store, name).Some? ==> FindByModule(store, name).value.name == name
  {
    if store != [] {
      FoundName(store[1..], name);
    }
  }

  /** An upsert changes what is found for its own module only, and leaves its description alone if it has none. */
  lemma {:induction false} UpsertFinds(store: seq<ModuleRecord>, dto: ModuleRecord, name: string)
    ensures FindByModule(Upsert(store, dto), name)
         == if name == dto.name then Some(Written(FindByModule(store, name), dto)) else FindByModule(store, name)
  {
    if store != [] {
      UpsertFinds(store[1..], dto, name);
    }
  }

  predicate UniqueNames(store: seq<ModuleRecord>) {
    forall i, j :: 0 <= i < j < |store| ==> store[i].name != store[j].name
  }

  /** With one record for each module, the records stored are those that are found. */
  lemma {:induction false} StoredIsFound(store: seq<ModuleRecord>, d: ModuleRecord)
    requires UniqueNames(store)
    ensures d in store <==> FindByModule(store, d.name) == Some(d)
  {
    if store != [] && store[0].name != d.name {
      StoredIsFound(store[1..], d);
    } else if store != [] {
      assert forall i :: 0 < i < |store| ==> store[i].name != store[0].name;
    }
  }

  lemma {:induction false} UpsertKeepsNamesUnique(store: seq<ModuleRecord>, dto: ModuleRecord)
    requires UniqueNames(store)
    ensures UniqueNames(Upsert(store, dto))
    ensures forall d <- Upsert(store, dto) :: d.name == dto.name || exists e <- store :: e.name == d.name
  {
    if store != [] && store[0].name != dto.name {
      UpsertKeepsNamesUnique(store[1..], dto);
      var rest := Upsert(store[1..], dto);
      forall i | 0 <= i < |rest| ensures rest[i].name != store[0].name {
        assert rest[i] in rest;
        if rest[i].name != dto.name {
          var e :| e in store[1..] && e.name == rest[i].name;
          var j :| 0 <= j < |store[1..]| && store[1..][j] == e;
          assert store[j + 1] == e;
        }
      }
    }
  }

  /** What an upsert does to the active modules: its own record joins them or leaves them, and all others stay. */
  lemma ActiveAfterUpsert(store: seq<ModuleRecord>, dto: ModuleRecord, d: ModuleRecord)
    requires UniqueNames(store)
    ensures d in FindAllActive(Upsert(store, dto))
       <==> d.active && if d.name == dto.name then d == Written(FindByModule(store, dto.name), dto) else d in store
  {
    UpsertKeepsNamesUnique(store, dto);
    ActiveRecords(Upsert(store, dto));
    StoredIsFound(Upsert(store, dto), d);
    StoredIsFound(store, d);
    UpsertFinds(store, dto, d.name);
  }

  // ---- runs of the cached store ----

  datatype State = State(store: seq<ModuleRecord>, cache: map<string, Entry>)

  datatype Action = Save(dto: ModuleRecord) | ReadAll | ReadModule(name: string) | Evict(key: string)

  /** What a cached read answers; a missing module is not cached. */
  function AnswerAll(s: State): seq<ModuleRecord> {
    if ALL_KEY in s.cache && s.cache[ALL_KEY].AllEntry? then s.cache[ALL_KEY].records else FindAllActive(s.store)
  }

  function AnswerModule(s: State, name: string): Option<ModuleRecord> {
    if ModuleKey(name) in s.cache && s.cache[ModuleKey(name)].ModuleEntry? then Some(s.cache[ModuleKey(name)].record)
    else FindByModule(s.store, name)
  }

  function Apply(s: State, a: Action): State {
    match a
    case Save(dto) => State(Upsert(s.store, dto), s.cache - {ALL_KEY, ModuleKey(dto.name)})
    case ReadAll => if ALL_KEY in s.cache then s else s.(cache := s.cache[ALL_KEY := AllEntry(FindAllActive(s.store))])
    case ReadModule(name) =>
      if ModuleKey(name) in s.cache || FindByModule(s.store, name) == None then s
      else s.(cache := s.cache[ModuleKey(name) := ModuleEntry(FindByModule(s.store, name).value)])
    case Evict(key) => s.(cache := s.cache - {key})
  }

  function Exec(s: State, run: seq<Action>): State
    decreases run
  {
    if run == [] then s else Exec(Apply(s, run[0]), run[1..])
  }

  lemma CacheOkStep(s: State, a: Action)
    requires CacheOk(s.store, s.cache)
    ensures CacheOk(Apply(s, a).store, Apply(s, a).cache)
  {
    var t := Apply(s, a);
    forall k | k in t.cache ensures EntryOk(t.store, k, t.cache[k]) {
      match a {
        case Save(dto) =>
          assert EntryOk(s.store, k, s.cache[k]);
          if s.cache[k].ModuleEntry? {
            UpsertFinds(s.store, dto, s.cache[k].record.name);
          }
        case ReadModule(name) => FoundName(s.store, name); assert k in s.cache ==> EntryOk(s.store, k, s.cache[k]);
        case _ => assert k in s.cache ==> EntryOk(s.store, k, s.cache[k]);
      }
    }
  }

  /** The cache is transparent: after any run, every cached read answers what a direct read would. */
  lemma {:induction false} CacheIsTransparent(s: State, run: seq<Action>, name: string)
    requires CacheOk(s.store, s.cache)
    ensures var t := Exec(s, run);
            && CacheOk(t.store, t.cache)
            && AnswerAll(t) == FindAllActive(t.store)
            && AnswerModule(t, name) == FindByModule(t.store, name)
    decreases run
  {
    if run == [] {
      EntryUnderKey(s.store, s.cache, name);
    } else {
      CacheOkStep(s, run[0]);
      CacheIsTransparent(Apply(s, run[0]), run[1..], name);
    }
  }

  // ---- what may be granted ----

  predicate OffersRole(record: ModuleRecord, role: string) {
    exists r <- record.roles :: r.role == role
  }

  predicate ActiveModule(store: seq<ModuleRecord>, name: string) {
    exists d <- store :: d.active && d.name == name
  }

  predicate OfferedRole(store: seq<ModuleRecord>, role: string) {
    exists d <- store :: d.active && OffersRole(d, role)
  }

  /** The role is an allowable role of the module, and the module is currently active. */
  predicate Allowed(store: seq<ModuleRecord>, p: Permission) {
    exists d <- store :: d.active && d.name == p.name && OffersRole(d, p.role)
  }

  lemma {:induction false} ActiveRecords(store: seq<ModuleRecord>)
    ensures forall d :: d in FindAllActive(store) <==> d in store && d.active
  {
    if store != [] {
      ActiveRecords(store[1..]);
    }
  }

  // ---- duplicate detection by joined key ----

  function JoinedKey(p: Permission): string {
    p.name + ":" + p.role
  }

  predicate Distinct<T(==)>(s: seq<T>) {
    forall i, j :: 0 <= i < j < |s| ==> s[i] != s[j]
  }

  function Keys(ps: seq<Permission>): seq<string> {
    seq(|ps|, i requires 0 <= i < |ps| => JoinedKey(ps[i]))
  }

  /** A list has a duplicate when two of its entries read the same with a colon between name and role. */
  lemma DuplicatesByText(ps: seq<Permission>)
    ensures !Distinct(Keys(ps))
       <==> exists i, j :: 0 <= i < j < |ps| && ps[i].name + ":" + ps[i].role == ps[j].name + ":" + ps[j].role
  {
    assert forall i :: 0 <= i < |ps| ==> Keys(ps)[i] == ps[i].name + ":" + ps[i].role;
  }

  predicate ColonFree(s: string) { ':' !in s }

  /** Part of the second name, with its colon, reads as the start of the first role: 'a' + 'b:c' and 'a:b' + 'c'. */
  predicate Shifted(p: Permission, q: Permission) {
    && |p.name| < |q.name|
    && q.name[..|p.name| + 1] == p.name + ":"
    && p.role == q.name[|p.name| + 1..] + ":" + q.role
  }

  lemma SameKeyShifted(p: Permission, q: Permission)
    requires JoinedKey(p) == JoinedKey(q) && |p.name| < |q.name|
    ensures Shifted(p, q)
  {
    var k := JoinedKey(p);
    var n := |p.name|;
    assert k[..n + 1] == p.name + ":" && k[..|q.name|] == q.name;
    assert q.name[..n + 1] == k[..n + 1];
    assert k[n + 1..] == p.role;
    assert k == q.name[..n + 1] + (q.name[n + 1..] + ":" + q.role);
  }

  lemma ShiftedSameKey(p: Permission, q: Permission)
    requires Shifted(p, q)
    ensures JoinedKey(p) == JoinedKey(q)
  {
    assert q.name == q.name[..|p.name| + 1] + q.name[|p.name| + 1..];
  }

  /** Exactly which different permissions share a joined key. */
  lemma CollidesExactlyWhenShifted(p: Permission, q: Permission)
    ensures JoinedKey(p) == JoinedKey(q) && p != q <==> Shifted(p, q) || Shifted(q, p)
  {
    if Shifted(p, q) {
      ShiftedSameKey(p, q);
    } else if Shifted(q, p) {
      ShiftedSameKey(q, p);
    } else if JoinedKey(p) == JoinedKey(q) {
      if |p.name| < |q.name| {
        SameKeyShifted(p, q);
      } else if |q.name| < |p.name| {
        SameKeyShifted(q, p);
      } else {
        assert JoinedKey(p)[..|p.name|] == p.name && JoinedKey(q)[..|q.name|] == q.name;
        assert JoinedKey(p)[|p.name| + 1..] == p.role && JoinedKey(q)[|q.name| + 1..] == q.role;
      }
    }
  }

  /** The joined keys are distinct exactly when the permissions are and no two of them are shifted. */
  lemma KeysDistinctExactlyWhen(ps: seq<Permission>)
    ensures Distinct(Keys(ps))
       <==> Distinct(ps) && forall i, j :: 0 <= i < |ps| && 0 <= j < |ps| ==> !Shifted(ps[i], ps[j])
  {
    forall i, j | 0 <= i < |ps| && 0 <= j < |ps|
      ensures Keys(ps)[i] == Keys(ps)[j] && ps[i] != ps[j] <==> Shifted(ps[i], ps[j]) || Shifted(ps[j], ps[i])
    {
      CollidesExactlyWhenShifted(ps[i], ps[j]);
    }
    if Distinct(Keys(ps)) {
      forall i, j | 0 <= i < j < |ps| ensures ps[i] != ps[j] {
        assert Keys(ps)[i] != Keys(ps)[j];
      }
      forall i, j | 0 <= i < |ps| && 0 <= j < |ps| ensures !Shifted(ps[i], ps[j]) {
        assert i < j ==> Keys(ps)[i] != Keys(ps)[j];
        assert j < i ==> Keys(ps)[j] != Keys(ps)[i];
      }
    }
  }

  /** Joining with a colon is injective when the module names have none, or when the role names have none. */
  lemma JoinedKeysApart(p: Permission, q: Permission)
    requires (ColonFree(p.name) && ColonFree(q.name)) || (ColonFree(p.role) && ColonFree(q.role))
    ensures JoinedKey(p) == JoinedKey(q) ==> p == q
  {
    CollidesExactlyWhenShifted(p, q);
    if Shifted(p, q) {
      ShiftHasColons(p, q);
    } else if Shifted(q, p) {
      ShiftHasColons(q, p);
    }
  }

  lemma ShiftHasColons(p: Permission, q: Permission)
    requires Shifted(p, q)
    ensures !ColonFree(q.name) && !ColonFree(p.role)
  {
    assert q.name[|p.name|] == q.name[..|p.name| + 1][|p.name|];
    assert p.role[|q.name| - |p.name| - 1] == ':';
  }

  lemma DistinctKeysExactly(ps: seq<Permission>)
    requires (forall p <- ps :: ColonFree(p.name)) || (forall p <- ps :: ColonFree(p.role))
    ensures Distinct(Keys(ps)) <==> Distinct(ps)
  {
    if Distinct(ps) {
      forall i, j | 0 <= i < j < |ps| ensures Keys(ps)[i] != Keys(ps)[j] {
        assert ps[i] in ps && ps[j] in ps;
        JoinedKeysApart(ps[i], ps[j]);
      }
    }
    if Distinct(Keys(ps)) {
      forall i, j | 0 <= i < j < |ps| ensures ps[i] != ps[j] {
        assert Keys(ps)[i] != Keys(ps)[j];
      }
    }
  }

  /** Without such a restriction two different permissions may be taken for duplicates. */
  lemma ColonsCollide()
    ensures var ps := [Permission("a:b", "c"), Permission("a", "b:c")];
            Distinct(ps) && !Distinct(Keys(ps))
  {
    var ps := [Permission("a:b", "c"), Permission("a", "b:c")];
    assert JoinedKey(ps[0]) == "a:b:c" && JoinedKey(ps[1]) == "a:b:c";
    assert Keys(ps)[0] == Keys(ps)[1];
    assert |ps[0].name| != |ps[1].name|;
  }

  /** A set of a list's elements has the list's size exactly when none repeats. */
  lemma {:induction false} SetSize<T>(s: seq<T>)
    ensures |set x | x in s| <= |s|
    ensures |set x | x in s| == |s| <==> Distinct(s)
  {
    if s == [] {
      assert (set x | x in s) == {};
    } else {
      var n := |s| - 1;
      var init, last := s[..n], s[n];
      SetSize(init);
      assert s == init + [last];
      assert (set x | x in s) == (set x | x in init) + {last};
      if last in init {
        var i :| 0 <= i < n && init[i] == last;
        assert s[i] == s[n];
        assert (set x | x in s) == (set x | x in init);
      } else {
        assert Distinct(s) <==> Distinct(init) by {
          assert forall i :: 0 <= i < n ==> s[i] == init[i] && s[i] in init;
        }
      }
    }
  }
}
