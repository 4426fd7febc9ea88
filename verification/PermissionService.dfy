/** The permission services in their own form: the cached reads, what they are turned into, and the validation loop. */
module PermissionService {
  import opened Outcomes
  import opened ModulePermissions

  datatype PermissionError = Duplicate | InvalidModule | InvalidRole | InvalidCombination

  datatype Combination = Combination(name: string, role: string, description: Option<string>)

  /** Why one permission is refused, if it is. */
  function Refusal(store: seq<ModuleRecord>, p: Permission): Option<PermissionError> {
    if !ActiveModule(store, p.name) then Some(InvalidModule)
    else if !OfferedRole(store, p.role) then Some(InvalidRole)
    else if !Allowed(store, p) then Some(InvalidCombination)
    else None
  }

  predicate Offers(combos: seq<Combination>, p: Permission) {
    exists c <- combos :: c.name == p.name && c.role == p.role
  }

  predicate AllowedBy(modules: seq<ModuleRecord>, p: Permission) {
    exists d <- modules :: d.name == p.name && OffersRole(d, p.role)
  }

  /** One of the first `m` modules offers the role. */
  predicate OfferedBy(modules: seq<ModuleRecord>, m: nat, role: string)
    requires m <= |modules|
  {
    m > 0 && (OffersRole(modules[m - 1], role) || OfferedBy(modules, m - 1, role))
  }

  lemma {:induction false} OfferedByOne(modules: seq<ModuleRecord>, m: nat, role: string)
    requires m <= |modules|
    ensures OfferedBy(modules, m, role) <==> exists i :: 0 <= i < m && OffersRole(modules[i], role)
  {
    if m > 0 {
      OfferedByOne(modules, m - 1, role);
    }
  }

  lemma OfferedByActive(store: seq<ModuleRecord>, role: string)
    ensures OfferedBy(FindAllActive(store), |FindAllActive(store)|, role) <==> OfferedRole(store, role)
  {
    var active := FindAllActive(store);
    ActiveRecords(store);
    OfferedByOne(active, |active|, role);
    if OfferedRole(store, role) {
      var d :| d in store && d.active && OffersRole(d, role);
      var i :| 0 <= i < |active| && active[i] == d;
      assert OffersRole(active[i], role);
    }
    if exists i :: 0 <= i < |active| && OffersRole(active[i], role) {
      var i :| 0 <= i < |active| && OffersRole(active[i], role);
      assert active[i] in active;
    }
  }

  lemma OneMoreModule(modules: seq<ModuleRecord>, m: nat, combos: seq<Combination>, more: seq<Combination>)
    requires m < |modules|
    requires forall p: Permission :: Offers(combos, p) <==> AllowedBy(modules[..m], p)
    requires forall p: Permission :: Offers(more, p) <==> modules[m].name == p.name && OffersRole(modules[m], p.role)
    ensures forall p: Permission :: Offers(combos + more, p) <==> AllowedBy(modules[..m + 1], p)
  {
    assert modules[..m + 1] == modules[..m] + [modules[m]];
    forall p: Permission ensures Offers(combos + more, p) <==> AllowedBy(modules[..m + 1], p) {
      assert Offers(combos + more, p) <==> Offers(combos, p) || Offers(more, p);
    }
  }

  class PermissionDesk {
    var store: seq<ModuleRecord>
    var cache: map<string, Entry>

    constructor ()
      ensures store == [] && cache == map[] && CacheOk(store, cache)
    {
      store, cache := [], map[];
    }

    ghost function View(): State
      reads this
    {
      State(store, cache)
    }

    /** `upsert`: saves, then drops the two entries the save may have made stale. */
    method UpsertModule(dto: ModuleRecord) returns (saved: ModuleRecord)
      modifies this
      ensures saved == Written(FindByModule(old(store), dto.name), dto)
      ensures saved.name == dto.name && saved.roles == dto.roles && saved.active == dto.active
      ensures saved.description == if dto.description.Some? then dto.description
                                   else match FindByModule(old(store), dto.name)
                                        case None => None
                                        case Some(before) => before.description
      ensures FindByModule(store, dto.name) == Some(saved)
      ensures View() == Apply(old(View()), Save(dto))
      ensures cache == old(cache) - {ALL_KEY, ModuleKey(dto.name)}
      ensures old(CacheOk(store, cache)) ==> CacheOk(store, cache)
    {
      CacheStep(Save(dto));
      UpsertFinds(store, dto, dto.name);
      store := Upsert(store, dto);
      cache := cache - {ALL_KEY};
      cache := cache - {ModuleKey(dto.name)};
      assert cache == old(cache) - {ALL_KEY, ModuleKey(dto.name)};
      saved := FindByModule(store, dto.name).value;
    }

    lemma CacheStep(a: Action)
      ensures CacheOk(store, cache) ==> CacheOk(Apply(View(), a).store, Apply(View(), a).cache)
    {
      if CacheOk(store, cache) {
        CacheOkStep(View(), a);
      }
    }

    method FindAllActiveCached() returns (records: seq<ModuleRecord>)
      requires CacheOk(store, cache)
      modifies this`cache
      ensures View() == Apply(old(View()), ReadAll) && CacheOk(store, cache)
      ensures records == FindAllActive(store)
      ensures cache.Keys == old(cache.Keys) + {ALL_KEY}
    {
      EntryUnderKey(store, cache, "");
      CacheStep(ReadAll);
      if ALL_KEY in cache {
        return cache[ALL_KEY].records;
      }
      records := FindAllActive(store);
      cache := cache[ALL_KEY := AllEntry(records)];
    }

    method FindByModuleCached(name: string) returns (record: Option<ModuleRecord>)
      requires CacheOk(store, cache)
      modifies this`cache
      ensures View() == Apply(old(View()), ReadModule(name)) && CacheOk(store, cache)
      ensures record == FindByModule(store, name)
      ensures cache.Keys == old(cache.Keys) + if record.Some? then {ModuleKey(name)} else {}
    {
      EntryUnderKey(store, cache, name);
      CacheStep(ReadModule(name));
      if ModuleKey(name) in cache {
        return Some(cache[ModuleKey(name)].record);
      }
      record := FindByModule(store, name);
      if record.Some? {
        cache := cache[ModuleKey(name) := ModuleEntry(record.value)];
      }
    }

    /** The pairs of one module. */
    static method CombinationsOf(d: ModuleRecord) returns (combos: seq<Combination>)
      ensures forall p: Permission :: Offers(combos, p) <==> d.name == p.name && OffersRole(d, p.role)
      ensures |combos| == |d.roles| && forall i :: 0 <= i < |combos| ==>
                combos[i] == Combination(d.name, d.roles[i].role, d.roles[i].description)
    {
      combos := [];
      for r := 0 to |d.roles|
        invariant |combos| == r
        invariant forall i :: 0 <= i < r ==> combos[i] == Combination(d.name, d.roles[i].role, d.roles[i].description)
      {
        combos := combos + [Combination(d.name, d.roles[r].role, d.roles[r].description)];
      }
      forall p: Permission ensures Offers(combos, p) <==> d.name == p.name && OffersRole(d, p.role) {
        if d.name == p.name && OffersRole(d, p.role) {
          var i :| 0 <= i < |d.roles| && d.roles[i].role == p.role;
          assert combos[i] in combos;
        }
        if Offers(combos, p) {
          var i :| 0 <= i < |combos| && combos[i].name == p.name && combos[i].role == p.role;
          assert d.roles[i] in d.roles;
        }
      }
    }

    /** Every allowable role of every active module, as a pair. */
    method GetValidCombinations() returns (combos: seq<Combination>)
      requires CacheOk(store, cache)
      modifies this`cache
      ensures CacheOk(store, cache)
      ensures forall p: Permission :: Offers(combos, p) <==> Allowed(store, p)
      ensures forall c <- combos ::
                exists d <- store :: d.active && d.name == c.name && AllowableRole(c.role, c.description) in d.roles
    {
      var modules := FindAllActiveCached();
      ActiveRecords(store);
      combos := [];
      for m := 0 to |modules|
        invariant CacheOk(store, cache)
        invariant forall c <- combos ::
            exists d <- modules :: d.name == c.name && AllowableRole(c.role, c.description) in d.roles
        invariant forall p: Permission :: Offers(combos, p) <==> AllowedBy(modules[..m], p)
      {
        var more := CombinationsOf(modules[m]);
        OneMoreModule(modules, m, combos, more);
        forall c | c in more
          ensures c.name == modules[m].name && AllowableRole(c.role, c.description) in modules[m].roles
        {
          var i :| 0 <= i < |more| && more[i] == c;
          assert modules[m].roles[i] == AllowableRole(c.role, c.description);
        }
        combos := combos + more;
      }
      assert modules[..|modules|] == modules;
    }

    /** Adds the roles of one module that are not yet listed. */
    static method AddRoles(known: seq<string>, d: ModuleRecord) returns (roles: seq<string>)
      requires Distinct(known)
      ensures Distinct(roles) && known <= roles
      ensures forall r :: r in roles <==> r in known || OffersRole(d, r)
    {
      roles := known;
      for i := 0 to |d.roles|
        invariant Distinct(roles) && known <= roles
        invariant forall r :: r in roles ==> r in known || OffersRole(d, r)
        invariant forall j :: 0 <= j < i ==> d.roles[j].role in roles
      {
        if d.roles[i].role !in roles {
          assert d.roles[i] in d.roles;
          roles := roles + [d.roles[i].role];
        }
      }
    }

    /** Each role name once, in the order the active modules first offer it. */
    method GetValidRoles() returns (roles: seq<string>)
      requires CacheOk(store, cache)
      modifies this`cache
      ensures CacheOk(store, cache)
      ensures Distinct(roles)
      ensures forall r :: r in roles <==> OfferedRole(store, r)
    {
      var modules := FindAllActiveCached();
      roles := [];
      for m := 0 to |modules|
        invariant CacheOk(store, cache) && Distinct(roles)
        invariant forall r :: r in roles <==> OfferedBy(modules, m, r)
      {
        roles := AddRoles(roles, modules[m]);
      }
      forall r ensures OfferedBy(modules, |modules|, r) <==> OfferedRole(store, r) {
        OfferedByActive(store, r);
      }
    }

    method GetValidModules() returns (names: seq<string>)
      requires CacheOk(store, cache)
      modifies this`cache
      ensures CacheOk(store, cache)
      ensures forall n :: n in names <==> ActiveModule(store, n)
    {
      var modules := FindAllActiveCached();
      ActiveRecords(store);
      names := seq(|modules|, i requires 0 <= i < |modules| => modules[i].name);
      forall n ensures n in names <==> ActiveModule(store, n) {
        if ActiveModule(store, n) {
          var d :| d in store && d.active && d.name == n;
          var i :| 0 <= i < |modules| && modules[i] == d;
          assert names[i] == n;
        }
        if n in names {
          var i :| 0 <= i < |names| && names[i] == n;
          assert modules[i] in modules;
        }
      }
    }

    method ValidatePermission(p: Permission) returns (r: Result<(), PermissionError>)
      requires CacheOk(store, cache)
      modifies this`cache
      ensures CacheOk(store, cache)
      ensures r == match Refusal(store, p) case None => Ok(()) case Some(e) => Err(e)
      ensures r.Ok? <==> exists d <- store :: d.active && d.name == p.name && exists o <- d.roles :: o.role == p.role
      ensures r == Err(InvalidModule) <==> forall d <- store :: d.active ==> d.name != p.name
      ensures r == Err(InvalidRole) <==>
              && (exists d <- store :: d.active && d.name == p.name)
              && forall d <- store :: d.active ==> forall o <- d.roles :: o.role != p.role
    {
      var combos := GetValidCombinations();
      var modules := GetValidModules();
      var roles := GetValidRoles();
      if Allowed(store, p) {
        var d :| d in store && d.active && d.name == p.name && OffersRole(d, p.role);
        assert ActiveModule(store, p.name) && OfferedRole(store, p.role);
      }
      if p.name !in modules {
        return Err(InvalidModule);
      }
      if p.role !in roles {
        return Err(InvalidRole);
      }
      if !Offers(combos, p) {
        return Err(InvalidCombination);
      }
      r := Ok(());
    }

    /**
     `validatePermissions`: accepts a list exactly when no two of its joined keys are equal and every pair is an
     allowable role of a currently active module; otherwise the error says what is wrong first.
     */
    method ValidatePermissions(ps: seq<Permission>) returns (r: Result<(), PermissionError>)
      requires CacheOk(store, cache)
      modifies this`cache
      ensures CacheOk(store, cache)
      ensures r.Ok? <==> Distinct(Keys(ps)) && forall p <- ps :: Allowed(store, p)
      ensures (forall p <- ps :: ColonFree(p.name) && ColonFree(p.role)) ==>
                (r.Ok? <==> Distinct(ps) && forall p <- ps :: Allowed(store, p))
      ensures r == Err(Duplicate) <==> !Distinct(Keys(ps))
      ensures r.Err? && Distinct(Keys(ps)) ==>
                exists i :: 0 <= i < |ps| && Refusal(store, ps[i]) == Some(r.error)
                            && forall p <- ps[..i] :: Allowed(store, p)
    {
      if forall p <- ps :: ColonFree(p.name) && ColonFree(p.role) {
        DistinctKeysExactly(ps);
      }
      var keys := Keys(ps);
      SetSize(keys);
      var unique := set k | k in keys;
      if |unique| != |ps| {
        return Err(Duplicate);
      }
      for i := 0 to |ps|
        invariant CacheOk(store, cache)
        invariant forall p <- ps[..i] :: Allowed(store, p)
      {
        r := ValidatePermission(ps[i]);
        if r.Err? {
          assert ps[i] in ps && !Allowed(store, ps[i]);
          return;
        }
      }
      assert ps[..|ps|] == ps;
      r := Ok(());
    }
  }
}
