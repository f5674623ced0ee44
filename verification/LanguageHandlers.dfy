/** The code around the language cache, as written, running among other parties: load,
    store and invalidate of admin/pkg/language_cache.go and the handlers that call them. */
module LanguageHandlers {
  import opened Text
  import opened LanguageCache

  datatype Definition = Definition(group: string, key: string, value: string)
  datatype Language = Language(name: string, defines: seq<Definition>)

  // ----- the profile of the enabled languages

  function Name(d: Definition): string {
    d.group + "." + d.key
  }

  /** The value the last definition of that name gives, if there is one. */
  function LastValue(defines: seq<Definition>, name: string): Option<string> {
    if defines == [] then None
    else
      var last := defines[|defines| - 1];
      if Name(last) == name then Some(last.value) else LastValue(defines[..|defines| - 1], name)
  }

  /** All definitions of one language, over all rows with its name. */
  function DefinesOf(items: seq<Language>, language: string): seq<Definition> {
    if items == [] then []
    else
      var last := items[|items| - 1];
      DefinesOf(items[..|items| - 1], language) + (if last.name == language then last.defines else [])
  }

  function Lookup(p: Profile, language: string, name: string): Option<string> {
    if language in p && name in p[language] then Some(p[language][name]) else None
  }

  /** p answers every lookup by the last definition, and lists no empty language. */
  ghost predicate Describes(p: Profile, items: seq<Language>) {
    && (forall language, name :: Lookup(p, language, name) == LastValue(DefinesOf(items, language), name))
    && (forall language :: language in p <==> DefinesOf(items, language) != [])
  }

  lemma OneMore(items: seq<Language>, item: Language, j: nat, language: string)
    requires j < |item.defines|
    ensures DefinesOf(items + [Language(item.name, item.defines[..j + 1])], language)
         == var before := DefinesOf(items + [Language(item.name, item.defines[..j])], language);
            if language == item.name then before + [item.defines[j]] else before
  {
    assert (items + [Language(item.name, item.defines[..j])])[..|items|] == items;
    assert (items + [Language(item.name, item.defines[..j + 1])])[..|items|] == items;
    assert item.defines[..j + 1] == item.defines[..j] + [item.defines[j]];
  }

  lemma LastAppended(defines: seq<Definition>, d: Definition, name: string)
    ensures LastValue(defines + [d], name) == if Name(d) == name then Some(d.value) else LastValue(defines, name)
  {
    assert (defines + [d])[..|defines|] == defines;
  }

  lemma Defined(p: Profile, items: seq<Language>, item: Language, j: nat)
    requires j < |item.defines| && Describes(p, items + [Language(item.name, item.defines[..j])])
    ensures var d := item.defines[j];
            var inner := if item.name in p then p[item.name] else map[];
            Describes(p[item.name := inner[Name(d) := d.value]], items + [Language(item.name, item.defines[..j + 1])])
  {
    hide DefinesOf, LastValue, Name;
    var before, after := items + [Language(item.name, item.defines[..j])], items + [Language(item.name, item.defines[..j + 1])];
    var d := item.defines[j];
    var inner := if item.name in p then p[item.name] else map[];
    var q := p[item.name := inner[Name(d) := d.value]];
    forall language, name ensures Lookup(q, language, name) == LastValue(DefinesOf(after, language), name) {
      assert Lookup(p, language, name) == LastValue(DefinesOf(before, language), name);
      OneMore(items, item, j, language);
      LastAppended(DefinesOf(before, language), d, name);
    }
    forall language ensures language in q <==> DefinesOf(after, language) != [] {
      OneMore(items, item, j, language);
    }
  }

  lemma NoneDefined(p: Profile, items: seq<Language>, name: string)
    requires Describes(p, items)
    ensures Describes(p, items + [Language(name, [])])
  {
    var more := items + [Language(name, [])];
    assert more[..|items|] == items;
    forall language ensures DefinesOf(more, language) == DefinesOf(items, language) {
    }
  }

  /** The two nested loops of `Profile` that fill the response. */
  method FillProfile(items: seq<Language>) returns (resp: Profile)
    ensures Describes(resp, items)
  {
    resp := map[];
    for i := 0 to |items|
      invariant Describes(resp, items[..i])
    {
      var item := items[i];
      NoneDefined(resp, items[..i], item.name);
      assert item.defines[..0] == [];
      for j := 0 to |item.defines|
        invariant Describes(resp, items[..i] + [Language(item.name, item.defines[..j])])
      {
        Defined(resp, items[..i], item, j);
        var inner := if item.name in resp then resp[item.name] else map[];
        resp := resp[item.name := inner[Name(item.defines[j]) := item.defines[j].value]];
      }
      assert item.defines[..|item.defines|] == item.defines;
      assert items[..i + 1] == items[..i] + [Language(item.name, item.defines)];
    }
    assert items[..|items|] == items;
  }

  // ----- what the profile holds, without the functions above

  /** The j-th definition of the i-th row gives this language this name: group, dot and key. */
  ghost predicate Defines(items: seq<Language>, i: nat, j: nat, language: string, name: string) {
    && i < |items| && j < |items[i].defines| && items[i].name == language
    && items[i].defines[j].group + "." + items[i].defines[j].key == name
  }

  /** And none after it does. */
  ghost predicate DefinesLast(items: seq<Language>, i: nat, j: nat, language: string, name: string) {
    && Defines(items, i, j, language, name)
    && forall k: nat, l: nat :: Defines(items, k, l, language, name) ==> k < i || (k == i && l <= j)
  }

  lemma {:induction false} LastValueAppended(a: seq<Definition>, b: seq<Definition>, name: string)
    ensures LastValue(a + b, name) == if LastValue(b, name).Some? then LastValue(b, name) else LastValue(a, name)
  {
    if b != [] {
      LastValueAppended(a, b[..|b| - 1], name);
      assert (a + b)[..|a + b| - 1] == a + b[..|b| - 1];
    } else {
      assert a + b == a;
    }
  }

  lemma {:induction false} LastValueIs(defines: seq<Definition>, name: string)
    ensures LastValue(defines, name) == None ==> forall k :: 0 <= k < |defines| ==> defines[k].group + "." + defines[k].key != name
    ensures LastValue(defines, name).Some? ==> exists k: nat :: IsLastNamed(defines, k, name) && Some(defines[k].value) == LastValue(defines, name)
  {
    if defines != [] {
      var last := |defines| - 1;
      LastValueIs(defines[..last], name);
      if Name(defines[last]) == name {
        assert IsLastNamed(defines, last, name);
      } else if LastValue(defines, name).Some? {
        var k: nat :| IsLastNamed(defines[..last], k, name) && Some(defines[k].value) == LastValue(defines, name);
        assert IsLastNamed(defines, k, name);
      }
    }
  }

  ghost predicate IsLastNamed(defines: seq<Definition>, k: nat, name: string) {
    && k < |defines| && defines[k].group + "." + defines[k].key == name
    && forall l :: k < l < |defines| ==> defines[l].group + "." + defines[l].key != name
  }

  lemma {:induction false} LastDefined(items: seq<Language>, language: string, name: string)
    ensures LastValue(DefinesOf(items, language), name) == None ==> forall i: nat, j: nat :: !Defines(items, i, j, language, name)
    ensures LastValue(DefinesOf(items, language), name).Some? ==>
      exists i: nat, j: nat :: DefinesLast(items, i, j, language, name) && Some(items[i].defines[j].value) == LastValue(DefinesOf(items, language), name)
  {
    if items != [] {
      var n := |items| - 1;
      LastDefined(items[..n], language, name);
      LastValueAppended(DefinesOf(items[..n], language), if items[n].name == language then items[n].defines else [], name);
      LastValueIs(items[n].defines, name);
      hide LastValue, DefinesOf;
      if items[n].name == language && LastValue(items[n].defines, name).Some? {
        var k: nat :| IsLastNamed(items[n].defines, k, name) && Some(items[n].defines[k].value) == LastValue(items[n].defines, name);
        LastNamedDefines(items, k, language, name);
      } else {
        assert LastValue([], name) == None by { NothingNamed(name); }
        NotInLast(items, language, name);
      }
    }
  }

  lemma NothingNamed(name: string)
    ensures LastValue([], name) == None
  {
  }

  /** Where the last row does not define a name, the rows before it decide. */
  lemma NotInLast(items: seq<Language>, language: string, name: string)
    requires items != []
    requires var last := items[|items| - 1];
             last.name == language ==> forall k :: 0 <= k < |last.defines| ==> last.defines[k].group + "." + last.defines[k].key != name
    ensures forall i: nat, j: nat :: Defines(items, i, j, language, name) <==> Defines(items[..|items| - 1], i, j, language, name)
    ensures forall i: nat, j: nat :: DefinesLast(items[..|items| - 1], i, j, language, name) ==> DefinesLast(items, i, j, language, name)
  {
  }

  lemma LastNamedDefines(items: seq<Language>, k: nat, language: string, name: string)
    requires items != [] && items[|items| - 1].name == language && IsLastNamed(items[|items| - 1].defines, k, name)
    ensures DefinesLast(items, |items| - 1, k, language, name)
  {
  }

  /** Every definition is found under its language and its group, a dot and its key; what is
      found there is the value of the last definition that gives this name; and a language
      without definitions is not listed. */
  lemma FoundUnderName(p: Profile, items: seq<Language>)
    requires Describes(p, items)
    ensures forall i: nat, j: nat, language, name :: Defines(items, i, j, language, name) ==> language in p && name in p[language]
    ensures forall language, name :: language in p && name in p[language] ==>
      exists i: nat, j: nat :: DefinesLast(items, i, j, language, name) && items[i].defines[j].value == p[language][name]
    ensures forall language :: language in p ==> p[language] != map[]
  {
    forall i: nat, j: nat, language, name | Defines(items, i, j, language, name) ensures language in p && name in p[language] {
      LastDefined(items, language, name);
      assert Lookup(p, language, name).Some?;
    }
    forall language, name | language in p && name in p[language]
      ensures exists i: nat, j: nat :: DefinesLast(items, i, j, language, name) && items[i].defines[j].value == p[language][name]
    {
      LastDefined(items, language, name);
      assert Lookup(p, language, name) == Some(p[language][name]);
    }
    forall language | language in p ensures p[language] != map[] {
      var ds := DefinesOf(items, language);
      var d := ds[|ds| - 1];
      assert Lookup(p, language, Name(d)) == LastValue(ds, Name(d)) == Some(d.value);
    }
  }

  // ----- the shared database and cache

  /** The primary database and the cache. Every access is one atomic step, and any
      number of steps of other parties may come before it. `alone` says that this time
      there are none and that no access fails. */
  class Backend {
    var now: Shared
    const alone: bool

    ghost predicate Valid()
      reads this
    {
      SharedInv(now)
    }

    constructor (p: Profile, alone: bool)
      ensures Valid() && this.alone == alone && now == Shared([p], [{}], 0, map[])
    {
      this.alone := alone;
      now := Shared([p], [{}], 0, map[]);
    }

    /** Steps of other parties. All that callers learn is what `LanguageCache.ApplyKeeps`
        proves of every step. */
    method Others()
      requires Valid()
      modifies this
      ensures Valid() && Extends(old(now), now) && (alone ==> now == old(now))
    {
    }

    /** Whether the access at hand fails: a timeout, a lost connection. */
    method Fails() returns (failed: bool)
      ensures alone ==> !failed
    {
      if alone {
        return false;
      }
      failed := *;
    }

    method Generation() returns (g: Option<nat>)
      requires Valid()
      modifies this
      ensures Valid() && Extends(old(now), now)
      ensures g.Some? ==> g.value == now.generation
      ensures alone ==> g.Some? && now == old(now)
    {
      Others();
      var failed := Fails();
      g := if failed then None else Some(now.generation);
    }

    method Snapshot(g: nat) returns (failed: bool, payload: Option<Payload>)
      requires Valid()
      modifies this
      ensures Valid() && Extends(old(now), now)
      ensures payload.Some? ==> g in now.snapshots && now.snapshots[g] == payload.value
      ensures alone ==> !failed && now == old(now) && (payload.Some? <==> g in now.snapshots)
    {
      Others();
      failed := Fails();
      payload := if failed || g !in now.snapshots then None else Some(now.snapshots[g]);
    }

    method Delete(g: nat)
      requires Valid()
      modifies this
      ensures Valid() && Extends(old(now), now)
      ensures alone ==> now == Drop(old(now), g)
    {
      Others();
      var failed := Fails();
      if !failed {
        DropKeeps(now, g);
        now := Drop(now, g);
      }
    }

    method Set(g: nat, p: Profile) returns (failed: bool)
      requires Valid() && Fresh(now, p, g)
      modifies this
      ensures Valid() && Extends(old(now), now)
      ensures alone ==> !failed && now == Put(old(now), g, Encoded(p))
    {
      ghost var before := now;
      Others();
      FreshExtends(before, now, p, g);
      failed := Fails();
      if !failed {
        PutKeeps(now, g, Encoded(p));
        now := Put(now, g, Encoded(p));
      }
    }

    method Increment(v: nat) returns (failed: bool)
      requires Valid() && v < |now.history|
      modifies this
      ensures Valid() && Extends(old(now), now)
      ensures !failed ==> v in Invalidated(now)
      ensures alone ==> !failed && now == Bump(old(now), v)
    {
      Others();
      failed := Fails();
      if !failed {
        BumpKeeps(now, v);
        now := Bump(now, v);
      }
    }

    method Current() returns (p: Option<Profile>)
      requires Valid()
      modifies this
      ensures Valid() && Extends(old(now), now)
      ensures p.Some? ==> p.value == now.history[|now.history| - 1]
      ensures alone ==> p.Some? && now == old(now)
    {
      Others();
      var failed := Fails();
      p := if failed then None else Some(now.history[|now.history| - 1]);
    }

    method CommitProfile(p: Profile) returns (v: nat)
      requires Valid()
      modifies this
      ensures Valid() && Extends(old(now), now)
      ensures v < |now.history| && now.history[v] == p
      ensures alone ==> v == |old(now).history| && now == Commit(old(now), p)
    {
      Others();
      v := |now.history|;
      CommitKeeps(now, p);
      now := Commit(now, p);
    }
  }

  datatype LoadResult =
    | LoadError
    | Miss(generation: nat)
    | Hit(profile: Profile, generation: nat)

  /** A load that nobody disturbs: what it answers and what it leaves behind. */
  function LoadedAlone(s: Shared): (LoadResult, Shared) {
    if s.generation !in s.snapshots then (Miss(s.generation), s)
    else
      match s.snapshots[s.generation]
      case Garbage => (Miss(s.generation), Drop(s, s.generation))
      case Encoded(p) => (Hit(p, s.generation), s)
  }

  /** And a whole request: a miss stores the current profile. */
  function ServedAlone(s: Shared): Shared
    requires s.history != []
  {
    var (loaded, t) := LoadedAlone(s);
    if loaded.Hit? then t else Put(t, t.generation, Encoded(s.history[|s.history| - 1]))
  }

  /** `LoadLanguageProfileCache`. */
  method LoadProfileCache(cache: Backend) returns (r: LoadResult)
    requires cache.Valid()
    modifies cache
    ensures cache.Valid() && Extends(old(cache.now), cache.now)
    ensures r.Hit? ==> Reflects(cache.now, r.profile)
    ensures r.Miss? ==> r.generation <= cache.now.generation
    ensures cache.alone ==> (r, cache.now) == LoadedAlone(old(cache.now))
    ensures cache.alone ==>
      var s, g := old(cache.now), old(cache.now).generation;
      && cache.now == s.(snapshots := cache.now.snapshots)
      && (g !in s.snapshots ==> r == Miss(g) && cache.now.snapshots == s.snapshots)
      && (g in s.snapshots && s.snapshots[g].Encoded? ==> r == Hit(s.snapshots[g].profile, g) && cache.now.snapshots == s.snapshots)
      && (g in s.snapshots && s.snapshots[g].Garbage? ==> r == Miss(g) && cache.now.snapshots == s.snapshots - {g})
  {
    var generation := cache.Generation();
    if generation == None {
      return LoadError;
    }
    var failed, payload := cache.Snapshot(generation.value);
    if failed {
      return LoadError;
    }
    if payload == None {
      return Miss(generation.value);
    }
    if payload.value.Garbage? {
      cache.Delete(generation.value);
      return Miss(generation.value);
    }
    var profile := payload.value.profile;
    ghost var seen := cache.now;
    var current := cache.Generation();
    if current == None {
      return LoadError;
    }
    if current.value != generation.value {
      return Miss(current.value);
    }
    FreshExtends(seen, cache.now, profile, generation.value);
    ghost var v :| SeenAt(cache.now, profile, cache.now.generation, v);
    return Hit(profile, generation.value);
  }

  /** `StoreLanguageProfileCache`: sound for a profile read after the generation was. */
  method StoreProfileCache(cache: Backend, generation: nat, profile: Profile) returns (stored: bool)
    requires cache.Valid() && Fresh(cache.now, profile, generation)
    modifies cache
    ensures cache.Valid() && Extends(old(cache.now), cache.now)
    ensures cache.alone ==> stored == (generation == old(cache.now).generation)
    ensures cache.alone ==> cache.now == if stored then Put(old(cache.now), generation, Encoded(profile)) else old(cache.now)
    ensures cache.alone && stored ==> cache.now == old(cache.now).(snapshots := old(cache.now.snapshots)[generation := Encoded(profile)])
  {
    ghost var seen := cache.now;
    var current := cache.Generation();
    FreshExtends(seen, cache.now, profile, generation);
    if current == None || current.value != generation {
      return false;
    }
    var failed := cache.Set(generation, profile);
    return !failed;
  }

  /** `Profile`: what it serves includes every write whose invalidation had completed
      when the request began, whether it comes from the cache or from the database. */
  method ServeProfile(cache: Backend) returns (served: Option<Profile>)
    requires cache.Valid()
    modifies cache
    ensures cache.Valid() && Extends(old(cache.now), cache.now)
    ensures served.Some? ==>
      exists v :: 0 <= v < |cache.now.history| && cache.now.history[v] == served.value
                  && forall w :: w in Invalidated(old(cache.now)) ==> w <= v
    ensures cache.alone ==> served.Some? && cache.now == ServedAlone(old(cache.now))
    ensures cache.alone ==>
      var s, g := old(cache.now), old(cache.now).generation;
      && served == Some(if g in s.snapshots && s.snapshots[g].Encoded? then s.snapshots[g].profile else s.history[|s.history| - 1])
      && cache.now == s.(snapshots := s.snapshots[g := Encoded(served.value)])
  {
    ghost var start := cache.now;
    var loaded := LoadProfileCache(cache);
    Older(start, cache.now);
    if loaded.Hit? {
      return Some(loaded.profile);
    }
    served := cache.Current();
    if served == None {
      return;
    }
    ghost var v := |cache.now.history| - 1;
    Older(start, cache.now);
    if loaded.Miss? {
      CurrentIsFresh(cache.now, loaded.generation);
      var stored := StoreProfileCache(cache, loaded.generation, served.value);
    }
    assert cache.now.history[v] == served.value;
  }

  lemma Older(s: Shared, t: Shared)
    requires SharedInv(s) && SharedInv(t) && Extends(s, t)
    ensures Invalidated(s) <= Invalidated(t)
    ensures forall w :: w in Invalidated(s) ==> w < |s.history|
  {
    assert t.sealed[s.generation] == s.sealed[s.generation];
  }

  /** `ManagedCreate` and `ManagedUpdate`: commit, then invalidate. Once the
      invalidation succeeds, no hit can be older than this write. */
  method WriteProfile(cache: Backend, p: Profile) returns (v: nat, invalidated: bool)
    requires cache.Valid()
    modifies cache
    ensures cache.Valid() && Extends(old(cache.now), cache.now)
    ensures v < |cache.now.history| && cache.now.history[v] == p
    ensures invalidated ==> v in Invalidated(cache.now)
    ensures cache.alone ==> invalidated && cache.now == Bump(Commit(old(cache.now), p), |old(cache.now).history|)
    ensures cache.alone ==>
      cache.now.history == old(cache.now.history) + [p] && cache.now.generation == old(cache.now.generation) + 1
      && cache.now.snapshots == old(cache.now.snapshots)
  {
    v := cache.CommitProfile(p);
    var failed := cache.Increment(v);
    invalidated := !failed;
  }
}
