/** The generation-stamped language snapshot cache of admin/pkg/language_cache.go with
    its readers and writers in admin/apis/language.go, one shared access at a time. */
module LanguageCache {

  type Profile = map<string, map<string, string>>

  /** A cached value: a marshalled profile, or bytes that do not unmarshal. */
  datatype Payload = Encoded(profile: Profile) | Garbage

  /** The database and the cache. `history[v]` is the profile after the v-th commit,
      the last one being current. `sealed[g]` is a history variable: the versions whose
      invalidation had completed when the generation became g. */
  datatype Shared = Shared(
    history: seq<Profile>,
    sealed: seq<set<nat>>,
    generation: nat,
    snapshots: map<nat, Payload>)

  ghost predicate SharedInv(s: Shared) {
    && |s.history| > 0
    && |s.sealed| == s.generation + 1
    && (forall g, v :: 0 <= g < |s.sealed| && v in s.sealed[g] ==> v < |s.history|)
    && (forall g, h :: 0 <= g <= h < |s.sealed| ==> s.sealed[g] <= s.sealed[h])
    && (forall g :: g in s.snapshots && s.snapshots[g].Encoded? ==> Fresh(s, s.snapshots[g].profile, g))
  }

  /** p was the current profile at some version no older than every version whose
      invalidation made the generation g or less. */
  ghost predicate Fresh(s: Shared, p: Profile, g: nat) {
    g < |s.sealed| && exists v :: SeenAt(s, p, g, v)
  }

  ghost predicate SeenAt(s: Shared, p: Profile, g: nat, v: nat) {
    g < |s.sealed| && v < |s.history| && s.history[v] == p && forall w :: w in s.sealed[g] ==> w <= v
  }

  /** History only grows. */
  ghost predicate Extends(s: Shared, t: Shared) {
    s.history <= t.history && s.sealed <= t.sealed && s.generation <= t.generation
  }

  lemma FreshExtends(s: Shared, t: Shared, p: Profile, g: nat)
    requires Fresh(s, p, g) && Extends(s, t)
    ensures Fresh(t, p, g)
  {
    var v :| SeenAt(s, p, g, v);
    assert SeenAt(t, p, g, v);
  }

  /** A database read reflects every write committed so far. */
  lemma CurrentIsFresh(s: Shared, g: nat)
    requires SharedInv(s) && g <= s.generation
    ensures Fresh(s, s.history[|s.history| - 1], g)
  {
    assert SeenAt(s, s.history[|s.history| - 1], g, |s.history| - 1);
  }

  // ----- atomic accesses

  function Commit(s: Shared, p: Profile): Shared {
    s.(history := s.history + [p])
  }

  /** `cache.Incr`, by the writer of version v. */
  function Bump(s: Shared, v: nat): Shared {
    if s.sealed == [] then s
    else s.(generation := s.generation + 1, sealed := s.sealed + [s.sealed[|s.sealed| - 1] + {v}])
  }

  function Put(s: Shared, g: nat, p: Payload): Shared {
    s.(snapshots := s.snapshots[g := p])
  }

  /** Expiry, eviction or deletion of a snapshot. */
  function Drop(s: Shared, g: nat): Shared {
    s.(snapshots := s.snapshots - {g})
  }

  lemma CommitKeeps(s: Shared, p: Profile)
    requires SharedInv(s)
    ensures SharedInv(Commit(s, p)) && Extends(s, Commit(s, p))
  {
    var t := Commit(s, p);
    forall g | g in t.snapshots && t.snapshots[g].Encoded? ensures Fresh(t, t.snapshots[g].profile, g) {
      FreshExtends(s, t, s.snapshots[g].profile, g);
    }
  }

  lemma BumpKeeps(s: Shared, v: nat)
    requires SharedInv(s) && v < |s.history|
    ensures SharedInv(Bump(s, v)) && Extends(s, Bump(s, v))
  {
    var t := Bump(s, v);
    forall g | g in t.snapshots && t.snapshots[g].Encoded? ensures Fresh(t, t.snapshots[g].profile, g) {
      FreshExtends(s, t, s.snapshots[g].profile, g);
    }
  }

  lemma PutKeeps(s: Shared, g: nat, p: Payload)
    requires SharedInv(s) && (p.Encoded? ==> Fresh(s, p.profile, g))
    ensures SharedInv(Put(s, g, p)) && Extends(s, Put(s, g, p))
  {
    var t := Put(s, g, p);
    forall h | h in t.snapshots && t.snapshots[h].Encoded? ensures Fresh(t, t.snapshots[h].profile, h) {
      FreshExtends(s, t, t.snapshots[h].profile, h);
    }
  }

  lemma DropKeeps(s: Shared, g: nat)
    requires SharedInv(s)
    ensures SharedInv(Drop(s, g)) && Extends(s, Drop(s, g))
  {
    var t := Drop(s, g);
    forall h | h in t.snapshots && t.snapshots[h].Encoded? ensures Fresh(t, t.snapshots[h].profile, h) {
      FreshExtends(s, t, t.snapshots[h].profile, h);
    }
  }

  // ----- readers and writers

  /** Where a `Profile` request stands between two shared accesses. */
  datatype Reader =
    | Idle
    | Observed(g: nat)                    // load: generation read
    | Fetched(g: nat, p: Payload)         // load: payload read
    | Missed(ready: bool, g: nat)         // no hit; `ready` permits a later store
    | Loaded(ready: bool, g: nat, profile: Profile)  // database read, response sent
    | Storing(g: nat, profile: Profile)   // store: generation found unchanged
    | Served(profile: Profile)            // answered from the cache

  /** A `ManagedCreate` or `ManagedUpdate`: after the commit, before the increment. */
  datatype Writer = Resting | Committed(v: nat)

  datatype State = State(shared: Shared, readers: map<nat, Reader>, writers: map<nat, Writer>)

  datatype Action =
    | Advance(r: nat, fails: bool)   // the reader's next access, which may fail
    | Write(w: nat, p: Profile)      // commit a new profile
    | Invalidate(w: nat, fails: bool)
    | Expire(g: nat)
    | Corrupt(g: nat)                // a value of foreign origin that does not unmarshal

  function Pc(s: State, r: nat): Reader {
    if r in s.readers then s.readers[r] else Idle
  }

  function At(s: State, r: nat, pc: Reader): State {
    s.(readers := s.readers[r := pc])
  }

  /** One access of reader r. */
  function Read(s: State, r: nat, fails: bool): State {
    var sh := s.shared;
    match Pc(s, r)
    case Idle => At(s, r, if fails then Missed(false, 0) else Observed(sh.generation))
    case Served(_) => At(s, r, if fails then Missed(false, 0) else Observed(sh.generation))
    case Observed(g) =>
      if fails then At(s, r, Missed(false, 0))
      else if g !in sh.snapshots then At(s, r, Missed(true, g))
      else At(s, r, Fetched(g, sh.snapshots[g]))
    case Fetched(g, Garbage) =>
      At(s.(shared := if fails then sh else Drop(sh, g)), r, Missed(true, g))
    case Fetched(g, Encoded(p)) =>
      if fails then At(s, r, Missed(false, 0))
      else if sh.generation != g then At(s, r, Missed(true, sh.generation))
      else At(s, r, Served(p))
    case Missed(ready, g) =>
      if fails || |sh.history| == 0 then At(s, r, Idle)
      else At(s, r, Loaded(ready, g, sh.history[|sh.history| - 1]))
    case Loaded(ready, g, p) =>
      if fails || !ready || sh.generation != g then At(s, r, Idle) else At(s, r, Storing(g, p))
    case Storing(g, p) =>
      At(s.(shared := if fails then sh else Put(sh, g, Encoded(p))), r, Idle)
  }

  /** Any step of any party; a step that is not enabled changes nothing. */
  function Apply(s: State, a: Action): State {
    match a
    case Advance(r, fails) => Read(s, r, fails)
    case Write(w, p) =>
      s.(shared := Commit(s.shared, p), writers := s.writers[w := Committed(|s.shared.history|)])
    case Invalidate(w, fails) =>
      if w !in s.writers || s.writers[w].Resting? then s
      else s.(shared := if fails then s.shared else Bump(s.shared, s.writers[w].v), writers := s.writers[w := Resting])
    case Expire(g) => s.(shared := Drop(s.shared, g))
    case Corrupt(g) => s.(shared := Put(s.shared, g, Garbage))
  }

  /** The state after an interleaving. */
  function Run(s: State, actions: seq<Action>): State {
    if actions == [] then s else Apply(Run(s, actions[..|actions| - 1]), actions[|actions| - 1])
  }

  function Initial(p: Profile): State {
    State(Shared([p], [{}], 0, map[]), map[], map[])
  }

  /** What a reader in flight holds is fresh for the generation it goes with. */
  ghost predicate ReaderInv(s: Shared, pc: Reader) {
    match pc
    case Observed(g) => g <= s.generation
    case Fetched(g, Encoded(p)) => Fresh(s, p, g)
    case Fetched(g, Garbage) => g <= s.generation
    case Missed(ready, g) => ready ==> g <= s.generation
    case Loaded(ready, g, p) => ready ==> Fresh(s, p, g)
    case Storing(g, p) => Fresh(s, p, g)
    case _ => true
  }

  ghost predicate Inv(s: State) {
    && SharedInv(s.shared)
    && (forall r :: r in s.readers ==> ReaderInv(s.shared, s.readers[r]))
    && (forall w :: w in s.writers && s.writers[w].Committed? ==> s.writers[w].v < |s.shared.history|)
  }

  lemma ReaderExtends(s: Shared, t: Shared, pc: Reader)
    requires ReaderInv(s, pc) && Extends(s, t)
    ensures ReaderInv(t, pc)
  {
    match pc
    case Fetched(g, Encoded(p)) => FreshExtends(s, t, p, g);
    case Loaded(ready, g, p) => if ready { FreshExtends(s, t, p, g); }
    case Storing(g, p) => FreshExtends(s, t, p, g);
    case _ =>
  }

  lemma OthersKeep(s: State, t: Shared)
    requires Inv(s) && Extends(s.shared, t)
    ensures forall r :: r in s.readers ==> ReaderInv(t, s.readers[r])
  {
    forall r | r in s.readers ensures ReaderInv(t, s.readers[r]) {
      ReaderExtends(s.shared, t, s.readers[r]);
    }
  }

  lemma ReadKeeps(s: State, r: nat, fails: bool)
    requires Inv(s)
    ensures Inv(Read(s, r, fails)) && Extends(s.shared, Read(s, r, fails).shared)
  {
    var sh := s.shared;
    assert ReaderInv(sh, Pc(s, r));
    match Pc(s, r)
    case Fetched(g, Garbage) =>
      DropKeeps(sh, g);
      OthersKeep(s, Drop(sh, g));
    case Missed(ready, g) =>
      if ready { CurrentIsFresh(sh, g); }
    case Storing(g, p) =>
      PutKeeps(sh, g, Encoded(p));
      OthersKeep(s, Put(sh, g, Encoded(p)));
    case _ =>
  }

  lemma ApplyKeeps(s: State, a: Action)
    requires Inv(s)
    ensures Inv(Apply(s, a)) && Extends(s.shared, Apply(s, a).shared)
  {
    match a
    case Advance(r, fails) => ReadKeeps(s, r, fails);
    case Write(w, p) =>
      CommitKeeps(s.shared, p);
      OthersKeep(s, Commit(s.shared, p));
    case Invalidate(w, fails) =>
      if w in s.writers && s.writers[w].Committed? {
        BumpKeeps(s.shared, s.writers[w].v);
        OthersKeep(s, Bump(s.shared, s.writers[w].v));
      }
    case Expire(g) =>
      DropKeeps(s.shared, g);
      OthersKeep(s, Drop(s.shared, g));
    case Corrupt(g) =>
      PutKeeps(s.shared, g, Garbage);
      OthersKeep(s, Put(s.shared, g, Garbage));
  }

  lemma {:induction false} RunKeeps(p: Profile, actions: seq<Action>)
    ensures Inv(Run(Initial(p), actions))
  {
    if actions != [] {
      RunKeeps(p, actions[..|actions| - 1]);
      ApplyKeeps(Run(Initial(p), actions[..|actions| - 1]), actions[|actions| - 1]);
    }
  }

  /** The versions whose invalidation has completed. */
  function Invalidated(s: Shared): set<nat> {
    if s.sealed == [] then {} else s.sealed[|s.sealed| - 1]
  }

  /** The next step of reader r answers its request from the cache, with p. */
  predicate Serves(s: State, r: nat, p: Profile) {
    !Pc(s, r).Served? && Pc(Read(s, r, false), r) == Served(p)
  }

  /** p was current at or after every write whose invalidation is complete. */
  ghost predicate Reflects(s: Shared, p: Profile) {
    exists v :: 0 <= v < |s.history| && s.history[v] == p && forall w :: w in Invalidated(s) ==> w <= v
  }

  /** A reader that serves holds a profile fresh for the current generation. */
  lemma ServedIsFresh(s: State, r: nat, p: Profile)
    requires ReaderInv(s.shared, Pc(s, r)) && Serves(s, r, p)
    ensures Fresh(s.shared, p, s.shared.generation)
  {
    hide Fresh;
  }

  lemma FreshReflects(s: Shared, p: Profile)
    requires SharedInv(s) && Fresh(s, p, s.generation)
    ensures Reflects(s, p)
  {
    var v :| SeenAt(s, p, s.generation, v);
  }

  /** Freshness: in every interleaving, a request answered from the cache gets a
      profile that was current at or after every write whose invalidation completed
      before the load's final generation check. */
  lemma HitsAreFresh(p: Profile, actions: seq<Action>, r: nat, served: Profile)
    requires Serves(Run(Initial(p), actions), r, served)
    ensures Reflects(Run(Initial(p), actions).shared, served)
  {
    RunKeeps(p, actions);
    var s := Run(Initial(p), actions);
    assert ReaderInv(s.shared, Pc(s, r));
    hide Run, Read, Fresh, ReaderInv, Serves;
    ServedIsFresh(s, r, served);
    FreshReflects(s.shared, served);
  }

  /** A completed invalidation is recorded for ever, with the version it announces. */
  lemma InvalidationRecorded(s: State, w: nat, later: seq<Action>)
    requires Inv(s) && w in s.writers && s.writers[w].Committed?
    ensures s.writers[w].v in Invalidated(Run(Apply(s, Invalidate(w, false)), later).shared)
  {
    var t := Apply(s, Invalidate(w, false));
    ApplyKeeps(s, Invalidate(w, false));
    RunExtends(t, later);
    var u := Run(t, later).shared;
    assert u.sealed[t.shared.generation] == t.shared.sealed[t.shared.generation];
    assert u.sealed[t.shared.generation] <= u.sealed[u.generation];
  }

  lemma {:induction false} RunExtends(s: State, actions: seq<Action>)
    requires Inv(s)
    ensures Inv(Run(s, actions)) && Extends(s.shared, Run(s, actions).shared)
  {
    if actions != [] {
      RunExtends(s, actions[..|actions| - 1]);
      ApplyKeeps(Run(s, actions[..|actions| - 1]), actions[|actions| - 1]);
    }
  }

  /** n accesses of reader r with nothing else in between. */
  function Alone(s: State, r: nat, n: nat): State {
    if n == 0 then s else Read(Alone(s, r, n - 1), r, false)
  }

  /** The cache does serve: undisturbed, a request that misses stores what the next
      request then gets without touching the database. */
  lemma MissStores(s: State, q: nat)
    requires Inv(s) && Pc(s, q) == Idle && s.shared.generation !in s.shared.snapshots
    ensures var sh := s.shared;
            var current := sh.history[|sh.history| - 1];
            Alone(s, q, 5) == At(s.(shared := sh.(snapshots := sh.snapshots[sh.generation := Encoded(current)])), q, Idle)
  {
    var sh := s.shared;
    MissLoads(s, q);
    assert Alone(s, q, 4) == At(s, q, Storing(sh.generation, sh.history[|sh.history| - 1]));
  }

  lemma MissLoads(s: State, q: nat)
    requires Inv(s) && Pc(s, q) == Idle && s.shared.generation !in s.shared.snapshots
    ensures Alone(s, q, 3) == At(s, q, Loaded(true, s.shared.generation, s.shared.history[|s.shared.history| - 1]))
  {
    assert Alone(s, q, 1) == At(s, q, Observed(s.shared.generation));
    assert Alone(s, q, 2) == At(s, q, Missed(true, s.shared.generation));
  }

  lemma StoredIsHit(s: State, r: nat, p: Profile)
    requires Pc(s, r) == Idle
    requires s.shared.generation in s.shared.snapshots && s.shared.snapshots[s.shared.generation] == Encoded(p)
    ensures Alone(s, r, 3) == At(s, r, Served(p))
  {
    assert Alone(s, r, 1) == At(s, r, Observed(s.shared.generation));
    assert Alone(s, r, 2) == At(s, r, Fetched(s.shared.generation, Encoded(p)));
  }
}
