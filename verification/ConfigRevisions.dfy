/** Revisioned configuration writes, admin/models/app_config.go and
    admin/models/user_config.go: transactions that lock the revisions of their scope, write
    one row and advance the revisions, under any interleaving. */
module ConfigRevisions {
  import opened Text

  /** The application, or one user. Both scopes follow the same protocol. */
  datatype Owner = Application | User(id: string)

  datatype Request = Request(owner: Owner, group: string, name: string, auth: bool, value: string)

  datatype Row = Row(owner: Owner, group: string, name: string, auth: bool, value: string)

  /** public-profile or user-profile, and theme. */
  datatype Resource = Profile(owner: Owner) | Theme(owner: Owner)

  datatype Db = Db(revisions: map<Resource, int>, rows: map<nat, Row>)

  /** When the two queries of exactAppConfigCandidates find a stored (group, name) for a
      requested one: by the database's own comparison, and with trailing blanks cut off.
      The canonical spelling of a group, and which user ids are blank. */
  datatype Rules = Rules(
    matches: ((string, string), (string, string)) -> bool,
    trimmed: ((string, string), (string, string)) -> bool,
    canonical: string -> string,
    blank: string -> bool)

  const THEME := "theme"
  const MAX_REVISION := 0x7fff_ffff_ffff_ffff

  ghost predicate Reflexive(rules: Rules) {
    forall group, name :: rules.matches((group, name), (group, name))
  }

  // ----- one transaction by itself

  predicate InTheme(r: Request) {
    r.group == THEME
  }

  /** The guards in front of the transaction. */
  predicate Accepts(r: Request, rules: Rules) {
    && (r.owner.User? ==> !rules.blank(r.owner.id))
    && r.name != "" && (rules.canonical(r.group) == THEME ==> r.group == THEME)
  }

  function Rev(db: Db, r: Resource): int {
    if r in db.revisions then db.revisions[r] else 0
  }

  function RowOf(r: Request): Row {
    Row(r.owner, r.group, r.name, r.auth, r.value)
  }

  predicate IsExact(row: Row, r: Request) {
    row.owner == r.owner && row.group == r.group && row.name == r.name
  }

  predicate IsCandidate(row: Row, r: Request, rules: Rules) {
    row.owner == r.owner && (rules.matches((row.group, row.name), (r.group, r.name)) || rules.trimmed((row.group, row.name), (r.group, r.name)))
  }

  function Candidates(rows: map<nat, Row>, r: Request, rules: Rules): set<nat> {
    set id | id in rows && IsCandidate(rows[id], r, rules)
  }

  /** The row upsertExact writes: the only candidate if it is exact, a new one if there is
      none, and otherwise none at all. */
  ghost function Target(rows: map<nat, Row>, r: Request, newId: nat, rules: Rules): Option<nat> {
    var candidates := Candidates(rows, r, rules);
    if candidates == {} then Some(newId)
    else
      var id :| id in candidates;
      if candidates == {id} && IsExact(rows[id], r) then Some(id) else None
  }

  predicate CanAdvance(revision: int) {
    0 <= revision < MAX_REVISION
  }

  function Advanced(db: Db, r: Request): map<Resource, int> {
    var profile := db.revisions[Profile(r.owner) := Rev(db, Profile(r.owner)) + 1];
    if InTheme(r) then profile[Theme(r.owner) := Rev(db, Theme(r.owner)) + 1] else profile
  }

  /** The transaction run alone: the new database, or None when it fails and rolls back. */
  ghost function Serial(db: Db, r: Request, newId: nat, rules: Rules): Option<Db> {
    var target := Target(db.rows, r, newId, rules);
    if CanAdvance(Rev(db, Profile(r.owner))) && (InTheme(r) ==> CanAdvance(Rev(db, Theme(r.owner)))) && target.Some?
    then Some(Db(Advanced(db, r), db.rows[target.value := RowOf(r)]))
    else None
  }

  // ----- interleaved transactions

  datatype Stage = Waiting | HasProfile | HasLocks | Wrote | AdvancedProfile | Ready

  /** A transaction: what it read under its locks and what it is to write. `newId` is the id
      it gives to a row it inserts. */
  datatype Tx = Tx(request: Request, newId: nat, stage: Stage, profile: int, theme: int, id: nat)

  datatype Entry = Entry(request: Request, newId: nat)

  datatype State = State(
    db: Db, locks: map<Resource, nat>, txs: map<nat, Tx>, nextId: nat, history: seq<Entry>)

  datatype Action =
    | Start(t: nat, request: Request)
    | LockProfile(t: nat)
    | LockTheme(t: nat)
    | Upsert(t: nat)
    | AdvanceProfile(t: nat)
    | AdvanceTheme(t: nat)
    | Commit(t: nat)
    | Abort(t: nat)         // any database error, at any point

  function Reached(x: Tx): nat {
    match x.stage
    case Waiting => 0
    case HasProfile => 1
    case HasLocks => 2
    case Wrote => 3
    case AdvancedProfile => 4
    case Ready => 5
  }

  function Moved(s: State, t: nat, x: Tx): State {
    s.(txs := s.txs[t := x])
  }

  /** The transaction ends and its locks are released. */
  function Ended(s: State, t: nat): State {
    s.(txs := s.txs - {t}, locks := map r | r in s.locks && s.locks[r] != t :: s.locks[r])
  }

  function Locked(s: State, t: nat, r: Resource): State {
    s.(locks := s.locks[r := t])
  }

  function StartTx(s: State, t: nat, r: Request, rules: Rules): State {
    if t in s.txs || !Accepts(r, rules) then s
    else s.(txs := s.txs[t := Tx(r, s.nextId, Waiting, 0, 0, 0)], nextId := s.nextId + 1)
  }

  function LockProfileTx(s: State, t: nat, x: Tx): State {
    var r := Profile(x.request.owner);
    if r in s.locks then s                        // blocked
    else if Rev(s.db, r) < 0 then Ended(s, t)
    else Moved(Locked(s, t, r), t, x.(stage := if InTheme(x.request) then HasProfile else HasLocks, profile := Rev(s.db, r)))
  }

  function LockThemeTx(s: State, t: nat, x: Tx): State {
    var r := Theme(x.request.owner);
    if r in s.locks then s                        // blocked
    else if Rev(s.db, r) < 0 then Ended(s, t)
    else Moved(Locked(s, t, r), t, x.(stage := HasLocks, theme := Rev(s.db, r)))
  }

  ghost function UpsertTx(s: State, t: nat, x: Tx, rules: Rules): State {
    var target := Target(s.db.rows, x.request, x.newId, rules);
    if target == None then Ended(s, t) else Moved(s, t, x.(stage := Wrote, id := target.value))
  }

  /** UPDATE ... WHERE revision = current: no row is affected unless the revision still is. */
  function AdvanceProfileTx(s: State, t: nat, x: Tx): State {
    if !CanAdvance(x.profile) || Rev(s.db, Profile(x.request.owner)) != x.profile then Ended(s, t)
    else Moved(s, t, x.(stage := if InTheme(x.request) then AdvancedProfile else Ready))
  }

  function AdvanceThemeTx(s: State, t: nat, x: Tx): State {
    if !CanAdvance(x.theme) || Rev(s.db, Theme(x.request.owner)) != x.theme then Ended(s, t)
    else Moved(s, t, x.(stage := Ready))
  }

  function CommitTx(s: State, t: nat, x: Tx): State {
    var profile := s.db.revisions[Profile(x.request.owner) := x.profile + 1];
    var revisions := if InTheme(x.request) then profile[Theme(x.request.owner) := x.theme + 1] else profile;
    Ended(s.(db := Db(revisions, s.db.rows[x.id := RowOf(x.request)]), history := s.history + [Entry(x.request, x.newId)]), t)
  }

  /** One step of one transaction; a step out of turn changes nothing. */
  ghost function Apply(s: State, a: Action, rules: Rules): State {
    if a.Start? then StartTx(s, a.t, a.request, rules)
    else if a.t !in s.txs then s
    else
      var x := s.txs[a.t];
      match (a, x.stage)
      case (LockProfile(t), Waiting) => LockProfileTx(s, t, x)
      case (LockTheme(t), HasProfile) => LockThemeTx(s, t, x)
      case (Upsert(t), HasLocks) => UpsertTx(s, t, x, rules)
      case (AdvanceProfile(t), Wrote) => AdvanceProfileTx(s, t, x)
      case (AdvanceTheme(t), AdvancedProfile) => AdvanceThemeTx(s, t, x)
      case (Commit(t), Ready) => CommitTx(s, t, x)
      case (Abort(t), _) => Ended(s, t)
      case _ => s
  }

  ghost function Run(s: State, actions: seq<Action>, rules: Rules): State {
    if actions == [] then s else Apply(Run(s, actions[..|actions| - 1], rules), actions[|actions| - 1], rules)
  }

  // ----- the invariant

  predicate Holds(s: State, t: nat, r: Resource) {
    r in s.locks && s.locks[r] == t
  }

  /** What a transaction read and planned still holds of the database. */
  ghost predicate Current(s: State, t: nat, x: Tx, rules: Rules) {
    && x.newId < s.nextId && x.newId !in s.db.rows
    && Accepts(x.request, rules)
    && (Reached(x) >= 1 ==> Holds(s, t, Profile(x.request.owner)) && x.profile == Rev(s.db, Profile(x.request.owner)) >= 0)
    && (Reached(x) >= 2 && InTheme(x.request) ==> Holds(s, t, Theme(x.request.owner)) && x.theme == Rev(s.db, Theme(x.request.owner)) >= 0)
    && (Reached(x) >= 3 ==> Target(s.db.rows, x.request, x.newId, rules) == Some(x.id))
    && (Reached(x) >= 4 ==> CanAdvance(x.profile))
    && (Reached(x) >= 5 && InTheme(x.request) ==> CanAdvance(x.theme))
    && (x.stage.HasProfile? || x.stage.AdvancedProfile? ==> InTheme(x.request))
  }

  /** A lock belongs to a transaction that has taken it. */
  ghost predicate Held(s: State, r: Resource)
    requires r in s.locks
  {
    var t := s.locks[r];
    t in s.txs && r.owner == s.txs[t].request.owner
    && (if r.Profile? then Reached(s.txs[t]) >= 1 else Reached(s.txs[t]) >= 2 && InTheme(s.txs[t].request))
  }

  ghost predicate Unique(rows: map<nat, Row>) {
    forall i, j :: i in rows && j in rows && SameKey(rows[i], rows[j]) ==> i == j
  }

  predicate SameKey(a: Row, b: Row) {
    a.owner == b.owner && a.group == b.group && a.name == b.name
  }

  ghost predicate Bounded(db: Db) {
    forall r :: r in db.revisions ==> db.revisions[r] <= MAX_REVISION
  }

  ghost predicate FreshApart(s: State) {
    && (forall id :: id in s.db.rows ==> id < s.nextId)
    && forall t, u :: t in s.txs && u in s.txs && s.txs[t].newId == s.txs[u].newId ==> t == u
  }

  ghost predicate AllCurrent(s: State, rules: Rules) {
    forall t :: t in s.txs ==> Current(s, t, s.txs[t], rules)
  }

  ghost predicate AllHeld(s: State) {
    forall r :: r in s.locks ==> Held(s, r)
  }

  ghost predicate Inv(s: State, rules: Rules) {
    AllCurrent(s, rules) && AllHeld(s) && FreshApart(s) && Unique(s.db.rows) && Bounded(s.db)
  }

  // ----- each step keeps it

  lemma StartKeeps(s: State, t: nat, r: Request, rules: Rules)
    requires Inv(s, rules)
    ensures Inv(StartTx(s, t, r, rules), rules)
  {
    hide Target, Unique, Bounded, Accepts;
  }

  lemma EndKeeps(s: State, t: nat, rules: Rules)
    requires Inv(s, rules)
    ensures Inv(Ended(s, t), rules)
  {
    hide Target, Unique, Bounded, Accepts;
  }

  lemma LockedKeepsOthers(s: State, t: nat, r: Resource, u: nat, y: Tx, rules: Rules)
    requires r !in s.locks && Current(s, u, y, rules)
    ensures Current(Locked(s, t, r), u, y, rules)
  {
    hide Target, Accepts;
  }

  lemma AcquireHeld(s: State, t: nat, r: Resource, x: Tx)
    requires AllHeld(s) && t in s.txs && r !in s.locks && r.owner == x.request.owner
    requires x.request == s.txs[t].request && Reached(x) >= Reached(s.txs[t])
    requires if r.Profile? then Reached(x) >= 1 else Reached(x) >= 2 && InTheme(x.request)
    ensures AllHeld(Moved(Locked(s, t, r), t, x))
  {
    var l := Moved(Locked(s, t, r), t, x);
    forall q | q in l.locks ensures Held(l, q) {
      assert q != r ==> Held(s, q);
    }
  }

  lemma AcquireCurrent(s: State, t: nat, r: Resource, x: Tx, rules: Rules)
    requires AllCurrent(s, rules) && t in s.txs && r !in s.locks
    requires Current(Locked(s, t, r), t, x, rules)
    ensures AllCurrent(Moved(Locked(s, t, r), t, x), rules)
  {
    hide Current;
    var l := Locked(s, t, r);
    CurrentIgnoresOthers(l, t, x, t, x, rules);
    forall u | u in s.txs && u != t ensures Current(Moved(l, t, x), u, s.txs[u], rules) {
      LockedKeepsOthers(s, t, r, u, s.txs[u], rules);
      CurrentIgnoresOthers(l, t, x, u, s.txs[u], rules);
    }
  }

  /** Taking a free lock. */
  lemma AcquireKeeps(s: State, t: nat, r: Resource, x: Tx, rules: Rules)
    requires Inv(s, rules) && t in s.txs && r !in s.locks && r.owner == x.request.owner
    requires x.request == s.txs[t].request && x.newId == s.txs[t].newId && Reached(x) >= Reached(s.txs[t])
    requires Current(Locked(s, t, r), t, x, rules)
    requires if r.Profile? then Reached(x) >= 1 else Reached(x) >= 2 && InTheme(x.request)
    ensures Inv(Moved(Locked(s, t, r), t, x), rules)
  {
    AcquireHeld(s, t, r, x);
    AcquireCurrent(s, t, r, x, rules);
    hide AllCurrent, AllHeld, Current, Unique, Bounded;
  }

  lemma CurrentIgnoresOthers(s: State, t: nat, x: Tx, u: nat, y: Tx, rules: Rules)
    requires Current(s, u, y, rules)
    ensures Current(Moved(s, t, x), u, y, rules)
  {
    hide Target, Accepts;
  }

  lemma LockProfileKeeps(s: State, t: nat, rules: Rules)
    requires Inv(s, rules) && t in s.txs && s.txs[t].stage.Waiting?
    ensures Inv(LockProfileTx(s, t, s.txs[t]), rules)
  {
    EndKeeps(s, t, rules);
    var x := s.txs[t];
    var r := Profile(x.request.owner);
    if r !in s.locks && Rev(s.db, r) >= 0 {
      var y := x.(stage := if InTheme(x.request) then HasProfile else HasLocks, profile := Rev(s.db, r));
      LockedKeepsOthers(s, t, r, t, x, rules);
      AcquireKeeps(s, t, r, y, rules);
    }
  }

  lemma LockThemeKeeps(s: State, t: nat, rules: Rules)
    requires Inv(s, rules) && t in s.txs && s.txs[t].stage.HasProfile?
    ensures Inv(LockThemeTx(s, t, s.txs[t]), rules)
  {
    EndKeeps(s, t, rules);
    var x := s.txs[t];
    var r := Theme(x.request.owner);
    if r !in s.locks && Rev(s.db, r) >= 0 {
      var y := x.(stage := HasLocks, theme := Rev(s.db, r));
      LockedKeepsOthers(s, t, r, t, x, rules);
      AcquireKeeps(s, t, r, y, rules);
    }
  }

  lemma MoveKeeps(s: State, t: nat, x: Tx, rules: Rules)
    requires Inv(s, rules) && t in s.txs && x.request == s.txs[t].request && x.newId == s.txs[t].newId
    requires Reached(x) >= Reached(s.txs[t]) && Current(s, t, x, rules)
    ensures Inv(Moved(s, t, x), rules)
  {
    hide Target, Unique, Bounded, Accepts;
  }

  lemma UpsertKeeps(s: State, t: nat, rules: Rules)
    requires Inv(s, rules) && t in s.txs && s.txs[t].stage.HasLocks?
    ensures Inv(UpsertTx(s, t, s.txs[t], rules), rules)
  {
    EndKeeps(s, t, rules);
    var target := Target(s.db.rows, s.txs[t].request, s.txs[t].newId, rules);
    if target.Some? {
      assert Current(s, t, s.txs[t], rules);
      MoveKeeps(s, t, s.txs[t].(stage := Wrote, id := target.value), rules);
    }
  }

  /** The guarded updates always find the revision the transaction locked, so the error
      "revision changed" is never returned. */
  lemma RevisionUnchanged(s: State, t: nat, rules: Rules)
    requires Inv(s, rules) && t in s.txs
    ensures var x := s.txs[t];
            && (x.stage.Wrote? ==> Rev(s.db, Profile(x.request.owner)) == x.profile)
            && (x.stage.AdvancedProfile? ==> Rev(s.db, Theme(x.request.owner)) == x.theme)
  {
    assert Current(s, t, s.txs[t], rules);
    hide Target, Accepts, Rev;
  }

  lemma AdvanceKeeps(s: State, t: nat, rules: Rules)
    requires Inv(s, rules) && t in s.txs
    ensures s.txs[t].stage.Wrote? ==> Inv(AdvanceProfileTx(s, t, s.txs[t]), rules)
    ensures s.txs[t].stage.AdvancedProfile? ==> Inv(AdvanceThemeTx(s, t, s.txs[t]), rules)
  {
    EndKeeps(s, t, rules);
    var x := s.txs[t];
    assert Current(s, t, x, rules);
    if x.stage.Wrote? && CanAdvance(x.profile) {
      MoveKeeps(s, t, x.(stage := if InTheme(x.request) then AdvancedProfile else Ready), rules);
    } else if x.stage.AdvancedProfile? && CanAdvance(x.theme) {
      MoveKeeps(s, t, x.(stage := Ready), rules);
    }
  }

  /** Transactions past their first lock belong to different owners. */
  lemma OwnersApart(s: State, t: nat, u: nat, rules: Rules)
    requires AllCurrent(s, rules) && t in s.txs && u in s.txs && t != u && Reached(s.txs[t]) >= 1 && Reached(s.txs[u]) >= 1
    ensures s.txs[t].request.owner != s.txs[u].request.owner
  {
    assert Current(s, t, s.txs[t], rules) && Current(s, u, s.txs[u], rules);
  }

  /** A row of one owner is no candidate for another. */
  lemma OtherRowsIgnored(rows: map<nat, Row>, id: nat, row: Row, r: Request, newId: nat, rules: Rules)
    requires row.owner != r.owner && (id in rows ==> rows[id].owner != r.owner)
    ensures Target(rows[id := row], r, newId, rules) == Target(rows, r, newId, rules)
  {
    var after := rows[id := row];
    assert Candidates(after, r, rules) == Candidates(rows, r, rules);
  }

  /** The row a target names is new, or the owner's own with the same key. */
  lemma TargetMeans(rows: map<nat, Row>, r: Request, newId: nat, rules: Rules)
    requires Target(rows, r, newId, rules).Some? && Reflexive(rules)
    ensures var id := Target(rows, r, newId, rules).value;
            || (id == newId && forall i :: i in rows ==> !IsExact(rows[i], r))
            || (id in rows && IsExact(rows[id], r))
  {
    if Candidates(rows, r, rules) == {} {
      forall i | i in rows ensures !IsExact(rows[i], r) {
        assert i !in Candidates(rows, r, rules);
      }
    }
  }

  lemma CommitRows(s: State, t: nat, rules: Rules)
    requires Inv(s, rules) && t in s.txs && s.txs[t].stage.Ready? && Reflexive(rules)
    ensures var x := s.txs[t];
            && Unique(s.db.rows[x.id := RowOf(x.request)])
            && (x.id == x.newId || (x.id in s.db.rows && IsExact(s.db.rows[x.id], x.request)))
  {
    var x := s.txs[t];
    assert Current(s, t, x, rules);
    TargetMeans(s.db.rows, x.request, x.newId, rules);
    hide Target, Accepts, Bounded;
  }

  lemma OthersStillHold(s: State, t: nat, x: Tx, u: nat, r: Resource)
    requires u != t
    ensures Holds(s, u, r) ==> Holds(CommitTx(s, t, x), u, r)
  {
  }

  lemma OtherRevisionsStay(s: State, t: nat, x: Tx, owner: Owner)
    requires owner != x.request.owner
    ensures Rev(CommitTx(s, t, x).db, Profile(owner)) == Rev(s.db, Profile(owner))
    ensures Rev(CommitTx(s, t, x).db, Theme(owner)) == Rev(s.db, Theme(owner))
  {
  }

  lemma CommitRowsOnly(s: State, t: nat, x: Tx)
    ensures CommitTx(s, t, x).db.rows == s.db.rows[x.id := RowOf(x.request)] && CommitTx(s, t, x).nextId == s.nextId
  {
  }

  lemma CommitKeepsOther(s: State, t: nat, x: Tx, u: nat, y: Tx, rules: Rules)
    requires Current(s, u, y, rules) && u != t && y.newId != x.id
    requires Reached(y) >= 1 ==> x.request.owner != y.request.owner && (x.id in s.db.rows ==> s.db.rows[x.id].owner != y.request.owner)
    ensures Current(CommitTx(s, t, x), u, y, rules)
  {
    CommitRowsOnly(s, t, x);
    if Reached(y) >= 1 {
      OthersStillHold(s, t, x, u, Profile(y.request.owner));
      OthersStillHold(s, t, x, u, Theme(y.request.owner));
      OtherRevisionsStay(s, t, x, y.request.owner);
      OtherRowsIgnored(s.db.rows, x.id, RowOf(x.request), y.request, y.newId, rules);
    }
    hide CommitTx, Holds, Rev, Target, Accepts;
  }

  lemma CommitCurrent(s: State, t: nat, u: nat, rules: Rules)
    requires Inv(s, rules) && t in s.txs && s.txs[t].stage.Ready? && u in s.txs && u != t
    requires var x := s.txs[t]; x.id == x.newId || (x.id in s.db.rows && IsExact(s.db.rows[x.id], x.request))
    ensures Current(CommitTx(s, t, s.txs[t]), u, s.txs[u], rules)
  {
    var x, y := s.txs[t], s.txs[u];
    assert Current(s, t, x, rules) && Current(s, u, y, rules);
    hide AllCurrent, AllHeld, Unique, Bounded, Target, Accepts, Rev;
    assert y.newId != x.newId && y.newId != x.id;
    if Reached(y) >= 1 {
      OwnersApart(s, t, u, rules);
    }
    CommitKeepsOther(s, t, x, u, y, rules);
  }

  lemma CommitHeld(s: State, t: nat, x: Tx)
    requires AllHeld(s)
    ensures AllHeld(CommitTx(s, t, x))
  {
    var c := CommitTx(s, t, x);
    forall r | r in c.locks ensures Held(c, r) {
      assert Held(s, r);
    }
  }

  lemma CommitKeeps(s: State, t: nat, rules: Rules)
    requires Inv(s, rules) && t in s.txs && s.txs[t].stage.Ready? && Reflexive(rules)
    ensures Inv(CommitTx(s, t, s.txs[t]), rules)
  {
    var x, c := s.txs[t], CommitTx(s, t, s.txs[t]);
    assert Current(s, t, x, rules);
    CommitRows(s, t, rules);
    CommitHeld(s, t, x);
    hide Current, Target, Unique, AllHeld, Accepts;
    forall u | u in c.txs ensures Current(c, u, c.txs[u], rules) {
      CommitCurrent(s, t, u, rules);
    }
  }

  lemma ApplyKeeps(s: State, a: Action, rules: Rules)
    requires Inv(s, rules) && Reflexive(rules)
    ensures Inv(Apply(s, a, rules), rules)
  {
    hide Inv, Reflexive, StartTx, LockProfileTx, LockThemeTx, UpsertTx, AdvanceProfileTx, AdvanceThemeTx, CommitTx, Ended;
    if a.Start? {
      StartKeeps(s, a.t, a.request, rules);
    } else if a.t in s.txs {
      match (a, s.txs[a.t].stage)
      case (LockProfile(t), Waiting) => LockProfileKeeps(s, t, rules);
      case (LockTheme(t), HasProfile) => LockThemeKeeps(s, t, rules);
      case (Upsert(t), HasLocks) => UpsertKeeps(s, t, rules);
      case (AdvanceProfile(t), Wrote) => AdvanceKeeps(s, t, rules);
      case (AdvanceTheme(t), AdvancedProfile) => AdvanceKeeps(s, t, rules);
      case (Commit(t), Ready) => CommitKeeps(s, t, rules);
      case (Abort(t), _) => EndKeeps(s, t, rules);
      case _ =>
    }
  }

  /** A quiet database whose rows have distinct keys and whose revisions fit. */
  ghost predicate Initial(s: State) {
    && s.locks == map[] && s.txs == map[] && s.history == []
    && Unique(s.db.rows) && Bounded(s.db) && forall id :: id in s.db.rows ==> id < s.nextId
  }

  /** The invariant holds after any interleaving. */
  lemma {:induction false} RunKeeps(s: State, actions: seq<Action>, rules: Rules)
    requires Initial(s) && Reflexive(rules)
    ensures Inv(Run(s, actions, rules), rules)
  {
    if actions != [] {
      RunKeeps(s, actions[..|actions| - 1], rules);
      ApplyKeeps(Run(s, actions[..|actions| - 1], rules), actions[|actions| - 1], rules);
    }
  }

  // ----- what every interleaving amounts to

  /** The committed requests run one after another, each alone. */
  ghost function Replay(db: Db, history: seq<Entry>, rules: Rules): Option<Db> {
    if history == [] then Some(db)
    else
      var before := Replay(db, history[..|history| - 1], rules);
      var last := history[|history| - 1];
      if before == None then None else Serial(before.value, last.request, last.newId, rules)
  }

  /** A commit has the effect of the whole transaction run alone at that moment. */
  lemma CommitIsSerial(s: State, t: nat, rules: Rules)
    requires Inv(s, rules) && t in s.txs && s.txs[t].stage.Ready?
    ensures Serial(s.db, s.txs[t].request, s.txs[t].newId, rules) == Some(CommitTx(s, t, s.txs[t]).db)
  {
    assert Current(s, t, s.txs[t], rules);
    hide Target, Accepts;
  }

  /** Only a commit changes the database or the history. */
  lemma OnlyCommitsWrite(s: State, a: Action, rules: Rules)
    ensures var n := Apply(s, a, rules);
            || (a.Commit? && a.t in s.txs && s.txs[a.t].stage.Ready? && n == CommitTx(s, a.t, s.txs[a.t]))
            || (n.db == s.db && n.history == s.history)
  {
    hide CommitTx, Target;
  }

  /** Serializability: after any interleaving the database is what the committed requests,
      one after another in the order of their commits, make of the initial one. */
  lemma {:induction false} RunIsSerial(s: State, actions: seq<Action>, rules: Rules)
    requires Initial(s) && Reflexive(rules)
    ensures var n := Run(s, actions, rules); Replay(s.db, n.history, rules) == Some(n.db)
  {
    if actions != [] {
      var before, a := Run(s, actions[..|actions| - 1], rules), actions[|actions| - 1];
      RunIsSerial(s, actions[..|actions| - 1], rules);
      RunKeeps(s, actions[..|actions| - 1], rules);
      OnlyCommitsWrite(before, a, rules);
      if a.Commit? && a.t in before.txs && before.txs[a.t].stage.Ready? {
        CommitIsSerial(before, a.t, rules);
        var n := Run(s, actions, rules);
        assert n.history[..|n.history| - 1] == before.history;
      }
    }
  }

  /** How many of the commits were by this owner, and how many of those in a group whose
      canonical spelling is the theme group. */
  function Commits(history: seq<Entry>, owner: Owner): nat {
    if history == [] then 0
    else Commits(history[..|history| - 1], owner) + if history[|history| - 1].request.owner == owner then 1 else 0
  }

  function ThemeCommits(history: seq<Entry>, owner: Owner, rules: Rules): nat {
    if history == [] then 0
    else
      var r := history[|history| - 1].request;
      ThemeCommits(history[..|history| - 1], owner, rules) + if r.owner == owner && (r.group == THEME || rules.canonical(r.group) == THEME) then 1 else 0
  }

  ghost predicate AllAccepted(history: seq<Entry>, rules: Rules) {
    forall i :: 0 <= i < |history| ==> Accepts(history[i].request, rules)
  }

  lemma {:induction false} HistoryAccepted(s: State, actions: seq<Action>, rules: Rules)
    requires Initial(s) && Reflexive(rules)
    ensures AllAccepted(Run(s, actions, rules).history, rules)
  {
    if actions != [] {
      var before, a := Run(s, actions[..|actions| - 1], rules), actions[|actions| - 1];
      HistoryAccepted(s, actions[..|actions| - 1], rules);
      RunKeeps(s, actions[..|actions| - 1], rules);
      OnlyCommitsWrite(before, a, rules);
      if a.t in before.txs { assert Current(before, a.t, before.txs[a.t], rules); }
    }
  }

  lemma {:induction false} ReplayCounts(db: Db, history: seq<Entry>, owner: Owner, rules: Rules)
    requires AllAccepted(history, rules) && Replay(db, history, rules).Some?
    ensures var n := Replay(db, history, rules).value;
            && Rev(n, Profile(owner)) == Rev(db, Profile(owner)) + Commits(history, owner)
            && Rev(n, Theme(owner)) == Rev(db, Theme(owner)) + ThemeCommits(history, owner, rules)
  {
    if history != [] {
      ReplayCounts(db, history[..|history| - 1], owner, rules);
    }
  }

  /** Every commit raises the owner's profile revision by exactly one, and the theme
      revision by exactly one when it writes the theme group; nothing else moves either. */
  lemma RevisionsCountCommits(s: State, actions: seq<Action>, owner: Owner, rules: Rules)
    requires Initial(s) && Reflexive(rules)
    ensures var n := Run(s, actions, rules);
            && Rev(n.db, Profile(owner)) == Rev(s.db, Profile(owner)) + Commits(n.history, owner)
            && Rev(n.db, Theme(owner)) == Rev(s.db, Theme(owner)) + ThemeCommits(n.history, owner, rules)
  {
    RunIsSerial(s, actions, rules);
    HistoryAccepted(s, actions, rules);
    ReplayCounts(s.db, Run(s, actions, rules).history, owner, rules);
  }

  /** Each (owner, group, name) has at most one row, and revisions fit in 64 bits. */
  lemma RowsStayUnique(s: State, actions: seq<Action>, rules: Rules)
    requires Initial(s) && Reflexive(rules)
    ensures Unique(Run(s, actions, rules).db.rows) && Bounded(Run(s, actions, rules).db)
  {
    RunKeeps(s, actions, rules);
  }

  /** A row holds what a request asks for. */
  predicate Stores(row: Row, r: Request) {
    row.owner == r.owner && row.group == r.group && row.name == r.name && row.auth == r.auth && row.value == r.value
  }

  /** What a run of its transaction leaves of a request: one row of its owner with its group
      and name, holding its value and flag; every other row is as before; the profile revision
      of the owner is one higher, that of the theme exactly for the theme group. */
  lemma SerialWrites(db: Db, r: Request, newId: nat, rules: Rules)
    requires Serial(db, r, newId, rules).Some? && Unique(db.rows) && Reflexive(rules) && newId !in db.rows
    ensures var n := Serial(db, r, newId, rules).value;
            && (exists id :: id in n.rows && Stores(n.rows[id], r))
            && (forall id :: id in n.rows && n.rows[id].owner == r.owner && n.rows[id].group == r.group && n.rows[id].name == r.name ==>
                  n.rows[id].auth == r.auth && n.rows[id].value == r.value)
            && Unique(n.rows)
            && (forall id :: id in db.rows && !IsExact(db.rows[id], r) ==> id in n.rows && n.rows[id] == db.rows[id])
            && (forall id :: id in n.rows && !IsExact(n.rows[id], r) ==> id in db.rows)
            && Rev(n, Profile(r.owner)) == Rev(db, Profile(r.owner)) + 1
            && Rev(n, Theme(r.owner)) == Rev(db, Theme(r.owner)) + (if r.group == "theme" then 1 else 0)
            && (forall owner :: owner != r.owner ==> Rev(n, Profile(owner)) == Rev(db, Profile(owner)) && Rev(n, Theme(owner)) == Rev(db, Theme(owner)))
  {
    TargetMeans(db.rows, r, newId, rules);
    var target := Target(db.rows, r, newId, rules).value;
    var n := Serial(db, r, newId, rules).value;
    assert Stores(n.rows[target], r);
    hide Target;
  }

  /** The transaction fails on its own exactly when a revision it has to advance is negative or
      at its end, or some row of the owner that the database takes for the requested one is
      spelled differently or not the only one. */
  lemma SerialFailsExactly(db: Db, r: Request, newId: nat, rules: Rules)
    requires newId !in db.rows
    ensures Serial(db, r, newId, rules) == None <==>
      || Rev(db, Profile(r.owner)) < 0 || Rev(db, Profile(r.owner)) >= 0x7fff_ffff_ffff_ffff
      || (r.group == "theme" && (Rev(db, Theme(r.owner)) < 0 || Rev(db, Theme(r.owner)) >= 0x7fff_ffff_ffff_ffff))
      || exists id :: Conflicts(db.rows, id, r, rules)
  {
    TargetFailsExactly(db.rows, r, newId, rules);
    hide Target, Conflicts;
  }

  lemma TargetFailsExactly(rows: map<nat, Row>, r: Request, newId: nat, rules: Rules)
    ensures Target(rows, r, newId, rules) == None <==> exists id :: Conflicts(rows, id, r, rules)
  {
    var candidates := Candidates(rows, r, rules);
    assert forall id :: id in candidates <==> FoundBy(rows, id, r, rules);
    hide FoundBy, IsCandidate, Candidates;
    if id :| Conflicts(rows, id, r, rules) {
      assert id in candidates;
      if other :| other != id && FoundBy(rows, other, r, rules) {
        assert other in candidates;
      }
    }
    if candidates != {} && Target(rows, r, newId, rules) == None {
      var id :| id in candidates;
      if candidates != {id} {
        var other :| other in candidates && other != id;
        assert Conflicts(rows, id, r, rules);
      } else {
        FoundOwned(rows, id, r, rules);
        assert Conflicts(rows, id, r, rules);
      }
    }
  }

  lemma FoundOwned(rows: map<nat, Row>, id: nat, r: Request, rules: Rules)
    requires FoundBy(rows, id, r, rules)
    ensures id in rows && rows[id].owner == r.owner
  {
  }

  /** A row that the database finds for the request by either comparison, and that is not its
      own or has a companion. */
  ghost predicate Conflicts(rows: map<nat, Row>, id: nat, r: Request, rules: Rules) {
    && FoundBy(rows, id, r, rules)
    && (rows[id].group != r.group || rows[id].name != r.name || exists other :: other != id && FoundBy(rows, other, r, rules))
  }

  ghost predicate FoundBy(rows: map<nat, Row>, id: nat, r: Request, rules: Rules) {
    && id in rows && rows[id].owner == r.owner
    && (rules.matches((rows[id].group, rows[id].name), (r.group, r.name)) || rules.trimmed((rows[id].group, rows[id].name), (r.group, r.name)))
  }

  predicate HasKey(owner: Owner, group: string, name: string, row: Row) {
    row.owner == owner && row.group == group && row.name == name
  }

  /** The last committed request for a key. */
  function LastFor(history: seq<Entry>, owner: Owner, group: string, name: string): Option<Request> {
    if history == [] then None
    else
      var r := history[|history| - 1].request;
      if r.owner == owner && r.group == group && r.name == name then Some(r) else LastFor(history[..|history| - 1], owner, group, name)
  }

  /** The rows with a key are those of the initial database, or one row with the flag and the
      value of that request. */
  ghost predicate Settled(initial: map<nat, Row>, rows: map<nat, Row>, owner: Owner, group: string, name: string, last: Option<Request>) {
    && (last == None ==> forall id :: id in rows && HasKey(owner, group, name, rows[id]) <==> id in initial && HasKey(owner, group, name, initial[id]))
    && (last == None ==> forall id :: id in rows && HasKey(owner, group, name, rows[id]) ==> id in initial && rows[id] == initial[id])
    && (last.Some? ==> exists id :: id in rows && HasKey(owner, group, name, rows[id]))
    && (last.Some? ==> forall id :: id in rows && HasKey(owner, group, name, rows[id]) ==> rows[id].auth == last.value.auth && rows[id].value == last.value.value)
  }

  lemma WriteSettles(initial: map<nat, Row>, db: Db, r: Request, newId: nat, owner: Owner, group: string, name: string, last: Option<Request>, rules: Rules)
    requires Serial(db, r, newId, rules).Some? && Unique(db.rows) && Reflexive(rules) && newId !in db.rows
    requires Settled(initial, db.rows, owner, group, name, last)
    ensures Settled(initial, Serial(db, r, newId, rules).value.rows, owner, group, name,
                    if r.owner == owner && r.group == group && r.name == name then Some(r) else last)
  {
    TargetMeans(db.rows, r, newId, rules);
    var id := Target(db.rows, r, newId, rules).value;
    assert Serial(db, r, newId, rules).value.rows == db.rows[id := RowOf(r)];
    hide Serial, Target, Settled;
    if r.owner == owner && r.group == group && r.name == name {
      SettledByOne(initial, db.rows, id, r);
    } else {
      SettledBeside(initial, db.rows, id, RowOf(r), owner, group, name, last);
    }
  }

  lemma SettledByOne(initial: map<nat, Row>, rows: map<nat, Row>, id: nat, r: Request)
    requires Unique(rows) && if id in rows then IsExact(rows[id], r) else forall i :: i in rows ==> !IsExact(rows[i], r)
    ensures Settled(initial, rows[id := RowOf(r)], r.owner, r.group, r.name, Some(r))
  {
    var n := rows[id := RowOf(r)];
    assert HasKey(r.owner, r.group, r.name, n[id]);
    forall i | i in n && HasKey(r.owner, r.group, r.name, n[i]) ensures i == id {
      if i != id && id in rows { assert SameKey(rows[i], rows[id]); }
    }
  }

  lemma SettledBeside(initial: map<nat, Row>, rows: map<nat, Row>, id: nat, row: Row, owner: Owner, group: string, name: string, last: Option<Request>)
    requires Settled(initial, rows, owner, group, name, last)
    requires !HasKey(owner, group, name, row) && (id in rows ==> !HasKey(owner, group, name, rows[id]))
    ensures Settled(initial, rows[id := row], owner, group, name, last)
  {
    hide HasKey;
    if last.Some? {
      var i :| i in rows && HasKey(owner, group, name, rows[i]);
      assert HasKey(owner, group, name, rows[id := row][i]);
    }
  }

  /** The last commit wins: after any interleaving a key holds the flag and the value of the
      last committed request for it, and what it held at first if there was none. */
  lemma {:induction false} LastCommitWins(s: State, actions: seq<Action>, owner: Owner, group: string, name: string, rules: Rules)
    requires Initial(s) && Reflexive(rules)
    ensures var n := Run(s, actions, rules);
            Settled(s.db.rows, n.db.rows, owner, group, name, LastFor(n.history, owner, group, name))
  {
    if actions != [] {
      var before, a := Run(s, actions[..|actions| - 1], rules), actions[|actions| - 1];
      LastCommitWins(s, actions[..|actions| - 1], owner, group, name, rules);
      RunKeeps(s, actions[..|actions| - 1], rules);
      OnlyCommitsWrite(before, a, rules);
      if a.Commit? && a.t in before.txs && before.txs[a.t].stage.Ready? {
        var x, n := before.txs[a.t], Run(s, actions, rules);
        CommitIsSerial(before, a.t, rules);
        assert Current(before, a.t, x, rules);
        WriteSettles(s.db.rows, before.db, x.request, x.newId, owner, group, name, LastFor(before.history, owner, group, name), rules);
        assert n.history == before.history + [Entry(x.request, x.newId)];
        assert n.history[..|n.history| - 1] == before.history;
      }
    }
  }

  // ----- no deadlock

  /** The transaction can take its next step: no lock it wants is taken. */
  predicate Unblocked(s: State, x: Tx) {
    && (x.stage.Waiting? ==> Profile(x.request.owner) !in s.locks)
    && (x.stage.HasProfile? ==> Theme(x.request.owner) !in s.locks)
  }

  /** Who gets the first lock never waits again: its next step is not blocked. So whoever
      waits, waits for a transaction that does not, and no deadlock is possible. */
  lemma NoDeadlock(s: State, actions: seq<Action>, t: nat, rules: Rules)
    requires Initial(s) && Reflexive(rules) && t in Run(s, actions, rules).txs
    ensures var n := Run(s, actions, rules); var x := n.txs[t]; var r := Profile(x.request.owner);
            && (!x.stage.Waiting? ==> Unblocked(n, x))
            && (x.stage.Waiting? && !Unblocked(n, x) ==> n.locks[r] in n.txs && Unblocked(n, n.txs[n.locks[r]]))
  {
    RunKeeps(s, actions, rules);
    var n := Run(s, actions, rules);
    NeverWaitsAgain(n, t, rules);
    var r := Profile(n.txs[t].request.owner);
    if r in n.locks {
      assert Held(n, r);
      NeverWaitsAgain(n, n.locks[r], rules);
    }
  }

  /** Who holds a theme lock holds the profile lock of the same owner too. */
  lemma ThemeHolder(s: State, owner: Owner, rules: Rules)
    requires Inv(s, rules) && Theme(owner) in s.locks
    ensures var h := s.locks[Theme(owner)]; h in s.txs && Reached(s.txs[h]) >= 2 && Holds(s, h, Profile(owner))
  {
    assert Held(s, Theme(owner));
    var h := s.locks[Theme(owner)];
    assert Current(s, h, s.txs[h], rules);
  }

  lemma NeverWaitsAgain(s: State, t: nat, rules: Rules)
    requires Inv(s, rules) && t in s.txs
    ensures !s.txs[t].stage.Waiting? ==> Unblocked(s, s.txs[t])
  {
    var owner := s.txs[t].request.owner;
    assert Current(s, t, s.txs[t], rules);
    if Theme(owner) in s.locks {
      ThemeHolder(s, owner, rules);
    }
  }

  ghost predicate Advances(s: State, a: Action, rules: Rules) {
    a.t in s.txs && (a.t in Apply(s, a, rules).txs ==> Reached(Apply(s, a, rules).txs[a.t]) > Reached(s.txs[a.t]))
  }

  /** An unblocked transaction does move: its step ends it or brings it further. */
  lemma StepMoves(s: State, t: nat, rules: Rules)
    requires t in s.txs && Unblocked(s, s.txs[t])
    ensures exists a: Action :: a.t == t && !a.Abort? && Advances(s, a, rules)
  {
    hide Target;
    var x := s.txs[t];
    var a := if x.stage.Waiting? then LockProfile(t) else if x.stage.HasProfile? then LockTheme(t) else if x.stage.HasLocks? then Upsert(t)
             else if x.stage.Wrote? then AdvanceProfile(t) else if x.stage.AdvancedProfile? then AdvanceTheme(t) else Commit(t);
    assert a.t == t && !a.Abort? && Advances(s, a, rules);
  }
}
