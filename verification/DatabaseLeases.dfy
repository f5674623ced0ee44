/** Leasing, swapping and retiring the database handle: admin/config/config.go, one
    critical section at a time, under any interleaving. */
module DatabaseLeases {
  import opened Text

  type Handle = nat
  type WaitGroup = nat

  /** A running `WithDatabase` call: the handle it uses and the group it will leave. */
  datatype Lease = Lease(handle: Handle, group: WaitGroup)

  /** What the holder of the `databaseReload` mutex is about to do. */
  datatype Admin =
    | Free                                              // the mutex is free
    | Opened(next: Handle)                              // a replacement is open
    | Retiring(prior: Handle, group: Option<WaitGroup>)   // swapped; about to wait, then close
    | Forgetting(prior: Handle)                           // closed; about to drop the lease entry

  datatype State = State(
    published: Option<Handle>,
    connected: set<Handle>,            // the handles whose DB is set
    leases: map<Handle, WaitGroup>,    // databaseLeases
    counts: map<WaitGroup, nat>,       // the counters inside the groups
    operations: map<nat, Lease>,
    closes: map<Handle, nat>,          // Close calls on every handle ever opened
    handles: nat,                      // how many handles and groups were ever made
    groups: nat,
    admin: Admin)

  datatype Action =
    | Begin(op: nat)      // WithDatabase up to the call of the operation
    | End(op: nat)        // the operation returns
    | Open(connected: bool)   // InitContext or reloadDatabase opens a replacement, with a DB or without
    | Abandon             // it fails afterwards and closes the replacement
    | Swap                // swapDatabaseHandle(next)
    | Withdraw            // CloseContext: swapDatabaseHandle(nil)
    | Close               // retireDatabaseHandle: Wait is over, Close
    | Forget              // retireDatabaseHandle: delete the lease entry

  function Initial(): State {
    State(None, {}, map[], map[], map[], map[], 0, 0, Free)
  }

  function Count(s: State, g: WaitGroup): nat {
    if g in s.counts then s.counts[g] else 0
  }

  /** The lease group of a handle, made on first use. */
  function WithGroup(s: State, h: Handle): State {
    if h in s.leases then s
    else s.(leases := s.leases[h := s.groups], counts := s.counts[s.groups := 0], groups := s.groups + 1)
  }

  function BeginOp(s: State, op: nat): State {
    if s.published == None || s.published.value !in s.connected || op in s.operations then s
    else
      var t := WithGroup(s, s.published.value);
      var g := t.leases[s.published.value];
      t.(counts := t.counts[g := Count(t, g) + 1], operations := t.operations[op := Lease(s.published.value, g)])
  }

  function EndOp(s: State, op: nat): State {
    if op !in s.operations then s
    else
      var g := s.operations[op].group;
      if Count(s, g) == 0 then s
      else s.(counts := s.counts[g := Count(s, g) - 1], operations := s.operations - {op})
  }

  function OpenHandle(s: State, connected: bool): State {
    s.(connected := if connected then s.connected + {s.handles} else s.connected, admin := Opened(s.handles), closes := s.closes[s.handles := 0], handles := s.handles + 1)
  }

  function CloseHandle(s: State, h: Handle): State {
    s.(closes := s.closes[h := (if h in s.closes then s.closes[h] else 0) + 1])
  }

  function GroupOf(s: State, h: Handle): Option<WaitGroup> {
    if h in s.leases then Some(s.leases[h]) else None
  }

  /** After a swap the previous handle, if any, is to be retired with its group. */
  function Retire(s: State, previous: Option<Handle>): State {
    match previous
    case None => s.(admin := Free)
    case Some(prior) => if s.published == previous then s.(admin := Free) else s.(admin := Retiring(prior, GroupOf(s, prior)))
  }

  /** One atomic step; a step that is not enabled changes nothing. */
  function Apply(s: State, a: Action): State {
    match a
    case Begin(op) => BeginOp(s, op)
    case End(op) => EndOp(s, op)
    case Open(connected) => if s.admin.Free? then OpenHandle(s, connected) else s
    case Abandon => if s.admin.Opened? then CloseHandle(s, s.admin.next).(admin := Free) else s
    case Swap =>
      if s.admin.Opened? then Retire(WithGroup(s.(published := Some(s.admin.next)), s.admin.next), s.published) else s
    case Withdraw => if s.admin.Free? then Retire(s.(published := None), s.published) else s
    case Close =>
      if s.admin.Retiring? && (s.admin.group == None || Count(s, s.admin.group.value) == 0)
      then CloseHandle(s, s.admin.prior).(admin := Forgetting(s.admin.prior)) else s
    case Forget =>
      if s.admin.Forgetting?
      then s.(leases := if s.published != Some(s.admin.prior) then s.leases - {s.admin.prior} else s.leases, admin := Free) else s
  }

  function Run(s: State, actions: seq<Action>): State {
    if actions == [] then s else Apply(Run(s, actions[..|actions| - 1]), actions[|actions| - 1])
  }

  // ----- the invariant

  ghost function Users(operations: map<nat, Lease>, g: WaitGroup): set<nat> {
    set op | op in operations && operations[op].group == g
  }

  ghost function UsersOf(operations: map<nat, Lease>, h: Handle): set<nat> {
    set op | op in operations && operations[op].handle == h
  }

  /** Handles and groups are numbered in order of creation. */
  ghost predicate Numbered(s: State) {
    && (forall h: Handle :: h in s.closes <==> h < s.handles)
    && (forall g: WaitGroup :: g in s.counts <==> g < s.groups)
  }

  /** Groups belong to one handle each and count its operations. */
  ghost predicate Grouped(s: State) {
    && (forall h :: h in s.leases ==> h in s.closes && s.leases[h] in s.counts)
    && (forall h, k :: h in s.leases && k in s.leases && s.leases[h] == s.leases[k] ==> h == k)
    && (forall op :: op in s.operations ==>
          s.operations[op].handle in s.leases && s.leases[s.operations[op].handle] == s.operations[op].group)
    && (forall g :: g in s.counts ==> s.counts[g] == |Users(s.operations, g)|)
  }

  /** The published handle is open and has a group; the handle at hand is neither
      published nor leased from outside its group. */
  ghost predicate Staged(s: State) {
    && (s.published.Some? ==> s.published.value in s.leases)
    && match s.admin
       case Free => true
       case Opened(next) => next in s.closes && next !in s.leases && s.published != Some(next)
       case Retiring(prior, group) => prior in s.leases && group == Some(s.leases[prior]) && s.published != Some(prior)
       case Forgetting(prior) => prior in s.leases && s.published != Some(prior) && UsersOf(s.operations, prior) == {}
  }

  /** Every handle is published, in the hands of the administrator, or closed; and
      exactly once in the last case. */
  ghost predicate ClosedOnce(s: State) {
    forall h :: h in s.closes ==> s.closes[h] == if StillOpen(s, h) then 0 else 1
  }

  ghost predicate StillOpen(s: State, h: Handle) {
    s.published == Some(h) || s.admin == Opened(h) || (s.admin.Retiring? && s.admin.prior == h)
  }

  /** Lease entries remain only for open handles and the one being forgotten. */
  ghost predicate LeasesOpen(s: State) {
    forall h :: h in s.leases ==> StillOpen(s, h) || s.admin == Forgetting(h)
  }

  ghost predicate Inv(s: State) {
    Numbered(s) && Grouped(s) && Staged(s) && ClosedOnce(s) && LeasesOpen(s)
  }

  lemma UsersMore(operations: map<nat, Lease>, op: nat, l: Lease, g: WaitGroup)
    requires op !in operations
    ensures Users(operations[op := l], g) == if g == l.group then Users(operations, g) + {op} else Users(operations, g)
    ensures |Users(operations[op := l], g)| == |Users(operations, g)| + if g == l.group then 1 else 0
  {
    assert Users(operations[op := l], g) == if g == l.group then Users(operations, g) + {op} else Users(operations, g);
  }

  lemma UsersLess(operations: map<nat, Lease>, op: nat, g: WaitGroup)
    requires op in operations
    ensures |Users(operations - {op}, g)| == |Users(operations, g)| - if g == operations[op].group then 1 else 0
  {
    var rest := operations - {op};
    assert rest[op := operations[op]] == operations;
    UsersMore(rest, op, operations[op], g);
  }

  /** A new operation on the published handle, counted in its group. */
  function Leased(s: State, op: nat, l: Lease): State {
    s.(counts := s.counts[l.group := Count(s, l.group) + 1], operations := s.operations[op := l])
  }

  lemma BeginIs(s: State, op: nat)
    requires Inv(s) && s.published.Some? && s.published.value in s.connected && op !in s.operations
    ensures BeginOp(s, op) == Leased(s, op, Lease(s.published.value, s.leases[s.published.value]))
  {
  }

  lemma LeasedGrouped(s: State, op: nat, l: Lease)
    requires Grouped(s) && l.handle in s.leases && s.leases[l.handle] == l.group && op !in s.operations
    ensures Grouped(Leased(s, op, l))
  {
    forall g | g in s.counts ensures Leased(s, op, l).counts[g] == |Users(s.operations[op := l], g)| {
      UsersMore(s.operations, op, l, g);
    }
  }

  lemma LeasedStaged(s: State, op: nat, l: Lease)
    requires Staged(s) && s.published == Some(l.handle) && op !in s.operations
    ensures Staged(Leased(s, op, l))
  {
    if s.admin.Forgetting? {
      assert UsersOf(s.operations[op := l], s.admin.prior) == UsersOf(s.operations, s.admin.prior);
    }
  }

  lemma LeasedRest(s: State, op: nat, l: Lease)
    requires Numbered(s) && ClosedOnce(s) && LeasesOpen(s) && l.group in s.counts
    ensures Numbered(Leased(s, op, l)) && ClosedOnce(Leased(s, op, l)) && LeasesOpen(Leased(s, op, l))
  {
    var t := Leased(s, op, l);
    assert forall h :: StillOpen(t, h) == StillOpen(s, h);
  }

  lemma BeginKeeps(s: State, op: nat)
    requires Inv(s)
    ensures Inv(Apply(s, Begin(op)))
  {
    if s.published.Some? && s.published.value in s.connected && op !in s.operations {
      var l := Lease(s.published.value, s.leases[s.published.value]);
      BeginIs(s, op);
      LeasedGrouped(s, op, l);
      LeasedStaged(s, op, l);
      LeasedRest(s, op, l);
      hide Numbered, Grouped, Staged, ClosedOnce, LeasesOpen, BeginOp, Leased;
    }
  }

  lemma EndKeeps(s: State, op: nat)
    requires Inv(s)
    ensures Inv(Apply(s, End(op)))
  {
    if op in s.operations {
      forall g | g in s.counts && EndOp(s, op) != s ensures EndOp(s, op).counts[g] == |Users(EndOp(s, op).operations, g)| {
        UsersLess(s.operations, op, g);
      }
      assert s.admin.Forgetting? ==> UsersOf(s.operations - {op}, s.admin.prior) <= UsersOf(s.operations, s.admin.prior);
    }
  }

  lemma SwapGrouped(s: State)
    requires Inv(s) && s.admin.Opened?
    ensures Grouped(Apply(s, Swap))
  {
    hide ClosedOnce, LeasesOpen, StillOpen;
    assert Users(s.operations, s.groups) == {};
  }

  lemma SwapKeeps(s: State)
    requires Inv(s)
    ensures Inv(Apply(s, Swap))
  {
    if s.admin.Opened? {
      SwapGrouped(s);
      hide Users, UsersOf;
    }
  }

  lemma OpenKeeps(s: State, connected: bool)
    requires Inv(s)
    ensures Inv(Apply(s, Open(connected)))
  {
    hide Users, UsersOf;
  }

  lemma AbandonKeeps(s: State)
    requires Inv(s)
    ensures Inv(Apply(s, Abandon))
  {
    hide Users, UsersOf;
  }

  lemma WithdrawKeeps(s: State)
    requires Inv(s)
    ensures Inv(Apply(s, Withdraw))
  {
    hide Users, UsersOf;
  }

  /** A handle's group is empty exactly when no operation uses the handle. */
  lemma GroupEmpty(s: State, h: Handle)
    requires Inv(s) && h in s.leases
    ensures Users(s.operations, s.leases[h]) == UsersOf(s.operations, h)
    ensures Count(s, s.leases[h]) == 0 <==> UsersOf(s.operations, h) == {}
  {
    assert Users(s.operations, s.leases[h]) == UsersOf(s.operations, h);
  }

  lemma CloseKeeps(s: State)
    requires Inv(s)
    ensures Inv(Apply(s, Close))
  {
    if s.admin.Retiring? {
      GroupEmpty(s, s.admin.prior);
    }
  }

  lemma ForgetKeeps(s: State)
    requires Inv(s)
    ensures Inv(Apply(s, Forget))
  {
    if s.admin.Forgetting? {
      forall op | op in s.operations ensures s.operations[op].handle != s.admin.prior {
        assert op !in UsersOf(s.operations, s.admin.prior);
      }
    }
  }

  lemma ApplyKeeps(s: State, a: Action)
    requires Inv(s)
    ensures Inv(Apply(s, a))
  {
    hide Inv, Apply;
    match a
    case Begin(op) => BeginKeeps(s, op);
    case End(op) => EndKeeps(s, op);
    case Open(connected) => OpenKeeps(s, connected);
    case Abandon => AbandonKeeps(s);
    case Swap => SwapKeeps(s);
    case Withdraw => WithdrawKeeps(s);
    case Close => CloseKeeps(s);
    case Forget => ForgetKeeps(s);
  }

  lemma InitialInv()
    ensures Inv(Initial())
  {
  }

  lemma {:induction false} RunKeeps(actions: seq<Action>)
    ensures Inv(Run(Initial(), actions))
  {
    if actions == [] {
      InitialInv();
    } else {
      RunKeeps(actions[..|actions| - 1]);
      ApplyKeeps(Run(Initial(), actions[..|actions| - 1]), actions[|actions| - 1]);
    }
  }

  // ----- what follows for every run

  /** In every reachable state every handle has been closed at most once, no running
      operation uses a closed one, and the published handle is open. */
  lemma NoUseAfterClose(actions: seq<Action>)
    ensures var s := Run(Initial(), actions);
            && (forall h :: h in s.closes ==> s.closes[h] <= 1)
            && (forall op :: op in s.operations ==> s.operations[op].handle in s.closes && s.closes[s.operations[op].handle] == 0)
            && (s.published.Some? ==> s.published.value in s.closes && s.closes[s.published.value] == 0)
  {
    RunKeeps(actions);
    var s := Run(Initial(), actions);
    forall op | op in s.operations ensures s.closes[s.operations[op].handle] == 0 {
      var h := s.operations[op].handle;
      if s.admin == Forgetting(h) {
        assert op in UsersOf(s.operations, h);
      }
    }
  }

  /** A handle that was published is closed only at a moment when nobody leases it. */
  lemma ClosedWithoutLeases(actions: seq<Action>, a: Action, h: Handle)
    requires var s := Run(Initial(), actions);
             h in s.closes && s.closes[h] == 0 && Apply(s, a).closes[h] > 0
    ensures UsersOf(Run(Initial(), actions).operations, h) == {}
  {
    RunKeeps(actions);
    var s := Run(Initial(), actions);
    if a == Close {
      GroupEmpty(s, h);
    } else {
      assert a == Abandon && s.admin == Opened(h);
      forall op | op in s.operations ensures s.operations[op].handle != h {
      }
    }
  }

  /** The handle was opened and is not about to be published for the first time. */
  ghost predicate Settled(s: State, h: Handle) {
    h in s.closes && s.admin != Opened(h)
  }

  lemma PublishedIsSettled(s: State, h: Handle)
    requires Inv(s) && s.published == Some(h)
    ensures Settled(s, h)
  {
    hide Users, UsersOf;
  }

  lemma SettledStays(s: State, a: Action, h: Handle)
    requires Inv(s) && Settled(s, h)
    ensures Settled(Apply(s, a), h)
    ensures s.published != Some(h) ==> Apply(s, a).published != Some(h) && UsersOf(Apply(s, a).operations, h) <= UsersOf(s.operations, h)
  {
    hide Users;
  }

  lemma RunStep(actions: seq<Action>, j: nat)
    requires 0 < j <= |actions|
    ensures Run(Initial(), actions[..j]) == Apply(Run(Initial(), actions[..j - 1]), actions[j - 1])
  {
    assert actions[..j][..j - 1] == actions[..j - 1];
  }

  lemma {:induction false} SettledLater(actions: seq<Action>, i: nat, j: nat, h: Handle)
    requires i <= j <= |actions| && Settled(Run(Initial(), actions[..i]), h)
    ensures Settled(Run(Initial(), actions[..j]), h)
    ensures Run(Initial(), actions[..i]).published != Some(h) ==>
      && Run(Initial(), actions[..j]).published != Some(h)
      && UsersOf(Run(Initial(), actions[..j]).operations, h) <= UsersOf(Run(Initial(), actions[..i]).operations, h)
    decreases j - i
  {
    if i < j {
      SettledLater(actions, i, j - 1, h);
      RunStep(actions, j);
      RunKeeps(actions[..j - 1]);
      hide Settled, Apply, UsersOf, Run, Inv;
      SettledStays(Run(Initial(), actions[..j - 1]), actions[j - 1], h);
    }
  }

  /** Swapped out for good: a handle that was published and later is not, is never
      published again, and from then on its set of leases only shrinks, also after its lease
      entry is gone. */
  lemma OldLeasesNeverRise(actions: seq<Action>, i: nat, j: nat, k: nat, h: Handle)
    requires i <= j <= k <= |actions|
    requires Run(Initial(), actions[..i]).published == Some(h) && Run(Initial(), actions[..j]).published != Some(h)
    ensures Run(Initial(), actions[..k]).published != Some(h)
    ensures UsersOf(Run(Initial(), actions[..k]).operations, h) <= UsersOf(Run(Initial(), actions[..j]).operations, h)
  {
    RunKeeps(actions[..i]);
    PublishedIsSettled(Run(Initial(), actions[..i]), h);
    hide Settled, Run, UsersOf;
    SettledLater(actions, i, j, h);
    SettledLater(actions, j, k, h);
  }

  /** Retirement goes on exactly when the last operation on the old handle has returned. */
  lemma RetirementWaitsForLeases(actions: seq<Action>)
    requires Run(Initial(), actions).admin.Retiring?
    ensures var s := Run(Initial(), actions);
            Apply(s, Close).admin == Forgetting(s.admin.prior) <==> UsersOf(s.operations, s.admin.prior) == {}
  {
    RunKeeps(actions);
    var s := Run(Initial(), actions);
    GroupEmpty(s, s.admin.prior);
  }

  /** With the mutex free nothing leaks: a handle ever opened is published, or has been
      closed exactly once and its lease entry dropped. */
  lemma NothingLeaks(actions: seq<Action>)
    requires Run(Initial(), actions).admin.Free?
    ensures var s := Run(Initial(), actions);
            forall h :: h in s.closes ==> if s.published == Some(h) then s.closes[h] == 0 else s.closes[h] == 1 && h !in s.leases
  {
    RunKeeps(actions);
  }

  // ----- the critical sections as the code runs them

  /** The fields of Config behind databaseMu, with what the process keeps beside them. */
  class Config {
    var databaseHandle: Option<Handle>
    var connected: set<Handle>
    var databaseLeases: map<Handle, WaitGroup>
    var counts: map<WaitGroup, nat>
    var operations: map<nat, Lease>
    var closes: map<Handle, nat>
    var handles: nat
    var groups: nat
    var admin: Admin

    ghost function Value(): State
      reads this
    {
      State(databaseHandle, connected, databaseLeases, counts, operations, closes, handles, groups, admin)
    }

    constructor ()
      ensures Value() == Initial()
    {
      databaseHandle, connected, databaseLeases, counts, operations := None, {}, map[], map[], map[];
      closes, handles, groups, admin := map[], 0, 0, Free;
    }

    /** `databaseLeases[handle]`, made when missing. */
    method LeaseGroup(handle: Handle) returns (group: WaitGroup)
      modifies this`databaseLeases, this`counts, this`groups
      ensures Value() == WithGroup(old(Value()), handle)
      ensures handle in databaseLeases && group == databaseLeases[handle]
    {
      if handle !in databaseLeases {
        databaseLeases, counts := databaseLeases[handle := groups], counts[groups := 0];
        groups := groups + 1;
      }
      group := databaseLeases[handle];
    }

    /** WithDatabase up to the call of the operation; `leased` is false when it returns
        an error instead: no operation is given, no handle is published, or it has no DB. */
    method BeginWithDatabase(op: nat, given: bool) returns (leased: bool)
      requires op !in operations
      modifies this
      ensures Value() == if given then Apply(old(Value()), Begin(op)) else old(Value())
      ensures leased <==> given && old(databaseHandle).Some? && old(databaseHandle).value in old(connected)
      ensures leased ==> op in operations && Some(operations[op].handle) == old(databaseHandle)
      ensures leased ==>
        var l := operations[op];
        && operations == old(operations)[op := l] && l.handle in databaseLeases && databaseLeases[l.handle] == l.group
        && counts == old(counts)[l.group := (if l.handle in old(databaseLeases) && l.group in old(counts) then old(counts)[l.group] else 0) + 1]
      ensures unchanged(`databaseHandle) && unchanged(`closes) && unchanged(`admin) && (!leased ==> unchanged(this))
    {
      if !given {
        return false;
      }
      if databaseHandle == None || databaseHandle.value !in connected {
        return false;
      }
      var handle := databaseHandle.value;
      var leases := LeaseGroup(handle);
      counts := counts[leases := (if leases in counts then counts[leases] else 0) + 1];
      operations := operations[op := Lease(handle, leases)];
      leased := true;
    }

    /** The deferred Done. */
    method EndWithDatabase(op: nat)
      requires op in operations && Count(Value(), operations[op].group) > 0
      modifies this
      ensures Value() == Apply(old(Value()), End(op))
      ensures operations == old(operations) - {op}
      ensures var g := old(operations)[op].group; g in old(counts) && counts == old(counts)[g := old(counts)[g] - 1]
      ensures unchanged(`databaseHandle) && unchanged(`databaseLeases) && unchanged(`closes) && unchanged(`admin)
    {
      var leases := operations[op].group;
      counts := counts[leases := counts[leases] - 1];
      operations := operations - {op};
    }

    method SwapDatabaseHandle(next: Option<Handle>) returns (previous: Option<Handle>, leases: Option<WaitGroup>)
      modifies this
      ensures Value() == if next == None then old(Value()).(published := None)
                         else WithGroup(old(Value()).(published := next), next.value)
      ensures previous == old(databaseHandle)
      ensures leases == if previous == None then None else GroupOf(Value(), previous.value)
    {
      previous := databaseHandle;
      databaseHandle := next;
      if next.Some? {
        var _ := LeaseGroup(next.value);
      }
      leases := if previous.Some? && previous.value in databaseLeases then Some(databaseLeases[previous.value]) else None;
    }

    /** Publishing a replacement: the last step of InitContext and of reloadDatabase. */
    method Publish()
      requires admin.Opened?
      modifies this
      ensures Value() == Apply(old(Value()), Swap)
      ensures databaseHandle == Some(old(admin).next) && old(admin).next in databaseLeases
      ensures if old(databaseHandle).Some? && old(databaseHandle) != databaseHandle
              then admin.Retiring? && Some(admin.prior) == old(databaseHandle) else admin.Free?
      ensures unchanged(`operations) && unchanged(`closes)
    {
      var next := admin.next;
      var previous, leases := SwapDatabaseHandle(Some(next));
      admin := if previous.Some? && previous != Some(next) then Retiring(previous.value, leases) else Free;
    }

    /** The withdrawal in CloseContext. */
    method WithdrawHandle()
      requires admin.Free?
      modifies this
      ensures Value() == Apply(old(Value()), Withdraw)
      ensures databaseHandle == None && unchanged(`operations) && unchanged(`closes)
      ensures if old(databaseHandle).Some? then admin.Retiring? && Some(admin.prior) == old(databaseHandle) else admin.Free?
    {
      var previous, leases := SwapDatabaseHandle(None);
      admin := if previous.Some? then Retiring(previous.value, leases) else Free;
    }

    /** retireDatabaseHandle once Wait has returned. */
    method CloseRetired()
      requires admin.Retiring? && (admin.group == None || Count(Value(), admin.group.value) == 0)
      modifies this
      ensures Value() == Apply(Apply(old(Value()), Close), Forget)
      ensures var h := old(admin).prior;
              && closes == old(closes)[h := (if h in old(closes) then old(closes)[h] else 0) + 1] && admin.Free?
              && databaseLeases == (if databaseHandle == Some(h) then old(databaseLeases) else old(databaseLeases) - {h})
      ensures unchanged(`databaseHandle) && unchanged(`operations) && unchanged(`counts)
    {
      var handle := admin.prior;
      closes := closes[handle := (if handle in closes then closes[handle] else 0) + 1];
      if databaseHandle != Some(handle) {
        databaseLeases := databaseLeases - {handle};
      }
      admin := Free;
    }
  }

  /** Done never takes a group's counter below zero, so EndWithDatabase can always run. */
  lemma CounterCovers(actions: seq<Action>, op: nat)
    requires op in Run(Initial(), actions).operations
    ensures var s := Run(Initial(), actions);
            Count(s, s.operations[op].group) > 0 && op !in Apply(s, End(op)).operations
  {
    RunKeeps(actions);
    var s := Run(Initial(), actions);
    var g := s.operations[op].group;
    assert op in Users(s.operations, g);
    assert Count(s, g) == |Users(s.operations, g)|;
  }
}
