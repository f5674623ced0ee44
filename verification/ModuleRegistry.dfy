/** The transactional registry of business modules, admin/business/registry.go. */
module ModuleRegistry {
  import opened Text
  import P = PresentationRegistry

  // ----- migrations

  /** A runner's registrations: canonical ids, legacy aliases, and whether any
      registration failed. */
  datatype Migration = Migration(ids: set<string>, aliases: set<string>, failed: bool)

  const NO_MIGRATIONS := Migration({}, {}, false)

  /** `CombineRegistrations`: a disjoint union, where it exists. An alias may be shared,
      but never be somebody's canonical id. */
  function Combine(a: Migration, b: Migration): Option<Migration> {
    if a.failed || b.failed || a.ids * b.ids != {} || a.ids * b.aliases != {} || a.aliases * b.ids != {} then None
    else Some(Migration(a.ids + b.ids, a.aliases + b.aliases, false))
  }

  // ----- what a module brings

  /** The fields of `Registration` and its descriptor that `Register` examines. */
  datatype Registration = Registration(
    name: string,
    displayName: string,
    hasModelOrMigrate: bool,
    hasReadiness: bool,
    hasRoutes: bool,
    migrations: Migration,
    migrationsFail: bool,
    presentations: seq<P.Definition>)

  datatype Entry = Entry(name: string, displayName: string, presentations: seq<P.Definition>)

  /** What untrusted module code does while it holds the view, in any goroutine. A call
      of `Register` is its beginning and, unless it never returns, its end; what happens
      in between, nested calls included, happens between these two. */
  datatype Event =
    | Begin(registration: Registration)   // Register on the view is entered
    | Finish                              // the Register call that got in goes on to its end
    | Lifecycle                           // Add, Freeze, Mount or a getter on the view
    | ParentAdd(m: Module)                // Add on the parent registry
    | ParentFreeze
    | ParentRegister

  /** How `Module.Register` ends. */
  datatype Ending = Returns | Fails | Panics

  /** `during` happens before `Module.Register` ends, `late` after it. */
  datatype Module = Module(name: string, during: seq<Event>, ending: Ending, late: seq<Event>)

  // ----- transactions

  /** The checks `Register` makes after it got in. */
  ghost predicate Admissible(module_: string, r: Registration) {
    r.name == module_ && r.displayName != "" && r.hasModelOrMigrate && r.hasReadiness && r.hasRoutes
    && !r.migrationsFail && P.Acceptable(r.presentations) && !r.migrations.failed
  }

  class Transaction {
    const name: string
    var migrations: Migration
    var entry: Option<Entry>
    var registering: bool
    var closed: bool
    var err: bool
    /** The call of `Register` that got in and has not ended. */
    var pending: Option<Registration>

    constructor (name: string)
      ensures this.name == name && migrations == NO_MIGRATIONS && entry == None
      ensures !registering && !closed && !err && pending == None
    {
      this.name := name;
      migrations, entry, registering, closed, err, pending := NO_MIGRATIONS, None, false, false, false, None;
    }

    /** `recordErrorLocked`: a closed transaction no longer records. */
    method RecordError()
      modifies this`err
      ensures err == (old(err) || !closed)
    {
      if closed {
        return;
      }
      err := true;
    }

    /** `beginRegistration`. */
    method BeginRegistration() returns (ok: bool)
      modifies this`registering, this`err
      ensures ok <==> !closed && !old(err) && !old(registering) && entry == None
      ensures registering == (old(registering) || ok)
      ensures err == (old(err) || (!closed && (old(registering) || entry != None)))
    {
      if closed {
        return false;
      }
      if err {
        return false;
      }
      if registering || entry != None {
        RecordError();
        return false;
      }
      registering := true;
      return true;
    }

    /** `failRegistration`. */
    method FailRegistration()
      modifies this`registering, this`err
      ensures !registering && err == (old(err) || !closed)
    {
      registering := false;
      RecordError();
    }

    /** `completeRegistration`. */
    method CompleteRegistration(registered: Entry)
      modifies this`registering, this`err, this`entry
      ensures !registering
      ensures entry == if !closed && !old(err) && old(entry) == None then Some(registered) else old(entry)
      ensures err == (old(err) || (!closed && old(entry) != None))
    {
      registering := false;
      if closed {
        return;
      }
      if err {
        return;
      }
      if entry != None {
        RecordError();
        return;
      }
      entry := Some(registered);
    }

    /** `close`. */
    method Close(callbackFails: bool) returns (e: Option<Entry>, failed: bool)
      requires !closed
      modifies this`registering, this`err, this`closed
      ensures Value() == Closed(old(Value()), callbackFails)
      ensures e == entry && failed == err
    {
      if callbackFails {
        RecordError();
      }
      if registering {
        RecordError();
        registering := false;
      }
      closed := true;
      return entry, err;
    }

    // ----- the view's operations

    /** The part of `Register` on the view up to `beginRegistration`. */
    method EnterRegister(registration: Registration)
      modifies this
      ensures Value() == Step(name, old(Value()), Begin(registration))
    {
      var ok := BeginRegistration();
      if ok {
        pending := Some(registration);
      }
    }

    /** The part of `Register` on the view after `beginRegistration`. */
    method FinishRegister()
      modifies this
      ensures Value() == Step(name, old(Value()), Finish)
    {
      if pending == None {
        return;
      }
      var r := pending.value;
      pending := None;
      if r.name != name || r.displayName == "" || !r.hasModelOrMigrate || !r.hasReadiness || !r.hasRoutes {
        FailRegistration();
        return;
      }
      migrations := r.migrations;
      if r.migrationsFail {
        FailRegistration();
        return;
      }
      var staged, ok := P.NewRegistry(r.presentations);
      if !ok {
        FailRegistration();
        return;
      }
      if r.migrations.failed {
        FailRegistration();
        return;
      }
      var listed := staged.List();
      P.ListedHolds(staged.definitions, r.presentations);
      ListedUnique(staged.definitions, r.presentations);
      CompleteRegistration(Entry(name, r.displayName, listed));
    }

    method RejectLifecycle()
      modifies this`err
      ensures Value() == Step(name, old(Value()), Lifecycle)
    {
      RecordError();
    }

    ghost function Value(): Tx
      reads this
    {
      Tx(migrations, entry, registering, closed, err, pending)
    }
  }

  // ----- transactions as values

  datatype Tx = Tx(
    migrations: Migration,
    entry: Option<Entry>,
    registering: bool,
    closed: bool,
    err: bool,
    pending: Option<Registration>)

  lemma KeysIdentify(definitions: seq<P.Definition>, d: P.Definition, e: P.Definition)
    requires P.Acceptable(definitions) && d in definitions && e in definitions && d.PageKey() == e.PageKey()
    ensures d == e
  {
  }

  ghost function ByKey(definitions: seq<P.Definition>): (m: map<string, P.Definition>)
    requires P.Acceptable(definitions)
    ensures P.Holds(m, definitions)
  {
    hide P.Definition.Valid, P.Acceptable;
    assert forall d, e :: d in definitions && e in definitions && d.PageKey() == e.PageKey() ==> d == e by {
      forall d, e | d in definitions && e in definitions && d.PageKey() == e.PageKey() ensures d == e {
        KeysIdentify(definitions, d, e);
      }
    }
    map d | d in definitions :: d.PageKey() := d
  }

  /** The definitions in the order of their page keys. */
  ghost function InKeyOrder(definitions: seq<P.Definition>): (listed: seq<P.Definition>)
    requires P.Acceptable(definitions)
    ensures P.Acceptable(listed) && P.InPageOrder(listed)
    ensures forall d :: d in listed <==> d in definitions
  {
    P.ListedHolds(ByKey(definitions), definitions);
    P.Listed(ByKey(definitions))
  }

  lemma ListedUnique(m: map<string, P.Definition>, definitions: seq<P.Definition>)
    requires P.Holds(m, definitions) && P.Acceptable(definitions)
    ensures P.Listed(m) == InKeyOrder(definitions)
  {
    hide P.Definition.Valid;
    var n := ByKey(definitions);
    assert forall k :: k in m ==> m[k] in definitions && n[k] == m[k];
    assert forall k :: k in n ==> n[k] in definitions && k in m;
    assert m == n;
  }

  ghost function Step(name: string, tx: Tx, e: Event): Tx {
    match e
    case Begin(r) =>
      if tx.closed || tx.err then tx
      else if tx.registering || tx.entry != None then tx.(err := true)
      else tx.(registering := true, pending := Some(r))
    case Finish =>
      (match tx.pending
       case None => tx
       case Some(r) =>
         var done := tx.(pending := None, registering := false,
           migrations := if r.name != name || r.displayName == "" || !r.hasModelOrMigrate || !r.hasReadiness || !r.hasRoutes
                         then tx.migrations else r.migrations);
         if tx.closed then done
         else if !Admissible(name, r) then done.(err := true)
         else if tx.err then done
         else if tx.entry != None then done.(err := true)
         else done.(entry := Some(Entry(name, r.displayName, InKeyOrder(r.presentations)))))
    case Lifecycle => tx.(err := tx.err || !tx.closed)
    case _ => tx
  }

  ghost function Closed(tx: Tx, callbackFails: bool): Tx {
    tx.(closed := true, registering := false, err := tx.err || callbackFails || tx.registering)
  }

  ghost function Steps(name: string, tx: Tx, events: seq<Event>): Tx {
    if events == [] then tx else Step(name, Steps(name, tx, events[..|events| - 1]), events[|events| - 1])
  }

  const NEW_TX := Tx(NO_MIGRATIONS, None, false, false, false, None)

  /** The transaction when `Module.Register` has returned and it has been closed. */
  ghost function AtClose(m: Module): Tx {
    Closed(Steps(m.name, NEW_TX, m.during), m.ending.Fails?)
  }

  /** What the transaction of a module stages for publication, if anything. */
  ghost function Staged(m: Module): Option<(Entry, Migration)> {
    var tx := AtClose(m);
    if m.ending.Panics? || tx.err || tx.entry == None then None else Some((tx.entry.value, tx.migrations))
  }

  /** In an open transaction a call is pending exactly while it is registering, and a
      staged entry carries the module's name. */
  ghost predicate TxInv(name: string, tx: Tx) {
    && (!tx.closed ==> (tx.registering <==> tx.pending.Some?))
    && (tx.entry.Some? ==> tx.entry.value.name == name && P.Acceptable(tx.entry.value.presentations))
    && (tx.entry.Some? && !tx.err ==> !tx.registering && tx.pending == None)
  }

  lemma StepKeeps(name: string, tx: Tx, e: Event)
    requires TxInv(name, tx)
    ensures TxInv(name, Step(name, tx, e))
  {
    hide InKeyOrder, P.Acceptable;
  }

  lemma {:induction false} StepsKeep(name: string, tx: Tx, events: seq<Event>)
    requires TxInv(name, tx)
    ensures TxInv(name, Steps(name, tx, events))
  {
    if events != [] {
      StepsKeep(name, tx, events[..|events| - 1]);
      StepKeeps(name, Steps(name, tx, events[..|events| - 1]), events[|events| - 1]);
    }
  }

  /** After a clean close nothing the module still does reaches what is published. */
  lemma {:induction false} LateIsHarmless(m: Module, late: seq<Event>)
    requires Staged(m).Some?
    ensures Steps(m.name, AtClose(m), late) == AtClose(m)
  {
    StepsKeep(m.name, NEW_TX, m.during);
    if late != [] {
      LateIsHarmless(m, late[..|late| - 1]);
    }
  }

  // ----- which scripts stage something

  ghost predicate OnlyBegin(events: seq<Event>, i: nat) {
    i < |events| && events[i].Begin? && forall k :: 0 <= k < |events| && k != i ==> !events[k].Begin?
  }

  ghost predicate FinishAfter(events: seq<Event>, i: nat) {
    exists j :: i < j < |events| && events[j] == Finish
  }

  /** One admissible `Register` that gets in and comes to its end, no other attempt,
      and no lifecycle call on the view. */
  ghost predicate Registers(name: string, events: seq<Event>, i: nat) {
    OnlyBegin(events, i) && FinishAfter(events, i) && Lifecycle !in events && Admissible(name, events[i].registration)
  }

  ghost function StagedTx(name: string, r: Registration): Tx
    requires P.Acceptable(r.presentations)
  {
    Tx(r.migrations, Some(Entry(name, r.displayName, InKeyOrder(r.presentations))), false, false, false, None)
  }

  /** A transaction without an error is in one of three phases, told by the script. */
  ghost predicate PhaseIs(name: string, events: seq<Event>, tx: Tx) {
    || (tx == NEW_TX && Lifecycle !in events && forall k :: 0 <= k < |events| ==> !events[k].Begin?)
    || (exists i :: 0 <= i < |events| && Opened(name, events, tx, i))
    || (exists i :: 0 <= i < |events| && Registers(name, events, i) && tx == StagedTx(name, events[i].registration))
  }

  ghost predicate Opened(name: string, events: seq<Event>, tx: Tx, i: nat) {
    && OnlyBegin(events, i) && !FinishAfter(events, i) && Lifecycle !in events
    && tx == NEW_TX.(registering := true, pending := Some(events[i].registration))
  }

  /** The scripts that leave an error behind. */
  ghost predicate Poisoned(name: string, events: seq<Event>) {
    || Lifecycle in events
    || (exists i, j :: 0 <= i < j < |events| && events[i].Begin? && events[j].Begin?)
    || (exists i :: 0 <= i < |events| && events[i].Begin? && FinishAfter(events, i) && !Admissible(name, events[i].registration))
  }

  lemma {:induction false} PhaseOf(name: string, events: seq<Event>)
    ensures var tx := Steps(name, NEW_TX, events);
            !tx.closed && if tx.err then Poisoned(name, events) else PhaseIs(name, events, tx)
  {
    if events != [] {
      var n := |events| - 1;
      var before, e := events[..n], events[n];
      PhaseOf(name, before);
      assert events == before + [e];
      var tx := Steps(name, NEW_TX, before);
      if tx.err {
        PoisonLasts(name, before, e);
      } else {
        PhaseStep(name, before, e, tx);
      }
    }
  }

  lemma PoisonLasts(name: string, before: seq<Event>, e: Event)
    requires Poisoned(name, before)
    ensures Poisoned(name, before + [e])
  {
    var events := before + [e];
    if i, j :| 0 <= i < j < |before| && before[i].Begin? && before[j].Begin? {
      assert events[i].Begin? && events[j].Begin?;
    } else if i :| 0 <= i < |before| && before[i].Begin? && FinishAfter(before, i) && !Admissible(name, before[i].registration) {
      var j :| i < j < |before| && before[j] == Finish;
      assert events[i].Begin? && events[j] == Finish;
      assert FinishAfter(events, i);
    }
  }

  lemma PhaseStep(name: string, before: seq<Event>, e: Event, tx: Tx)
    requires !tx.closed && !tx.err && PhaseIs(name, before, tx)
    ensures var next := Step(name, tx, e);
            !next.closed && if next.err then Poisoned(name, before + [e]) else PhaseIs(name, before + [e], next)
  {
    hide InKeyOrder, P.Acceptable;
    var events, next := before + [e], Step(name, tx, e);
    if e == Lifecycle {
      assert events[|before|] == Lifecycle;
    } else if tx == NEW_TX && Lifecycle !in before && forall k :: 0 <= k < |before| ==> !before[k].Begin? {
      if e.Begin? {
        assert Opened(name, events, next, |before|);
      }
    } else if i :| 0 <= i < |before| && Opened(name, before, tx, i) {
      OpenedStep(name, before, e, tx, i);
    } else {
      var i :| 0 <= i < |before| && Registers(name, before, i) && tx == StagedTx(name, before[i].registration);
      DoneStep(name, before, e, tx, i);
    }
  }

  lemma OpenedStep(name: string, before: seq<Event>, e: Event, tx: Tx, i: nat)
    requires e != Lifecycle && Opened(name, before, tx, i)
    ensures var next := Step(name, tx, e);
            !next.closed && if next.err then Poisoned(name, before + [e]) else PhaseIs(name, before + [e], next)
  {
    var events, next := before + [e], Step(name, tx, e);
    assert events[i] == before[i] && events[|before|] == e;
    if e.Begin? {
      assert events[i].Begin? && events[|before|].Begin?;
    } else {
      assert OnlyBegin(events, i);
      if e == Finish {
        assert FinishAfter(events, i);
        if Admissible(name, events[i].registration) {
          assert Registers(name, events, i);
        }
      } else {
        assert !FinishAfter(events, i);
        assert Opened(name, events, next, i);
      }
    }
  }

  lemma DoneStep(name: string, before: seq<Event>, e: Event, tx: Tx, i: nat)
    requires e != Lifecycle && Registers(name, before, i) && tx == StagedTx(name, before[i].registration)
    ensures var next := Step(name, tx, e);
            !next.closed && if next.err then Poisoned(name, before + [e]) else PhaseIs(name, before + [e], next)
  {
    var events := before + [e];
    assert events[i] == before[i] && events[|before|] == e;
    if e.Begin? {
      assert events[i].Begin? && events[|before|].Begin?;
    } else {
      var j :| i < j < |before| && before[j] == Finish;
      assert events[j] == Finish;
      assert OnlyBegin(events, i) && FinishAfter(events, i);
      assert Registers(name, events, i);
    }
  }

  /** A module stages an entry exactly when its callback succeeds and, over all its
      goroutines, registers once, admissibly and completely, and tries nothing else. */
  lemma StagesIff(m: Module)
    ensures Staged(m).Some? <==> m.ending.Returns? && exists i :: 0 <= i < |m.during| && Registers(m.name, m.during, i)
    ensures forall i :: 0 <= i < |m.during| && Registers(m.name, m.during, i) && Staged(m).Some? ==>
      var r := m.during[i].registration;
      Staged(m).value == (Entry(m.name, r.displayName, InKeyOrder(r.presentations)), r.migrations)
  {
    PhaseOf(m.name, m.during);
    var tx := Steps(m.name, NEW_TX, m.during);
    forall i | 0 <= i < |m.during| && Registers(m.name, m.during, i)
      ensures !tx.err && tx == StagedTx(m.name, m.during[i].registration)
    {
      RegistersNotPoisoned(m.name, m.during, i);
      RegistersStages(m.name, m.during, tx, i);
    }
  }

  lemma RegistersStages(name: string, events: seq<Event>, tx: Tx, i: nat)
    requires PhaseIs(name, events, tx) && Registers(name, events, i)
    ensures tx == StagedTx(name, events[i].registration)
  {
    forall k | 0 <= k < |events| && events[k].Begin? ensures k == i {
    }
    assert events[i].Begin?;
  }

  lemma RegistersNotPoisoned(name: string, events: seq<Event>, i: nat)
    requires Registers(name, events, i)
    ensures !Poisoned(name, events)
  {
  }

  // ----- the parent registry

  datatype Outcome = Ok | NameRequired | InProgress | RegistryFrozen | NotFrozen | DuplicateModule | Refused | Panicked

  ghost function NamesOf(entries: seq<Entry>): seq<string> {
    seq(|entries|, i requires 0 <= i < |entries| => entries[i].name)
  }

  /** What callers can observe of a registry. */
  datatype Composition = Composition(
    core: Migration,
    business: Migration,
    entries: seq<Entry>,
    definitions: seq<P.Definition>,
    modules: set<string>,
    frozen: bool)

  /** Entry names are distinct and are the module set; page keys are distinct; the
      migrations of core and business combine. */
  ghost predicate Consistent(c: Composition) {
    && (forall i, j :: 0 <= i < j < |c.entries| ==> c.entries[i].name != c.entries[j].name)
    && (forall n :: n in c.modules <==> n in NamesOf(c.entries))
    && P.Acceptable(c.definitions)
    && Combine(c.core, c.business).Some?
  }

  /** The composition with one more module, when nothing of it collides. */
  ghost function Extended(c: Composition, m: Module): Option<Composition> {
    match Staged(m)
    case None => None
    case Some((entry, migrations)) =>
      match Combine(c.business, migrations)
      case None => None
      case Some(business) =>
        var definitions := c.definitions + entry.presentations;
        if Combine(c.core, business) == None || !P.Acceptable(definitions) then None
        else Some(c.(business := business, entries := c.entries + [entry],
                     definitions := InKeyOrder(definitions), modules := c.modules + {m.name}))
  }

  /** What `Add` leaves on a registry whose gate is free. */
  ghost function Added(c: Composition, m: Module): Composition {
    if m.name == "" || c.frozen || m.name in c.modules then c
    else match Extended(c, m) case None => c case Some(next) => next
  }

  class Registry {
    /** The registration gate is taken. */
    var gate: bool
    var active: Transaction?
    var core: Migration
    var business: Migration
    var combined: Option<Migration>
    var entries: seq<Entry>
    var definitions: seq<P.Definition>
    var inventory: Option<seq<P.Definition>>
    var modules: set<string>
    var frozen: bool

    ghost function Value(): Composition
      reads this
    {
      Composition(core, business, entries, definitions, modules, frozen)
    }

    /** An idle registry: consistent, with free gate and empty slot; once frozen, its
        migrations and presentation inventory are published. */
    ghost predicate Idle()
      reads this
    {
      && Consistent(Value()) && !gate && active == null
      && (frozen ==> combined == Combine(core, business) && inventory == Some(InKeyOrder(definitions)))
    }

    /** `NewRegistryWithPresentations`, for a core runner that clones. */
    constructor (core: Migration, registered: P.Registry)
      requires !core.failed
      requires P.Holds(registered.definitions, P.Listed(registered.definitions)) && P.Acceptable(P.Listed(registered.definitions))
      ensures Idle() && !frozen && entries == [] && modules == {} && business == NO_MIGRATIONS
      ensures this.core == core && definitions == P.Listed(registered.definitions)
    {
      this.gate, this.active, this.frozen := false, null, false;
      this.core, this.business, this.combined := core, NO_MIGRATIONS, None;
      this.entries, this.modules, this.inventory := [], {}, None;
      new;
      definitions := registered.List();
    }

    /** `tryLockRegistration`. */
    method TryLockRegistration() returns (ok: bool)
      modifies this`gate
      ensures ok == !old(gate) && gate
    {
      if gate {
        return false;
      }
      gate := true;
      return true;
    }

    /** `Add`. On a taken gate, as when a callback calls its parent registry, nothing
        changes at all. Otherwise the module is published whole or not at all, and gate
        and active slot are free again. */
    method Add(m: Module) returns (r: Outcome)
      requires gate || Idle()
      modifies this
      ensures old(gate) ==> Same()
      ensures r == NameRequired <==> m.name == ""
      ensures r == InProgress <==> m.name != "" && old(gate)
      ensures r == RegistryFrozen <==> m.name != "" && !old(gate) && old(frozen)
      ensures r == DuplicateModule <==> m.name != "" && !old(gate) && !old(frozen) && m.name in old(modules)
      ensures r == Panicked <==> m.name != "" && !old(gate) && !old(frozen) && m.name !in old(modules) && m.ending.Panics?
      ensures !old(gate) ==> Idle() && Value() == Added(old(Value()), m) && r != InProgress
      ensures !old(gate) ==> (r == Ok <==> Value() != old(Value()))
      ensures !old(gate) && r == Ok ==>
        exists i :: 0 <= i < |m.during| && Offers(m, i) && Gains(old(Value()), Value(), m.during[i].registration)
      ensures !old(gate) ==> (r == Ok <==>
        m.name != "" && !old(frozen) && m.name !in old(modules)
        && exists i :: 0 <= i < |m.during| && Offers(m, i) && !Collides(old(Value()), m.during[i].registration))
      ensures unchanged(`combined) && unchanged(`inventory)
      decreases m
    {
      hide P.Definition.Valid, Offers, Gains, Collides;
      if m.name == "" {
        return NameRequired;
      }
      var locked := TryLockRegistration();
      if !locked {
        return InProgress;
      }
      ghost var before := Value();
      r := AddLocked(m);
      active := null;
      gate := false;
      if r == Ok {
        assert Value().entries != before.entries;
      }
      AddsExactly(before, m);
    }

    /** `Add` while it holds the gate. */
    method AddLocked(m: Module) returns (r: Outcome)
      requires gate && active == null && m.name != "" && Consistent(Value())
      modifies this
      ensures gate && unchanged(`combined) && unchanged(`inventory)
      ensures Value() == Added(old(Value()), m) && Consistent(Value())
      ensures r != InProgress && r != NameRequired
      ensures r == RegistryFrozen <==> old(frozen)
      ensures r == DuplicateModule <==> !old(frozen) && m.name in old(modules)
      ensures r == Panicked <==> !old(frozen) && m.name !in old(modules) && m.ending.Panics?
      ensures r == Ok <==> |entries| == old(|entries|) + 1
      decreases m, 1
    {
      hide P.Definition.Valid, Consistent, PhaseIs, Poisoned;
      var transaction := new Transaction(m.name);
      if frozen {
        return RegistryFrozen;
      }
      if m.name in modules {
        return DuplicateModule;
      }
      active := transaction;
      RunScript(transaction, m, m.during);
      if m.ending.Panics? {
        RunScript(transaction, m, m.late);
        return Panicked;
      }
      PhaseOf(m.name, m.during);
      var entry, failed := transaction.Close(m.ending.Fails?);
      RunScript(transaction, m, m.late);
      if failed {
        return Refused;
      }
      if entry == None {
        return Refused;
      }
      LateIsHarmless(m, m.late);
      r := Publish(m, entry.value, transaction.migrations);
    }

    /** The rest of `Add`: everything staged is published, or nothing. */
    method Publish(m: Module, entry: Entry, migrations: Migration) returns (r: Outcome)
      requires gate && Consistent(Value()) && m.name !in modules && Staged(m) == Some((entry, migrations))
      modifies this`business, this`entries, this`definitions, this`modules, this`active
      ensures Consistent(Value())
      ensures Value() == match Extended(old(Value()), m) case None => old(Value()) case Some(next) => next
      ensures r in {Ok, Refused} && (r == Ok <==> |entries| == old(|entries|) + 1)
    {
      hide P.Definition.Valid;
      ghost var c := Value();
      var nextBusiness := Combine(business, migrations);
      if nextBusiness == None {
        return Refused;
      }
      if Combine(core, nextBusiness.value) == None {
        return Refused;
      }
      var nextDefinitions := definitions + entry.presentations;
      var nextPresentations, ok := P.NewRegistry(nextDefinitions);
      if !ok {
        return Refused;
      }
      ListedUnique(nextPresentations.definitions, nextDefinitions);
      business := nextBusiness.value;
      entries := entries + [entry];
      definitions := nextPresentations.List();
      modules := modules + {m.name};
      active := null;
      ExtendedConsistent(c, m);
      return Ok;
    }

    /** Module code runs against the view. Calls of the parent registry find its gate
        taken; calls of the view only touch the transaction. */
    method RunScript(transaction: Transaction, m: Module, script: seq<Event>)
      requires gate && m.name == transaction.name && (script == m.during || script == m.late)
      modifies this, transaction
      ensures Same()
      ensures transaction.Value() == Steps(m.name, old(transaction.Value()), script)
      decreases m, 0
    {
      hide P.Definition.Valid;
      assert script[..0] == [];
      for i := 0 to |script|
        invariant gate && Same()
        invariant transaction.Value() == Steps(m.name, old(transaction.Value()), script[..i])
      {
        assert script[..i + 1][..i] == script[..i];
        match script[i] {
          case Begin(registration) => transaction.EnterRegister(registration);
          case Finish => transaction.FinishRegister();
          case Lifecycle => transaction.RejectLifecycle();
          case ParentAdd(other) => var refused := Add(other);
          case ParentFreeze => var refused := Freeze();
          case ParentRegister => var refused := RegisterOnParent();
        }
      }
      assert script[..|script|] == script;
    }

    /** `Register` called on a parent registry is always refused. */
    method RegisterOnParent() returns (r: Outcome)
      ensures r == if frozen then RegistryFrozen else Refused
    {
      return if frozen then RegistryFrozen else Refused;
    }

    /** `Freeze`: on an idle registry it cannot fail. */
    method Freeze() returns (r: Outcome)
      requires gate || Idle()
      modifies this
      ensures old(gate) ==> r == InProgress && Same()
      ensures !old(gate) ==> r == Ok && Idle() && Value() == old(Value()).(frozen := true)
      ensures !old(gate) ==>
        && combined == Some(Migration(core.ids + business.ids, core.aliases + business.aliases, false))
        && inventory.Some? && SamePages(inventory.value, definitions)
      ensures old(frozen) ==> unchanged(`combined) && unchanged(`inventory)
    {
      var locked := TryLockRegistration();
      if !locked {
        return InProgress;
      }
      r := FreezeLocked();
      gate := false;
    }

    method FreezeLocked() returns (r: Outcome)
      requires gate && active == null && Consistent(Value())
      requires frozen ==> combined == Combine(core, business) && inventory == Some(InKeyOrder(definitions))
      modifies this
      ensures gate && active == null && r == Ok && Value() == old(Value()).(frozen := true)
      ensures combined == Combine(core, business) && inventory == Some(InKeyOrder(definitions))
    {
      if frozen {
        return Ok;
      }
      if active != null {
        return InProgress;
      }
      if core.failed || business.failed {
        return Refused;
      }
      var combinedRunner := Combine(core, business);
      if combinedRunner == None {
        return Refused;
      }
      var registry, ok := P.NewRegistry(definitions);
      if !ok {
        return Refused;
      }
      ListedUnique(registry.definitions, definitions);
      var listed := registry.List();
      combined := combinedRunner;
      inventory := Some(listed);
      frozen := true;
      return Ok;
    }

    /** Not a field has changed. */
    twostate predicate Same()
      reads this
    {
      && gate == old(gate) && active == old(active) && Value() == old(Value())
      && combined == old(combined) && inventory == old(inventory)
    }

    /** `Mount`: `ready` and `mounts` are what each module's readiness check, under a
        database lease, and its route registrar answer; `calls` collects the registrars
        called. No registrar runs unless every check passed. */
    method Mount(ready: string -> bool, mounts: string -> bool, calls: seq<string>) returns (r: Outcome, after: seq<string>)
      ensures !frozen ==> r == NotFrozen && after == calls
      ensures frozen && (exists e :: e in entries && !ready(e.name)) ==> r == Refused && after == calls
      ensures frozen && (forall e :: e in entries ==> ready(e.name)) ==>
        exists k :: 0 <= k <= |entries| && after == calls + NamesOf(entries)[..k]
                    && (forall i :: 0 <= i < k - 1 ==> mounts(entries[i].name))
                    && if r == Ok then k == |entries| && (forall e :: e in entries ==> mounts(e.name))
                       else k > 0 && r == Refused && !mounts(entries[k - 1].name)
    {
      after := calls;
      if !frozen {
        return NotFrozen, calls;
      }
      var mounted := entries;
      for i := 0 to |mounted|
        invariant forall j :: 0 <= j < i ==> ready(mounted[j].name)
      {
        if !ready(mounted[i].name) {
          return Refused, calls;
        }
      }
      for i := 0 to |mounted|
        invariant after == calls + NamesOf(mounted)[..i]
        invariant forall j :: 0 <= j < i ==> mounts(mounted[j].name)
      {
        assert NamesOf(mounted)[..i + 1] == NamesOf(mounted)[..i] + [mounted[i].name];
        after := after + [mounted[i].name];
        if !mounts(mounted[i].name) {
          return Refused, after;
        }
      }
      return Ok, after;
    }
  }

  lemma ExtendedConsistent(c: Composition, m: Module)
    requires Consistent(c) && m.name !in c.modules && Extended(c, m).Some?
    ensures Consistent(Extended(c, m).value)
    ensures Extended(c, m).value.entries == c.entries + [Staged(m).value.0] && Staged(m).value.0.name == m.name
  {
    StepsKeep(m.name, NEW_TX, m.during);
    var next := Extended(c, m).value;
    var names := NamesOf(c.entries);
    assert NamesOf(next.entries) == names + [m.name];
    forall i | 0 <= i < |c.entries| ensures c.entries[i].name != m.name {
      assert names[i] in c.modules;
    }
  }

  // ----- what publishing a module adds

  /** The i-th event is the one registration of a module: its call of Register gets in and
      ends, is the only one, and no lifecycle call is made; and the registration is complete. */
  ghost predicate Offers(m: Module, i: nat) {
    && m.ending.Returns? && i < |m.during| && m.during[i].Begin?
    && (forall k :: 0 <= k < |m.during| && k != i ==> !m.during[k].Begin?)
    && (exists j :: i < j < |m.during| && m.during[j] == Finish)
    && (forall k :: 0 <= k < |m.during| ==> m.during[k] != Lifecycle)
    && Complete(m.name, m.during[i].registration)
  }

  ghost predicate Complete(name: string, r: Registration) {
    && r.name == name && r.displayName != "" && r.hasModelOrMigrate && r.hasReadiness && r.hasRoutes
    && !r.migrationsFail && !r.migrations.failed && P.Acceptable(r.presentations)
  }

  /** None of its migration ids is known as an id or alias, none of its aliases as an id, and
      none of its pages is registered. */
  ghost predicate Collides(c: Composition, r: Registration) {
    || r.migrations.ids * (c.core.ids + c.core.aliases + c.business.ids + c.business.aliases) != {}
    || r.migrations.aliases * (c.core.ids + c.business.ids) != {}
    || exists d, e :: d in c.definitions && e in r.presentations && d.PageKey() == e.PageKey()
  }

  /** The composition gains exactly one module: its migrations, entry and pages. */
  ghost predicate Gains(c: Composition, n: Composition, r: Registration) {
    && n.core == c.core && n.frozen == c.frozen
    && n.business == Migration(c.business.ids + r.migrations.ids, c.business.aliases + r.migrations.aliases, false)
    && n.modules == c.modules + {r.name}
    && |n.entries| == |c.entries| + 1 && c.entries <= n.entries
    && n.entries[|c.entries|].name == r.name && n.entries[|c.entries|].displayName == r.displayName
    && SamePages(n.entries[|c.entries|].presentations, r.presentations)
    && SamePages(n.definitions, c.definitions + r.presentations)
  }

  /** These pages, in the order of their keys. */
  ghost predicate SamePages(listed: seq<P.Definition>, definitions: seq<P.Definition>) {
    P.InPageOrder(listed) && forall d :: d in listed <==> d in definitions
  }

  lemma AcceptableTogether(a: seq<P.Definition>, b: seq<P.Definition>)
    requires P.Acceptable(a) && P.Acceptable(b)
    ensures P.Acceptable(a + b) <==> forall d, e :: d in a && e in b ==> d.PageKey() != e.PageKey()
  {
    hide P.Definition.Valid, P.Definition.PageKey;
    if P.Acceptable(a + b) {
      forall d, e | d in a && e in b ensures d.PageKey() != e.PageKey() {
        var i :| 0 <= i < |a| && a[i] == d;
        var j :| 0 <= j < |b| && b[j] == e;
        assert (a + b)[i] == d && (a + b)[|a| + j] == e;
      }
    } else if forall d, e :: d in a && e in b ==> d.PageKey() != e.PageKey() {
      forall i, j | 0 <= i < j < |a + b| ensures (a + b)[i].PageKey() != (a + b)[j].PageKey() {
        if i < |a| && j >= |a| { assert a[i] in a && b[j - |a|] in b; }
      }
    }
  }

  lemma OffersRegisters(m: Module, i: nat)
    ensures Offers(m, i) <==> m.ending.Returns? && i < |m.during| && Registers(m.name, m.during, i)
  {
    hide P.Acceptable;
    assert (forall k :: 0 <= k < |m.during| ==> m.during[k] != Lifecycle) <==> Lifecycle !in m.during;
  }

  /** Of an admissible registration, what stands in the way of publishing it. */
  lemma ExtendsExactly(c: Composition, m: Module, i: nat)
    requires Consistent(c) && Offers(m, i)
    ensures Extended(c, m).Some? <==> !Collides(c, m.during[i].registration)
    ensures Extended(c, m).Some? ==> Gains(c, Extended(c, m).value, m.during[i].registration)
  {
    hide P.Definition.Valid, P.Definition.PageKey, PhaseIs;
    var r := m.during[i].registration;
    OffersRegisters(m, i);
    StagesIff(m);
    hide Staged, Registers, Offers;
    var listed := InKeyOrder(r.presentations);
    assert Staged(m) == Some((Entry(m.name, r.displayName, listed), r.migrations));
    AcceptableTogether(c.definitions, listed);
    MigrationsCombine(c, r.migrations);
    hide P.Acceptable, Combine, InKeyOrder;
  }

  lemma MigrationsCombine(c: Composition, m: Migration)
    requires Combine(c.core, c.business).Some? && !m.failed
    ensures Combine(c.business, m).Some? && Combine(c.core, Combine(c.business, m).value).Some? <==>
      m.ids * (c.core.ids + c.core.aliases + c.business.ids + c.business.aliases) == {} && m.aliases * (c.core.ids + c.business.ids) == {}
    ensures Combine(c.business, m).Some? ==> Combine(c.business, m).value == Migration(c.business.ids + m.ids, c.business.aliases + m.aliases, false)
  {
  }

  /** `Add` publishes a module if and only if it has a new name, the registry is not frozen,
      and it makes one complete registration that collides with nothing; and then exactly the
      migrations, the entry and the pages of that registration are added. */
  lemma AddsExactly(c: Composition, m: Module)
    requires Consistent(c)
    ensures Added(c, m) != c <==>
      m.name != "" && !c.frozen && m.name !in c.modules && exists i :: 0 <= i < |m.during| && Offers(m, i) && !Collides(c, m.during[i].registration)
    ensures Added(c, m) != c ==> exists i :: 0 <= i < |m.during| && Offers(m, i) && Gains(c, Added(c, m), m.during[i].registration)
  {
    hide Offers, Collides, Gains, Consistent, Extended;
    if m.name != "" && !c.frozen && m.name !in c.modules {
      StagesIff(m);
      NothingStaged(c, m);
      forall i | 0 <= i < |m.during| ensures Offers(m, i) <==> m.ending.Returns? && Registers(m.name, m.during, i) {
        OffersRegisters(m, i);
      }
      hide Staged, Registers;
      if i :| 0 <= i < |m.during| && Offers(m, i) {
        ExtendsExactly(c, m, i);
        OffersOnce(m, i);
        if Extended(c, m).Some? { GainsChanges(c, Extended(c, m).value, m.during[i].registration); }
      }
    }
  }

  lemma NothingStaged(c: Composition, m: Module)
    ensures Staged(m) == None ==> Extended(c, m) == None
  {
  }

  lemma OffersOnce(m: Module, i: nat)
    requires Offers(m, i)
    ensures forall k :: 0 <= k < |m.during| && Offers(m, k) ==> k == i
  {
  }

  lemma GainsChanges(c: Composition, n: Composition, r: Registration)
    requires Gains(c, n, r)
    ensures n != c
  {
  }

  // ----- any sequence of operations

  datatype Operation = AddOp(m: Module) | FreezeOp

  /** What the methods do to an idle registry, by their contracts. */
  ghost function Perform(c: Composition, op: Operation): Composition {
    match op
    case AddOp(m) => Added(c, m)
    case FreezeOp => c.(frozen := true)
  }

  ghost function PerformAll(c: Composition, ops: seq<Operation>): Composition
    decreases |ops|
  {
    if ops == [] then c else PerformAll(Perform(c, ops[0]), ops[1..])
  }

  /** Every reachable registry is consistent, so that it can be frozen; entries are only
      ever appended, and a frozen registry never changes again. */
  lemma {:induction false} Reachable(c: Composition, ops: seq<Operation>)
    requires Consistent(c)
    ensures Consistent(PerformAll(c, ops)) && c.entries <= PerformAll(c, ops).entries
    ensures c.frozen ==> PerformAll(c, ops) == c
    decreases |ops|
  {
    if ops != [] {
      if ops[0].AddOp? && ops[0].m.name !in c.modules && Extended(c, ops[0].m).Some? {
        ExtendedConsistent(c, ops[0].m);
      }
      Reachable(Perform(c, ops[0]), ops[1..]);
    }
  }

  // ----- what a run of operations adds up to

  /** The modules that a series of operations publishes, in order. */
  ghost function Joined(c: Composition, ops: seq<Operation>): seq<Module>
    decreases |ops|
  {
    if ops == [] then []
    else (if ops[0].AddOp? && Added(c, ops[0].m) != c then [ops[0].m] else []) + Joined(Perform(c, ops[0]), ops[1..])
  }

  /** The ids and aliases of the migrations that modules bring in their registrations. */
  ghost function IdsOf(ms: seq<Module>): set<string> {
    set k, i, id | 0 <= k < |ms| && 0 <= i < |ms[k].during| && ms[k].during[i].Begin? && id in ms[k].during[i].registration.migrations.ids :: id
  }

  ghost function AliasesOf(ms: seq<Module>): set<string> {
    set k, i, id | 0 <= k < |ms| && 0 <= i < |ms[k].during| && ms[k].during[i].Begin? && id in ms[k].during[i].registration.migrations.aliases :: id
  }

  lemma OfferedIds(m: Module, i: nat)
    requires Offers(m, i)
    ensures IdsOf([m]) == m.during[i].registration.migrations.ids && AliasesOf([m]) == m.during[i].registration.migrations.aliases
  {
    assert [m][0] == m;
  }

  lemma IdsSplit(a: seq<Module>, b: seq<Module>)
    ensures IdsOf(a + b) == IdsOf(a) + IdsOf(b) && AliasesOf(a + b) == AliasesOf(a) + AliasesOf(b)
  {
    assert forall k :: 0 <= k < |a| ==> (a + b)[k] == a[k];
    assert forall k :: 0 <= k < |b| ==> (a + b)[|a| + k] == b[k];
    assert forall k :: |a| <= k < |a + b| ==> (a + b)[k] == b[k - |a|];
  }

  ghost function ModuleNames(ms: seq<Module>): seq<string> {
    seq(|ms|, k requires 0 <= k < |ms| => ms[k].name)
  }

  lemma JoinedAdds(c: Composition, op: Operation)
    requires Consistent(c)
    ensures var n, ms := Perform(c, op), Joined(c, [op]);
            && n.business.ids == c.business.ids + IdsOf(ms) && n.business.aliases == c.business.aliases + AliasesOf(ms)
            && NamesOf(n.entries) == NamesOf(c.entries) + ModuleNames(ms) && n.core == c.core
  {
    hide Gains, Added, Consistent, Complete, NamesOf, IdsOf, AliasesOf;
    NothingJoined();
    assert Joined(Perform(c, op), [op][1..]) == [];
    if op.AddOp? && Added(c, op.m) != c {
      AddsExactly(c, op.m);
      var i :| 0 <= i < |op.m.during| && Offers(op.m, i) && Gains(c, Added(c, op.m), op.m.during[i].registration);
      OfferedIds(op.m, i);
      assert Joined(c, [op]) == [op.m];
      assert ModuleNames([op.m]) == [op.m.name];
      GainedNames(c, Added(c, op.m), op.m, i);
    } else {
      assert Joined(c, [op]) == [];
      assert NamesOf(c.entries) + [] == NamesOf(c.entries);
    }
  }

  lemma GainedNames(c: Composition, n: Composition, m: Module, i: nat)
    requires Offers(m, i) && Gains(c, n, m.during[i].registration)
    ensures NamesOf(n.entries) == NamesOf(c.entries) + [m.name] && n.core == c.core
    ensures n.business.ids == c.business.ids + m.during[i].registration.migrations.ids
    ensures n.business.aliases == c.business.aliases + m.during[i].registration.migrations.aliases
  {
  }

  /** After any operations the business migrations are those at first and exactly those of the
      modules published since, whose names are the entries added. */
  lemma {:induction false} RunAddsUp(c: Composition, ops: seq<Operation>)
    requires Consistent(c)
    ensures var n, ms := PerformAll(c, ops), Joined(c, ops);
            && n.core == c.core
            && n.business.ids == c.business.ids + IdsOf(ms) && n.business.aliases == c.business.aliases + AliasesOf(ms)
            && NamesOf(n.entries) == NamesOf(c.entries) + ModuleNames(ms)
    decreases |ops|
  {
    hide IdsOf, AliasesOf, NamesOf, Consistent, ModuleNames, Perform;
    if ops != [] {
      var next := Perform(c, ops[0]);
      PerformKeeps(c, ops[0]);
      JoinedAdds(c, ops[0]);
      RunAddsUp(next, ops[1..]);
      JoinedFirst(c, ops);
      IdsSplit(Joined(c, [ops[0]]), Joined(next, ops[1..]));
      NamesSplit(Joined(c, [ops[0]]), Joined(next, ops[1..]));
      hide Joined, PerformAll;
      PerformFirst(c, ops);
    } else {
      assert IdsOf([]) == {} && AliasesOf([]) == {} && ModuleNames([]) == [] by { NothingJoined(); }
    }
  }

  lemma NothingJoined()
    ensures IdsOf([]) == {} && AliasesOf([]) == {} && ModuleNames([]) == []
  {
  }

  lemma PerformKeeps(c: Composition, op: Operation)
    requires Consistent(c)
    ensures Consistent(Perform(c, op))
  {
    Reachable(c, [op]);
    assert PerformAll(c, [op]) == PerformAll(Perform(c, op), [op][1..]);
  }

  lemma JoinedFirst(c: Composition, ops: seq<Operation>)
    requires ops != []
    ensures Joined(c, ops) == Joined(c, [ops[0]]) + Joined(Perform(c, ops[0]), ops[1..])
  {
    assert Joined(Perform(c, ops[0]), [ops[0]][1..]) == [];
  }

  lemma NamesSplit(a: seq<Module>, b: seq<Module>)
    ensures ModuleNames(a + b) == ModuleNames(a) + ModuleNames(b)
  {
  }

  lemma PerformFirst(c: Composition, ops: seq<Operation>)
    requires ops != []
    ensures PerformAll(c, ops) == PerformAll(Perform(c, ops[0]), ops[1..])
  {
  }
}
