/** What Config owns and how it gives it up: admin/config/config.go and
    admin/config/runtime_challenge.go under the databaseReload mutex. Everything outside
    (opens, builds, close results) is a parameter; each may fail. */
module ConfigLifecycle {
  import opened Text

  /** Handles, challenge graphs and queues are numbered in order of creation. */
  type Id = nat

  /** A queue adapter: managed ones have Close(ctx), plain ones only Shutdown. */
  datatype Queue = Queue(managed: bool, closes: nat)

  /** The error of a Close call: whether there is one, whether it is a cancellation or
      deadline, and whether the adapter reports that it closed all the same. */
  datatype CloseResult = CloseResult(failed: bool, deadline: bool, reportsComplete: bool) {
    predicate TimedOut() { failed && deadline }
    /** managedQueueCloseCompleted */
    predicate Completed() { !TimedOut() || reportsComplete }
  }

  datatype RuntimeBuild =
    | Disabled                  // nil owner, no error
    | Built                     // a started, ready graph
    | NotStarted                // an error before any graph is started
    | NotReady                  // the graph started, Ready failed, the graph was closed

  /** What the queue initializer hands to the installer and how it ends. */
  datatype QueueBuild = QueueBuild(
    configured: bool, candidate: Option<bool>, failed: bool, contextDone: bool,
    cancellation: bool, unavailable: bool, invalid: bool)

  datatype InitRun = InitRun(
    opens: bool, runtime: RuntimeBuild, required: bool, queue: QueueBuild,
    retire: CloseResult, replaceFails: bool, oldCloseFails: bool)

  datatype ReloadRun = ReloadRun(opens: bool, bindFails: bool, oldCloseFails: bool)

  datatype CloseRun = CloseRun(runtime: CloseResult, queue: CloseResult, databaseFails: bool)

  /** The fields of Config and of the process-wide centre, and how often each resource
      ever made has been told to close. */
  datatype Snapshot = Snapshot(
    handle: Option<Id>,        // databaseHandle
    installed: Option<Id>,     // the default handle of gormdb
    managed: Option<Id>,       // managedQueue
    retiring: Option<Id>,      // retiringQueue
    queue: Option<Id>,         // center.GetQueue
    owner: Option<Id>,         // runtimeOwner
    challenge: Option<Id>,     // center's runtime challenge, by its graph
    handles: seq<nat>,         // Close calls by handle
    graphs: seq<nat>,          // Close calls by graph
    queues: seq<Queue>)

  const EMPTY := Snapshot(None, None, None, None, None, None, None, [], [], [])

  // ----- the invariant

  predicate Unclosed(id: Option<Id>, closes: seq<nat>) {
    id.Some? ==> id.value < |closes| && closes[id.value] == 0
  }

  /** Installed and published agree, and that handle is open. */
  predicate HandleOwned(c: Snapshot) {
    c.installed == c.handle && Unclosed(c.handle, c.handles)
  }

  /** Every handle not published was closed exactly once. */
  ghost predicate HandlesClosed(c: Snapshot) {
    forall h :: 0 <= h < |c.handles| && c.handle != Some(h) ==> c.handles[h] == 1
  }

  /** The capability is that of the owned graph, which was never told to close. */
  predicate GraphOwned(c: Snapshot) {
    && (c.owner.Some? ==> c.owner.value < |c.graphs|)
    && (c.challenge.Some? ==> c.challenge == c.owner && Unclosed(c.challenge, c.graphs))
  }

  /** A graph not owned was told to close. */
  ghost predicate GraphsClosed(c: Snapshot) {
    forall g :: 0 <= g < |c.graphs| && c.owner != Some(g) ==> c.graphs[g] >= 1
  }

  /** At most one managed queue is owned, and it is published until it retires. */
  predicate QueueOwned(c: Snapshot) {
    && (c.managed == None || c.retiring == None)
    && (c.managed.Some? ==> c.managed.value < |c.queues| && c.queues[c.managed.value].managed && c.queue == c.managed)
    && (c.retiring.Some? ==> c.retiring.value < |c.queues| && c.queues[c.retiring.value].managed && c.queues[c.retiring.value].closes >= 1)
    && (c.queue.Some? ==> c.queue.value < |c.queues| && c.queues[c.queue.value].closes == 0
                          && (c.queues[c.queue.value].managed ==> c.managed == c.queue))
  }

  /** A managed queue not active was told to close. */
  ghost predicate QueuesClosed(c: Snapshot) {
    forall q :: 0 <= q < |c.queues| && c.queues[q].managed && c.managed != Some(q) ==> c.queues[q].closes >= 1
  }

  ghost predicate Inv(c: Snapshot) {
    HandleOwned(c) && HandlesClosed(c) && GraphOwned(c) && GraphsClosed(c) && QueueOwned(c) && QueuesClosed(c)
  }

  // ----- the effect of each operation

  function Bump(closes: seq<nat>, id: Id): seq<nat> {
    if id < |closes| then closes[id := closes[id] + 1] else closes
  }

  function BumpQueue(queues: seq<Queue>, id: Id): seq<Queue> {
    if id < |queues| then queues[id := queues[id].(closes := queues[id].closes + 1)] else queues
  }

  /** Whether prepareChallengeRuntime lets initialization go on. */
  predicate RuntimeUsable(r: InitRun) {
    r.runtime.Disabled? || r.runtime.Built? || !r.required
  }

  /** Whether buildOptionalQueue lets initialization go on: without a queue if none is
      configured or if the broker is explicitly unavailable before an adapter exists. */
  predicate QueueUsable(q: QueueBuild) {
    || !q.configured
    || !q.failed
    || (q.candidate == None && !q.contextDone && q.unavailable && !q.invalid)
  }

  /** The queue that goes on to be published. */
  function QueueMade(q: QueueBuild): Option<bool> {
    if q.configured && !q.failed then q.candidate else None
  }

  function RetireQueue(c: Snapshot, close: CloseResult): Snapshot {
    var retiring := if c.managed.Some? then c.managed else c.retiring;
    if retiring == None then c
    else c.(managed := None,
            retiring := if close.Completed() then None else retiring,
            queue := if c.queue == retiring then None else c.queue,
            queues := BumpQueue(c.queues, retiring.value))
  }

  /** Whether nothing of the old queue is left behind. */
  predicate Retires(c: Snapshot, close: CloseResult) {
    (c.managed == None && c.retiring == None) || close.Completed()
  }

  /** The challenge runtime withdrawn and told to close, but kept because that failed. */
  function OwnerStuck(c: Snapshot): Snapshot {
    c.(challenge := None, graphs := if c.owner.Some? then Bump(c.graphs, c.owner.value) else c.graphs)
  }

  predicate ReplaceSticks(c: Snapshot, r: InitRun) {
    c.owner.Some? && r.replaceFails
  }

  /** The state of InitContext's last steps: the old runtime and queue replaced, or not;
      and then everything published. */
  function Replaced(c: Snapshot, previousDefault: Option<Id>, runtime: Option<Id>, r: InitRun): Snapshot {
    RetireQueue(c, r.retire).(installed := previousDefault, owner := runtime, challenge := runtime,
      graphs := if c.owner.Some? then Bump(c.graphs, c.owner.value) else c.graphs)
  }

  function Unpublished(c: Snapshot, previousDefault: Option<Id>, r: InitRun): Snapshot {
    var t := RetireQueue(c, r.retire).(installed := previousDefault);
    if Retires(c, r.retire) then OwnerStuck(t) else t
  }

  function Published(c: Snapshot, handle: Id, queue: Option<Id>): Snapshot {
    c.(handle := Some(handle), installed := Some(handle), queue := queue,
       managed := if queue.Some? && queue.value < |c.queues| && c.queues[queue.value].managed then queue else None,
       handles := if c.handle.Some? then Bump(c.handles, c.handle.value) else c.handles)
  }

  /** Nothing was opened, no handle closed or moved, and no queue changed kind. */
  ghost predicate SameKinds(c: Snapshot, d: Snapshot) {
    && d.handle == c.handle && d.handles == c.handles && |d.graphs| == |c.graphs| && |d.queues| == |c.queues|
    && forall q :: 0 <= q < |c.queues| ==> d.queues[q].managed == c.queues[q].managed
  }

  predicate RetireFails(c: Snapshot, r: InitRun) {
    r.retire.failed && (c.managed.Some? || c.retiring.Some?)
  }

  lemma RetiringIgnoresDefault(c: Snapshot, installed: Option<Id>, close: CloseResult)
    ensures RetireQueue(c.(installed := installed), close) == RetireQueue(c, close).(installed := installed)
    ensures Retires(c.(installed := installed), close) == Retires(c, close)
  {
  }

  /** Whether the resources in use give way to the candidates. */
  predicate Completes(c: Snapshot, r: InitRun) {
    Retires(c, r.retire) && !ReplaceSticks(c, r)
  }

  /** Whether InitContext commits. */
  predicate Commits(c: Snapshot, r: InitRun) {
    r.opens && RuntimeUsable(r) && QueueUsable(r.queue) && Completes(c, r)
  }

  function WithHandle(c: Snapshot): Snapshot {
    c.(installed := Some(|c.handles|), handles := c.handles + [0])
  }

  function WithRuntime(c: Snapshot, r: InitRun): Snapshot {
    c.(graphs := c.graphs + if r.runtime.Built? then [0] else if r.runtime.NotReady? then [1] else [])
  }

  function WithQueue(c: Snapshot, q: QueueBuild): Snapshot {
    c.(queues := c.queues + if !q.configured || q.candidate == None then [] else [Queue(q.candidate.value, if q.failed then 1 else 0)])
  }

  /** The candidates that the deferred functions find. */
  function RuntimeId(c: Snapshot, r: InitRun): Option<Id> {
    if r.runtime.Built? then Some(|c.graphs|) else None
  }

  function QueueId(c: Snapshot, r: InitRun): Option<Id> {
    if RuntimeUsable(r) && QueueUsable(r.queue) && QueueMade(r.queue).Some? then Some(|c.queues|) else None
  }

  /** InitContext from the open handle to its last step or first failure. */
  function Initialized(c: Snapshot, handle: Id, previousDefault: Option<Id>, r: InitRun): Snapshot {
    var v := WithQueue(WithRuntime(c, r), r.queue);
    if !RuntimeUsable(r) then WithRuntime(c, r)
    else if !QueueUsable(r.queue) then v
    else if Completes(c, r) then Published(Replaced(v, previousDefault, RuntimeId(c, r), r), handle, QueueId(c, r))
    else Unpublished(v, previousDefault, r)
  }

  /** The deferred functions of an InitContext that did not commit. */
  function Undone(c: Snapshot, handle: Id, previousDefault: Option<Id>, runtime: Option<Id>, queue: Option<Id>): Snapshot {
    c.(installed := previousDefault, handles := Bump(c.handles, handle),
       graphs := if runtime.Some? then Bump(c.graphs, runtime.value) else c.graphs,
       queues := if queue.Some? then BumpQueue(c.queues, queue.value) else c.queues)
  }

  function AfterInit(c: Snapshot, r: InitRun): Snapshot {
    if !r.opens then c
    else
      var t := Initialized(WithHandle(c), |c.handles|, c.installed, r);
      if Commits(c, r) then t else Undone(t, |c.handles|, c.installed, RuntimeId(c, r), QueueId(c, r))
  }

  function AfterReload(c: Snapshot, r: ReloadRun): Snapshot {
    if !r.opens then c
    else if c.queue.Some? && r.bindFails then c.(handles := c.handles + [1])
    else c.(handle := Some(|c.handles|), installed := Some(|c.handles|),
            handles := (if c.handle.Some? then Bump(c.handles, c.handle.value) else c.handles) + [0])
  }

  function CloseRuntime(c: Snapshot, close: CloseResult): Snapshot {
    if c.owner == None then c.(challenge := None)
    else c.(challenge := None, owner := if close.TimedOut() then c.owner else None, graphs := Bump(c.graphs, c.owner.value))
  }

  function WithdrawHandle(c: Snapshot): Snapshot {
    if c.handle == None then c
    else c.(handle := None, installed := if c.installed == c.handle then None else c.installed, handles := Bump(c.handles, c.handle.value))
  }

  function AfterClose(c: Snapshot, r: CloseRun): Snapshot {
    var t := CloseRuntime(c, r.runtime);
    if t.owner.Some? then t
    else
      var u := RetireQueue(t, r.queue);
      if u.managed.Some? || u.retiring.Some? then u else WithdrawHandle(u)
  }

  /** Which of its stages CloseContext gets to, and whether it reports an error. */
  predicate PassesRuntime(c: Snapshot, r: CloseRun) {
    c.owner == None || !r.runtime.TimedOut()
  }

  predicate CloseErrs(c: Snapshot, r: CloseRun) {
    || (c.owner.Some? && r.runtime.failed)
    || (PassesRuntime(c, r) && (c.managed.Some? || c.retiring.Some?) && r.queue.failed)
    || (PassesRuntime(c, r) && Retires(c, r.queue) && c.handle.Some? && r.databaseFails)
  }

  // ----- the operations

  /** Config with the process-wide centre. The small methods that end a resource's life
      demand what makes doing so safe at that very moment. */
  class Config {
    var databaseHandle: Option<Id>
    var defaultHandle: Option<Id>
    var managedQueue: Option<Id>
    var retiringQueue: Option<Id>
    var queue: Option<Id>
    var runtimeOwner: Option<Id>
    var runtimeChallenge: Option<Id>
    var handles: seq<nat>
    var graphs: seq<nat>
    var queues: seq<Queue>

    function Value(): Snapshot
      reads this
    {
      Snapshot(databaseHandle, defaultHandle, managedQueue, retiringQueue, queue, runtimeOwner, runtimeChallenge, handles, graphs, queues)
    }

    constructor ()
      ensures Value() == EMPTY
    {
      databaseHandle, defaultHandle, managedQueue, retiringQueue := None, None, None, None;
      queue, runtimeOwner, runtimeChallenge := None, None, None;
      handles, graphs, queues := [], [], [];
    }

    method InstallDefault(handle: Option<Id>)
      requires Unclosed(handle, handles)
      modifies this`defaultHandle
      ensures defaultHandle == handle
    {
      defaultHandle := handle;
    }

    /** A handle is closed once, and not while anybody can find it. */
    method CloseHandle(handle: Id)
      requires Unclosed(Some(handle), handles) && databaseHandle != Some(handle) && defaultHandle != Some(handle)
      modifies this`handles
      ensures handles == Bump(old(handles), handle)
    {
      handles := handles[handle := handles[handle] + 1];
    }

    /** No graph closes while its capability is published. */
    method CloseGraph(graph: Id)
      requires graph < |graphs| && runtimeChallenge != Some(graph)
      modifies this`graphs
      ensures graphs == Bump(old(graphs), graph)
    {
      graphs := graphs[graph := graphs[graph] + 1];
    }

    /** No capability is published for a closed graph or one without an owner. */
    method SetRuntimeChallenge(capability: Option<Id>)
      requires capability.Some? ==> capability == runtimeOwner && Unclosed(capability, graphs)
      modifies this`runtimeChallenge
      ensures runtimeChallenge == capability
    {
      runtimeChallenge := capability;
    }

    /** No queue is closed while it is published. */
    method CloseQueue(adapter: Id)
      requires adapter < |queues| && queue != Some(adapter)
      modifies this`queues
      ensures queues == BumpQueue(old(queues), adapter)
    {
      queues := queues[adapter := queues[adapter].(closes := queues[adapter].closes + 1)];
    }

    method PrepareChallengeRuntime(r: InitRun) returns (candidate: Option<Id>, err: bool)
      modifies this`graphs
      ensures err == !RuntimeUsable(r)
      ensures candidate == if r.runtime.Built? then Some(|old(graphs)|) else None
      ensures graphs == old(graphs) + if r.runtime.Built? then [0] else if r.runtime.NotReady? then [1] else []
    {
      match r.runtime
      case Disabled => candidate, err := None, false;
      case Built => candidate, err, graphs := Some(|graphs|), false, graphs + [0];
      case NotStarted => candidate, err := None, r.required;
      case NotReady => candidate, err, graphs := None, r.required, graphs + [1];
    }

    method BuildOptionalQueue(q: QueueBuild) returns (candidate: Option<Id>, err: bool)
      requires queue.Some? ==> queue.value < |queues|
      modifies this`queues
      ensures err == !QueueUsable(q)
      ensures candidate == if QueueMade(q).Some? then Some(|old(queues)|) else None
      ensures queues == old(queues) + if !q.configured || q.candidate == None then [] else [Queue(q.candidate.value, if q.failed then 1 else 0)]
    {
      if !q.configured {
        return None, false;
      }
      candidate := None;
      if q.candidate.Some? {
        candidate, queues := Some(|queues|), queues + [Queue(q.candidate.value, 0)];
      }
      if !q.failed {
        return candidate, false;
      }
      if candidate.Some? {
        CloseQueue(candidate.value);
      }
      if q.contextDone || (q.cancellation && !q.unavailable) || candidate.Some? || q.invalid {
        return None, true;
      }
      return None, !q.unavailable;
    }

    method RetireManagedQueueForReplacement(next: Option<Id>, close: CloseResult) returns (err: bool, complete: bool)
      requires QueueOwned(Value()) && (next.Some? ==> next != managedQueue && next != queue)
      modifies this`managedQueue, this`retiringQueue, this`queue, this`queues
      ensures Value() == RetireQueue(old(Value()), close)
      ensures complete == Retires(old(Value()), close)
      ensures |queues| == |old(queues)| && forall q :: 0 <= q < |queues| ==> queues[q].managed == old(queues)[q].managed
      ensures queue == None || queue == old(queue)
      ensures err == (close.failed && (old(managedQueue).Some? || old(retiringQueue).Some?))
    {
      if managedQueue.Some? && managedQueue != next {
        assert !(retiringQueue.Some? && retiringQueue != managedQueue);   // never "already retiring"
        retiringQueue, managedQueue := managedQueue, None;
      }
      if retiringQueue.Some? && queue == retiringQueue {
        queue := None;
      }
      if retiringQueue == None {
        return false, true;
      }
      CloseQueue(retiringQueue.value);
      complete := close.Completed();
      err := close.failed;
      if complete {
        retiringQueue := None;
      }
    }

    method ReplaceChallengeRuntime(next: Option<Id>, closeFails: bool) returns (err: bool)
      requires GraphOwned(Value()) && Unclosed(next, graphs) && (next.Some? ==> next != runtimeOwner)
      modifies this`runtimeOwner, this`runtimeChallenge, this`graphs
      ensures err == (old(runtimeOwner).Some? && closeFails)
      ensures runtimeOwner == if err then old(runtimeOwner) else next
      ensures runtimeChallenge == if err then None else next
      ensures graphs == if old(runtimeOwner).Some? then Bump(old(graphs), old(runtimeOwner).value) else old(graphs)
      ensures |graphs| == |old(graphs)|
    {
      var previous := runtimeOwner;
      if previous == next {
        return false;
      }
      runtimeOwner := None;
      SetRuntimeChallenge(None);
      if previous.Some? {
        CloseGraph(previous.value);
        if closeFails {
          runtimeOwner := previous;
          return true;
        }
      }
      runtimeOwner := next;
      SetRuntimeChallenge(next);
      err := false;
    }

    /** Publishing the handle and retiring the one before. */
    method PublishHandle(newHandle: Id, oldCloseFails: bool) returns (err: bool)
      requires HandleOwnedOrNew(newHandle) && Unclosed(Some(newHandle), handles) && defaultHandle == Some(newHandle)
      modifies this`databaseHandle, this`handles
      ensures databaseHandle == Some(newHandle)
      ensures handles == if old(databaseHandle).Some? then Bump(old(handles), old(databaseHandle).value) else old(handles)
      ensures err == (old(databaseHandle).Some? && oldCloseFails)
    {
      var oldHandle := databaseHandle;
      databaseHandle := Some(newHandle);
      if oldHandle.Some? {
        CloseHandle(oldHandle.value);
        return oldCloseFails;
      }
      err := false;
    }

    predicate HandleOwnedOrNew(newHandle: Id)
      reads this
    {
      Unclosed(databaseHandle, handles) && databaseHandle != Some(newHandle)
    }

    /** The deferred functions of an InitContext that did not commit, last one first. */
    method RollBack(newHandle: Id, previousDefault: Option<Id>, runtimeCandidate: Option<Id>, queueCandidate: Option<Id>)
      requires Unclosed(Some(newHandle), handles) && databaseHandle != Some(newHandle) && previousDefault != Some(newHandle)
      requires Unclosed(previousDefault, handles)
      requires runtimeCandidate.Some? ==> runtimeCandidate.value < |graphs| && runtimeChallenge != runtimeCandidate
      requires queueCandidate.Some? ==> queueCandidate.value < |queues| && queue != queueCandidate
      modifies this`handles, this`graphs, this`queues, this`defaultHandle
      ensures defaultHandle == previousDefault && handles == Bump(old(handles), newHandle)
      ensures graphs == if runtimeCandidate.Some? then Bump(old(graphs), runtimeCandidate.value) else old(graphs)
      ensures queues == if queueCandidate.Some? then BumpQueue(old(queues), queueCandidate.value) else old(queues)
    {
      if queueCandidate.Some? {
        CloseQueue(queueCandidate.value);
      }
      if runtimeCandidate.Some? {
        CloseGraph(runtimeCandidate.value);
      }
      InstallDefault(previousDefault);
      CloseHandle(newHandle);
    }

    /** InitContext with every candidate at hand: the previous snapshot is back in place
        while its queue drains and its runtime closes. */
    method ReplaceOwned(previousDefault: Option<Id>, runtimeCandidate: Option<Id>, managedCandidate: Option<Id>, r: InitRun)
        returns (complete: bool, err: bool)
      requires Unclosed(previousDefault, handles)
      requires GraphOwned(Value()) && Unclosed(runtimeCandidate, graphs) && (runtimeCandidate.Some? ==> runtimeCandidate != runtimeOwner)
      requires QueueOwned(Value()) && (managedCandidate.Some? ==> managedCandidate != managedQueue && managedCandidate != queue)
      modifies this
      ensures complete == (Retires(old(Value()), r.retire) && !ReplaceSticks(old(Value()), r))
      ensures Value() == if complete then Replaced(old(Value()), previousDefault, runtimeCandidate, r)
                         else Unpublished(old(Value()), previousDefault, r)
      ensures complete ==> err == RetireFails(old(Value()), r)
      ensures SameKinds(old(Value()), Value())
      ensures !complete && runtimeCandidate.Some? ==> runtimeChallenge != runtimeCandidate
      ensures queue == None || queue == old(queue)
    {
      hide Bump, BumpQueue, RetireQueue, Retires;
      InstallDefault(previousDefault);
      RetiringIgnoresDefault(old(Value()), previousDefault, r.retire);
      err, complete := RetireManagedQueueForReplacement(managedCandidate, r.retire);
      if complete {
        var replaceErr := ReplaceChallengeRuntime(runtimeCandidate, r.replaceFails);
        complete := !replaceErr;
      }
    }

    method Publish(newHandle: Id, managedCandidate: Option<Id>, queueCandidate: Option<Id>, oldCloseFails: bool) returns (err: bool)
      requires HandleOwnedOrNew(newHandle) && Unclosed(Some(newHandle), handles)
      requires managedCandidate == if queueCandidate.Some? && queueCandidate.value < |queues| && queues[queueCandidate.value].managed
                                   then queueCandidate else None
      modifies this
      ensures Value() == Published(old(Value()), newHandle, queueCandidate)
      ensures err == (old(databaseHandle).Some? && oldCloseFails)
    {
      InstallDefault(Some(newHandle));
      managedQueue := managedCandidate;
      queue := queueCandidate;
      err := PublishHandle(newHandle, oldCloseFails);
    }

    /** The end of InitContext, with every candidate at hand. */
    method PublishCandidates(newHandle: Id, previousDefault: Option<Id>, runtimeCandidate: Option<Id>, queueCandidate: Option<Id>, r: InitRun)
        returns (committed: bool, err: bool)
      requires HandleOwnedOrNew(newHandle) && Unclosed(Some(newHandle), handles) && Unclosed(previousDefault, handles)
      requires GraphOwned(Value()) && Unclosed(runtimeCandidate, graphs) && (runtimeCandidate.Some? ==> runtimeCandidate != runtimeOwner)
      requires QueueOwned(Value()) && (queueCandidate.Some? ==> queueCandidate.value < |queues| && queueCandidate != managedQueue && queueCandidate != queue)
      modifies this
      ensures committed == Completes(old(Value()), r)
      ensures Value() == if committed then Published(Replaced(old(Value()), previousDefault, runtimeCandidate, r), newHandle, queueCandidate)
                         else Unpublished(old(Value()), previousDefault, r)
      ensures err == (!committed || RetireFails(old(Value()), r) || (old(databaseHandle).Some? && r.oldCloseFails))
      ensures !committed ==> Abandonable(newHandle, old(Value()), runtimeCandidate, queueCandidate)
    {
      hide Published, Unpublished, Replaced, Bump, BumpQueue, RetireQueue, Retires, ReplaceSticks, RetireFails;
      var managedCandidate := if queueCandidate.Some? && queues[queueCandidate.value].managed then queueCandidate else None;
      var complete, retireErr := ReplaceOwned(previousDefault, runtimeCandidate, managedCandidate, r);
      if !complete {
        return false, true;
      }
      err := Publish(newHandle, managedCandidate, queueCandidate, r.oldCloseFails);
      return true, err || retireErr;
    }

    /** InitContext up to its deferred functions, with the candidates these will find. */
    method Initialize(newHandle: Id, previousDefault: Option<Id>, r: InitRun)
        returns (committed: bool, runtimeCandidate: Option<Id>, queueCandidate: Option<Id>, err: bool)
      requires HandleOwnedOrNew(newHandle) && Unclosed(Some(newHandle), handles) && Unclosed(previousDefault, handles)
      requires GraphOwned(Value()) && QueueOwned(Value())
      modifies this
      ensures Value() == Initialized(old(Value()), newHandle, previousDefault, r)
      ensures runtimeCandidate == RuntimeId(old(Value()), r) && queueCandidate == QueueId(old(Value()), r)
      ensures committed == (RuntimeUsable(r) && QueueUsable(r.queue) && Completes(old(Value()), r))
      ensures err == (!committed || RetireFails(old(Value()), r) || (old(databaseHandle).Some? && r.oldCloseFails))
      ensures !committed ==> Abandonable(newHandle, old(Value()), runtimeCandidate, queueCandidate)
    {
      hide Published, Unpublished, Replaced, Bump, BumpQueue, RetireQueue;
      committed, queueCandidate := false, None;
      runtimeCandidate, err := PrepareChallengeRuntime(r);
      if err {
        return;
      }
      queueCandidate, err := BuildOptionalQueue(r.queue);
      if err {
        return;
      }
      committed, err := PublishCandidates(newHandle, previousDefault, runtimeCandidate, queueCandidate, r);
    }

    /** What the deferred functions need in order to close the candidates safely. */
    ghost predicate Abandonable(newHandle: Id, before: Snapshot, runtime: Option<Id>, adapter: Option<Id>)
      reads this
    {
      && databaseHandle == before.handle && handles == before.handles
      && (runtime.Some? ==> runtime.value < |graphs| && runtimeChallenge != runtime)
      && (adapter.Some? ==> adapter.value < |queues| && queue != adapter)
    }

    /** Commits everything or rolls every candidate back. */
    method InitContext(r: InitRun) returns (err: bool)
      requires Inv(Value())
      modifies this
      ensures Value() == AfterInit(old(Value()), r)
      ensures err == (!Commits(old(Value()), r) || (r.retire.failed && (old(managedQueue).Some? || old(retiringQueue).Some?)) || (old(databaseHandle).Some? && r.oldCloseFails))
    {
      hide HandlesClosed, GraphsClosed, QueuesClosed, Initialized, Bump, BumpQueue;
      if !r.opens {
        return true;
      }
      var newHandle := |handles|;
      handles := handles + [0];
      var previousDefault := defaultHandle;
      InstallDefault(Some(newHandle));
      var committed, runtimeCandidate, queueCandidate;
      committed, runtimeCandidate, queueCandidate, err := Initialize(newHandle, previousDefault, r);
      if !committed {
        RollBack(newHandle, previousDefault, runtimeCandidate, queueCandidate);
      }
    }

    method ReloadDatabase(r: ReloadRun) returns (err: bool)
      requires Inv(Value())
      modifies this
      ensures Value() == AfterReload(old(Value()), r)
      ensures err == (!r.opens || (old(queue).Some? && r.bindFails) || (old(databaseHandle).Some? && r.oldCloseFails))
    {
      hide HandlesClosed, GraphsClosed, QueuesClosed;
      if !r.opens {
        return true;
      }
      var newHandle := |handles|;
      handles := handles + [0];
      if queue.Some? && r.bindFails {
        CloseHandle(newHandle);
        return true;
      }
      InstallDefault(Some(newHandle));
      err := PublishHandle(newHandle, r.oldCloseFails);
    }

    method CloseChallengeRuntime(close: CloseResult) returns (err: bool)
      requires GraphOwned(Value())
      modifies this`runtimeOwner, this`runtimeChallenge, this`graphs
      ensures Value() == CloseRuntime(old(Value()), close)
      ensures err == (old(runtimeOwner).Some? && close.failed)
    {
      SetRuntimeChallenge(None);
      if runtimeOwner == None {
        return false;
      }
      CloseGraph(runtimeOwner.value);
      err := close.failed;
      if !close.TimedOut() {
        runtimeOwner := None;
      }
    }

    method CloseManagedQueue(close: CloseResult) returns (err: bool)
      requires QueueOwned(Value())
      modifies this`managedQueue, this`retiringQueue, this`queue, this`queues
      ensures Value() == RetireQueue(old(Value()), close)
      ensures err == ((old(managedQueue).Some? || old(retiringQueue).Some?) && close.failed)
    {
      if retiringQueue == None && managedQueue.Some? {
        retiringQueue, managedQueue := managedQueue, None;
      }
      if retiringQueue == None {
        return false;
      }
      if queue == retiringQueue {
        queue := None;
      }
      CloseQueue(retiringQueue.value);
      err := close.failed;
      if close.Completed() {
        retiringQueue := None;
      }
    }

    /** Challenge runtime, then queue, then database; what cannot close in time keeps the
        rest alive. */
    method CloseContext(r: CloseRun) returns (err: bool)
      requires Inv(Value())
      modifies this
      ensures Value() == AfterClose(old(Value()), r)
      ensures err == CloseErrs(old(Value()), r)
    {
      hide HandlesClosed, GraphsClosed, QueuesClosed;
      err := CloseChallengeRuntime(r.runtime);
      if runtimeOwner.Some? {
        return;
      }
      var queueErr := CloseManagedQueue(r.queue);
      err := err || queueErr;
      if managedQueue.Some? || retiringQueue.Some? {
        return;
      }
      var handle := databaseHandle;
      databaseHandle := None;
      if handle.Some? {
        if defaultHandle == handle {
          InstallDefault(None);
        }
        CloseHandle(handle.value);
        err := err || r.databaseFails;
      }
    }
  }

  // ----- what one InitContext does

  /** Whether InitContext gets as far as retiring the queue in use. */
  predicate Built(r: InitRun) {
    r.opens && RuntimeUsable(r) && QueueUsable(r.queue)
  }

  /** The handles after InitContext. */
  lemma InitHandles(c: Snapshot, r: InitRun)
    requires HandleOwned(c)
    ensures var t := AfterInit(c, r);
            && t.handle == (if Commits(c, r) then Some(|c.handles|) else c.handle) && t.installed == t.handle
            && t.handles == if !r.opens then c.handles
                            else if !Commits(c, r) then Bump(c.handles + [0], |c.handles|)
                            else if c.handle.Some? then Bump(c.handles + [0], c.handle.value) else c.handles + [0]
  {
    hide Bump, BumpQueue, RuntimeUsable, QueueUsable, RetireQueue, RuntimeId, QueueId;
    RetireFrame(WithQueue(WithRuntime(WithHandle(c), r), r.queue), r.retire);
  }

  lemma RetireFrame(c: Snapshot, close: CloseResult)
    ensures var t := RetireQueue(c, close);
            RetireQueue(c, close) == c.(managed := t.managed, retiring := t.retiring, queue := t.queue, queues := t.queues)
  {
  }

  /** The challenge runtimes after InitContext. */
  lemma InitGraphs(c: Snapshot, r: InitRun)
    requires GraphOwned(c)
    ensures var t := AfterInit(c, r);
            var made := if r.opens then WithRuntime(c, r).graphs else c.graphs;
            var replaced := if Built(r) && Retires(c, r.retire) && c.owner.Some? then Bump(made, c.owner.value) else made;
            && t.owner == (if Commits(c, r) then RuntimeId(c, r) else c.owner)
            && t.challenge == (if Commits(c, r) then RuntimeId(c, r) else if Built(r) && Retires(c, r.retire) then None else c.challenge)
            && t.graphs == if r.opens && !Commits(c, r) && RuntimeId(c, r).Some? then Bump(replaced, |c.graphs|) else replaced
  {
    hide Bump, BumpQueue, QueueUsable, RetireQueue, QueueId;
    RetireFrame(WithQueue(WithRuntime(WithHandle(c), r), r.queue), r.retire);
  }

  /** The queue fields once the old queue was told to retire, if InitContext gets there. */
  function QueuesRetired(c: Snapshot, r: InitRun): Snapshot {
    if !r.opens || !RuntimeUsable(r) then c
    else if !Built(r) then WithQueue(c, r.queue)
    else RetireQueue(WithQueue(c, r.queue), r.retire)
  }

  lemma InitQueuesCommitted(c: Snapshot, r: InitRun)
    requires QueueOwned(c) && Commits(c, r)
    ensures var t, u := AfterInit(c, r), QueuesRetired(c, r);
            && t.retiring == u.retiring && t.queue == QueueId(c, r) && t.queues == u.queues
            && t.managed == if QueueId(c, r).Some? && |c.queues| < |u.queues| && u.queues[|c.queues|].managed then QueueId(c, r) else None
  {
    hide Bump, BumpQueue, RuntimeId, RetireQueue, WithQueue, QueueMade, QueueUsable, RuntimeUsable;
    RetireIgnoresRest(c, r);
  }

  lemma InitQueuesFailed(c: Snapshot, r: InitRun)
    requires QueueOwned(c) && !Commits(c, r)
    ensures var t, u := AfterInit(c, r), QueuesRetired(c, r);
            && t.retiring == u.retiring && t.queue == u.queue && t.managed == u.managed
            && t.queues == if r.opens && QueueId(c, r).Some? then BumpQueue(u.queues, |c.queues|) else u.queues
  {
    hide Bump, BumpQueue, RuntimeId, RetireQueue, WithQueue, QueueMade, QueueUsable, RuntimeUsable;
    RetireIgnoresRest(c, r);
  }

  /** The queues after InitContext. */
  lemma InitQueues(c: Snapshot, r: InitRun)
    requires QueueOwned(c)
    ensures var t, u := AfterInit(c, r), QueuesRetired(c, r);
            && t.retiring == u.retiring
            && t.queue == (if Commits(c, r) then QueueId(c, r) else u.queue)
            && t.managed == (if !Commits(c, r) then u.managed
                             else if QueueId(c, r).Some? && |c.queues| < |u.queues| && u.queues[|c.queues|].managed then QueueId(c, r) else None)
            && t.queues == if r.opens && !Commits(c, r) && QueueId(c, r).Some? then BumpQueue(u.queues, |c.queues|) else u.queues
  {
    hide AfterInit, QueuesRetired, QueueId, BumpQueue, QueueOwned;
    if Commits(c, r) {
      InitQueuesCommitted(c, r);
    } else {
      InitQueuesFailed(c, r);
    }
  }

  /** Retiring the queue looks at the queue fields alone. */
  lemma RetireIgnoresRest(c: Snapshot, r: InitRun)
    ensures var v, q := WithQueue(WithRuntime(WithHandle(c), r), r.queue), WithQueue(c, r.queue);
            var t, u := RetireQueue(v, r.retire), RetireQueue(q, r.retire);
            && t.managed == u.managed && t.retiring == u.retiring && t.queue == u.queue && t.queues == u.queues
            && v.managed == q.managed && v.retiring == q.retiring && v.queue == q.queue && v.queues == q.queues
            && t == v.(managed := t.managed, retiring := t.retiring, queue := t.queue, queues := t.queues)
            && q.managed == c.managed && q.retiring == c.retiring && q.queue == c.queue
  {
  }

  /** The database side of InitContext: it commits a fresh open handle and closes the one
      before, or keeps that one and closes the fresh one. */
  lemma InitHandleSettled(c: Snapshot, r: InitRun)
    requires HandleOwned(c)
    ensures var t := AfterInit(c, r);
            && HandleOwned(t) && (HandlesClosed(c) ==> HandlesClosed(t))
            && t.handle == (if Commits(c, r) then Some(|c.handles|) else c.handle)
            && |t.handles| == |c.handles| + (if r.opens then 1 else 0)
            && (forall h :: 0 <= h < |c.handles| && (c.handle != Some(h) || !Commits(c, r)) ==> t.handles[h] == c.handles[h])
            && (r.opens ==> t.handles[|c.handles|] == if Commits(c, r) then 0 else 1)
  {
    InitHandles(c, r);
    hide AfterInit, Commits;
  }

  lemma Bumped(closes: seq<nat>, id: Id)
    ensures |Bump(closes, id)| == |closes|
    ensures forall i :: 0 <= i < |closes| ==> Bump(closes, id)[i] == closes[i] + if i == id then 1 else 0
  {
  }

  /** The challenge side: a fresh graph is owned and published by a commit, or was told to
      close exactly once; on a failure the owner stays, and no older graph is closed unless
      its capability is withdrawn. */
  lemma InitGraphSettled(c: Snapshot, r: InitRun)
    requires GraphOwned(c)
    ensures var t := AfterInit(c, r);
            && GraphOwned(t) && (GraphsClosed(c) ==> GraphsClosed(t))
            && t.owner == (if Commits(c, r) then RuntimeId(c, r) else c.owner)
            && |t.graphs| >= |c.graphs|
            && (forall g :: |c.graphs| <= g < |t.graphs| ==> t.graphs[g] == if t.owner == Some(g) then 0 else 1)
            && (t.challenge == c.challenge && c.challenge.Some? ==> t.graphs[..|c.graphs|] == c.graphs)
  {
    InitGraphs(c, r);
    hide AfterInit, Commits, Retires, QueueUsable, RuntimeUsable, Built, GraphsClosed;
    var made := if r.opens then WithRuntime(c, r).graphs else c.graphs;
    MadeGraphs(c, r);
    hide WithRuntime;
    if c.owner.Some? { Bumped(made, c.owner.value); }
    var replaced := if Built(r) && Retires(c, r.retire) && c.owner.Some? then Bump(made, c.owner.value) else made;
    Bumped(replaced, |c.graphs|);
    hide Bump;
    var t := AfterInit(c, r);
    assert t.challenge == c.challenge && c.challenge.Some? ==> t.graphs[..|c.graphs|] == c.graphs;
    assert GraphsClosed(c) ==> GraphsClosed(t) by { OldGraphsClosed(c, t); }
  }

  /** The graphs of an InitContext before any is closed. */
  lemma MadeGraphs(c: Snapshot, r: InitRun)
    ensures var made := if r.opens then WithRuntime(c, r).graphs else c.graphs;
            && |c.graphs| <= |made| <= |c.graphs| + 1
            && (forall g :: 0 <= g < |c.graphs| ==> made[g] == c.graphs[g])
            && (forall g :: |c.graphs| <= g < |made| ==> made[g] == if RuntimeId(c, r).Some? then 0 else 1)
  {
    var made := if r.opens then WithRuntime(c, r).graphs else c.graphs;
    forall g | |c.graphs| <= g < |made| ensures made[g] == if RuntimeId(c, r).Some? then 0 else 1 {
      assert g == |c.graphs| && made[|c.graphs|] == if r.runtime.Built? then 0 else 1;
    }
  }

  lemma OldGraphsClosed(c: Snapshot, t: Snapshot)
    requires |t.graphs| >= |c.graphs|
    requires forall g :: 0 <= g < |c.graphs| ==> t.graphs[g] >= c.graphs[g]
    requires forall g :: |c.graphs| <= g < |t.graphs| && t.owner != Some(g) ==> t.graphs[g] >= 1
    requires c.owner.Some? && t.owner != c.owner && c.owner.value < |c.graphs| ==> t.graphs[c.owner.value] >= 1
    ensures GraphsClosed(c) ==> GraphsClosed(t)
  {
  }

  lemma QueuesRetiredKeeps(c: Snapshot, r: InitRun)
    requires QueueOwned(c) && QueuesClosed(c)
    ensures var u := QueuesRetired(c, r);
            && QueueOwned(u) && |u.queues| >= |c.queues|
            && (Commits(c, r) ==> u.managed == None && u.retiring == None && (u.queue.Some? ==> !u.queues[u.queue.value].managed))
            && (forall q :: 0 <= q < |c.queues| ==> u.queues[q].managed == c.queues[q].managed && u.queues[q].closes >= c.queues[q].closes)
            && (u.queue.Some? ==> u.queue == c.queue)
            && (u.managed.Some? ==> u.managed == c.managed) && (u.retiring.Some? ==> u.retiring in [c.managed, c.retiring])
            && (r.opens && QueueId(c, r).Some? ==> |u.queues| == |c.queues| + 1 && u.queues[|c.queues|] == Queue(QueueMade(r.queue).value, 0))
            && (!r.opens || QueueId(c, r) == None ==> forall q :: |c.queues| <= q < |u.queues| ==> u.queues[q].closes == 1)
            && (forall q :: 0 <= q < |c.queues| && u.queues[q].managed && u.managed != Some(q) ==> u.queues[q].closes >= 1)
  {
  }

  /** The queue side: a fresh queue is published by a commit or was told to close exactly
      once; an older managed queue is retired by a commit and never taken up again. */
  lemma InitQueueSettled(c: Snapshot, r: InitRun)
    requires QueueOwned(c) && QueuesClosed(c)
    ensures var t := AfterInit(c, r);
            && QueueOwned(t) && QueuesClosed(t) && |t.queues| >= |c.queues|
            && (Commits(c, r) ==> t.queue == QueueId(c, r) && t.retiring == None)
            && (!Commits(c, r) ==> t.queue in [None, c.queue] && t.managed in [None, c.managed])
            && (forall q :: |c.queues| <= q < |t.queues| ==> t.queues[q].closes == if t.queue == Some(q) then 0 else 1)
  {
    InitQueues(c, r);
    QueuesRetiredKeeps(c, r);
    hide AfterInit, Commits, RetireQueue, QueuesRetired, QueueUsable, RuntimeUsable, QueueMade;
  }

  lemma InitKeeps(c: Snapshot, r: InitRun)
    requires Inv(c)
    ensures Inv(AfterInit(c, r))
  {
    InitHandleSettled(c, r);
    InitGraphSettled(c, r);
    InitQueueSettled(c, r);
    hide AfterInit, HandleOwned, GraphOwned, QueueOwned, HandlesClosed, GraphsClosed, QueuesClosed;
  }

  /** Commit or nothing: what InitContext publishes when it commits, and what a failure
      leaves in place. */
  lemma InitAllOrNothing(c: Snapshot, r: InitRun)
    requires Inv(c)
    ensures var t := AfterInit(c, r);
            if Commits(c, r)
            then t.handle == t.installed == Some(|c.handles|) && t.owner == t.challenge == RuntimeId(c, r) && t.queue == QueueId(c, r)
                 && t.retiring == None && (forall h :: 0 <= h < |c.handles| ==> t.handles[h] == 1)
            else t.handle == t.installed == c.handle && t.owner == c.owner && t.queue in [None, c.queue]
                 && t.handles == c.handles + if r.opens then [1] else []
  {
    InitHandles(c, r);
    InitGraphs(c, r);
    InitHandleSettled(c, r);
    InitQueueSettled(c, r);
    hide AfterInit, Commits, QueueId, RuntimeId, GraphsClosed, QueuesClosed, QueueOwned, GraphOwned;
  }

  /** A plain queue that a commit replaces is no longer published but never shut down. */
  lemma PlainQueueLeftRunning(c: Snapshot, r: InitRun)
    requires Inv(c) && Commits(c, r) && c.queue.Some? && !c.queues[c.queue.value].managed
    ensures var t := AfterInit(c, r); t.queue != c.queue && c.queue.value < |t.queues| && t.queues[c.queue.value].closes == 0
  {
    InitQueues(c, r);
    hide AfterInit, RuntimeUsable, QueueUsable, HandlesClosed, GraphsClosed, QueuesClosed, HandleOwned, GraphOwned;
  }

  lemma ReloadKeeps(c: Snapshot, r: ReloadRun)
    requires Inv(c)
    ensures Inv(AfterReload(c, r))
  {
    hide GraphsClosed, QueuesClosed;
    assert GraphsClosed(AfterReload(c, r)) && QueuesClosed(AfterReload(c, r)) by { ReloadFrame(c, r); }
  }

  lemma ReloadFrame(c: Snapshot, r: ReloadRun)
    requires GraphsClosed(c) && QueuesClosed(c)
    ensures GraphsClosed(AfterReload(c, r)) && QueuesClosed(AfterReload(c, r))
  {
  }

  // ----- shutting down

  predicate FullyClosed(c: Snapshot) {
    c.handle == None && c.installed == None && c.managed == None && c.retiring == None && c.owner == None && c.challenge == None
  }

  lemma CloseRuntimeKeeps(c: Snapshot, close: CloseResult)
    requires Inv(c)
    ensures Inv(CloseRuntime(c, close))
  {
    hide HandlesClosed, QueuesClosed;
    var t := CloseRuntime(c, close);
    assert HandlesClosed(t) && QueuesClosed(t) by { CloseRuntimeFrame(c, close); }
  }

  lemma CloseRuntimeFrame(c: Snapshot, close: CloseResult)
    ensures HandlesClosed(c) ==> HandlesClosed(CloseRuntime(c, close))
    ensures QueuesClosed(c) ==> QueuesClosed(CloseRuntime(c, close))
  {
  }

  lemma RetireQueueKeeps(c: Snapshot, close: CloseResult)
    requires Inv(c)
    ensures Inv(RetireQueue(c, close))
  {
    hide HandlesClosed, GraphsClosed;
    assert HandlesClosed(RetireQueue(c, close)) && GraphsClosed(RetireQueue(c, close)) by { RetireQueueFrame(c, close); }
  }

  lemma RetireQueueFrame(c: Snapshot, close: CloseResult)
    ensures HandlesClosed(c) ==> HandlesClosed(RetireQueue(c, close))
    ensures GraphsClosed(c) ==> GraphsClosed(RetireQueue(c, close))
  {
    RetireFrame(c, close);
  }

  lemma WithdrawKeeps(c: Snapshot)
    requires Inv(c)
    ensures Inv(WithdrawHandle(c))
  {
    assert GraphsClosed(WithdrawHandle(c)) && QueuesClosed(WithdrawHandle(c));
  }

  lemma CloseKeeps(c: Snapshot, r: CloseRun)
    requires Inv(c)
    ensures Inv(AfterClose(c, r))
  {
    CloseRuntimeKeeps(c, r.runtime);
    RetireQueueKeeps(CloseRuntime(c, r.runtime), r.queue);
    WithdrawKeeps(RetireQueue(CloseRuntime(c, r.runtime), r.queue));
    hide Inv, CloseRuntime, RetireQueue, WithdrawHandle;
  }

  /** Closing order: a queue is told to close, or a handle withdrawn, only when no graph is
      owned any more; a handle only when no queue is owned either; and that is exactly when
      everything is closed. */
  lemma CloseOrder(c: Snapshot, r: CloseRun)
    requires Inv(c)
    ensures var t := AfterClose(c, r);
            && (t.queues != c.queues || t.queue != c.queue || t.handle != c.handle ==> t.owner == None)
            && (t.handle != c.handle || t.handles != c.handles ==> FullyClosed(t))
            && (FullyClosed(t) <==> PassesRuntime(c, r) && Retires(c, r.queue))
            && t.challenge == None
  {
    hide HandlesClosed, GraphsClosed, QueuesClosed, Bump, BumpQueue;
  }

  /** The state after a series of CloseContext attempts. */
  function Retried(c: Snapshot, runs: seq<CloseRun>): Snapshot
    decreases |runs|
  {
    if runs == [] then c else Retried(AfterClose(c, runs[0]), runs[1..])
  }

  /** What one attempt leaves to be done. */
  lemma AttemptLeaves(c: Snapshot, r: CloseRun)
    requires Inv(c)
    ensures var t := AfterClose(c, r);
            && (t.owner == None <==> PassesRuntime(c, r))
            && (t.managed == None && t.retiring == None <==> (PassesRuntime(c, r) && Retires(c, r.queue)) || (c.managed == None && c.retiring == None))
  {
    hide HandlesClosed, GraphsClosed, QueuesClosed, Bump, BumpQueue;
  }

  /** Some attempt gets past the runtime, and it or a later one past the queue: there is none,
      or closing it ends without a deadline, or the queue reports that it is closed. */
  ghost predicate Succeeds(c: Snapshot, runs: seq<CloseRun>, i: int, j: int) {
    && 0 <= i <= j < |runs|
    && (c.owner == None || !runs[i].runtime.failed || !runs[i].runtime.deadline)
    && ((c.managed == None && c.retiring == None)
        || !runs[j].queue.failed || !runs[j].queue.deadline || runs[j].queue.reportsComplete)
  }

  lemma SucceedsLater(c: Snapshot, runs: seq<CloseRun>, i: int, j: int)
    requires Inv(c) && |runs| > 1 && Succeeds(AfterClose(c, runs[0]), runs[1..], i, j)
    ensures exists k, l :: Succeeds(c, runs, k, l)
  {
    AttemptLeaves(c, runs[0]);
    hide AfterClose, Inv;
    var done := PassesRuntime(c, runs[0]);
    assert Succeeds(c, runs, if done then 0 else i + 1, if done && Retires(c, runs[0].queue) then 0 else j + 1);
  }

  lemma SucceedsRest(c: Snapshot, runs: seq<CloseRun>, i: int, j: int)
    requires Inv(c) && |runs| > 1 && Succeeds(c, runs, i, j)
    ensures exists k, l :: Succeeds(AfterClose(c, runs[0]), runs[1..], k, l)
  {
    AttemptLeaves(c, runs[0]);
    hide AfterClose, Inv;
    var k, l := if i == 0 then 0 else i - 1, if j == 0 then 0 else j - 1;
    assert Succeeds(AfterClose(c, runs[0]), runs[1..], k, l);
  }

  /** However often closing times out, retries reach the fully closed state exactly when an
      attempt gets past the runtime and the same or a later one past the queue. */
  lemma {:induction false} RetriesClose(c: Snapshot, runs: seq<CloseRun>)
    requires Inv(c) && |runs| > 0
    ensures FullyClosed(Retried(c, runs)) <==> exists i, j :: Succeeds(c, runs, i, j)
    decreases |runs|
  {
    var t := AfterClose(c, runs[0]);
    CloseKeeps(c, runs[0]);
    CloseOrder(c, runs[0]);
    AttemptLeaves(c, runs[0]);
    hide AfterClose, Inv, FullyClosed;
    if |runs| == 1 {
      assert Retried(c, runs) == Retried(t, []) == t;
      assert Succeeds(c, runs, 0, 0) <==> PassesRuntime(c, runs[0]) && Retires(c, runs[0].queue);
    } else {
      RetriesClose(t, runs[1..]);
      if i, j :| Succeeds(t, runs[1..], i, j) {
        SucceedsLater(c, runs, i, j);
      }
      if i, j :| Succeeds(c, runs, i, j) {
        SucceedsRest(c, runs, i, j);
      }
    }
  }

  // ----- each operation, field by field

  /** The managed queue that is owned, active or retiring. */
  function OwnedQueue(c: Snapshot): Option<Id> {
    if c.managed.Some? then c.managed else c.retiring
  }

  /** One more Close call on one resource. */
  ghost predicate OneMoreClose(before: seq<nat>, after: seq<nat>, id: Option<Id>) {
    && |after| == |before|
    && forall i :: 0 <= i < |before| ==> after[i] == before[i] + if id == Some(i) then 1 else 0
  }

  ghost predicate OneMoreQueueClose(before: seq<Queue>, after: seq<Queue>, id: Option<Id>) {
    && |after| == |before|
    && forall i :: 0 <= i < |before| ==>
         after[i].managed == before[i].managed && after[i].closes == before[i].closes + if id == Some(i) then 1 else 0
  }

  /** Retiring the managed queue: it is withdrawn and told to close once, and stays owned as
      retiring exactly when that ended with a deadline and it does not report completion. */
  lemma RetireExactly(c: Snapshot, close: CloseResult)
    requires Inv(c)
    ensures var t, stuck := RetireQueue(c, close), close.failed && close.deadline && !close.reportsComplete;
            && t.managed == None && t.retiring == (if stuck then OwnedQueue(c) else None)
            && t.queue == (if OwnedQueue(c).Some? && c.queue == OwnedQueue(c) then None else c.queue)
            && OneMoreQueueClose(c.queues, t.queues, OwnedQueue(c))
            && t == c.(managed := t.managed, retiring := t.retiring, queue := t.queue, queues := t.queues)
  {
    hide HandlesClosed, GraphsClosed, QueuesClosed;
  }

  /** CloseContext. The runtime is withdrawn and told to close in any case. If that ends with
      a deadline, nothing else changes. Otherwise the queue is; if that ends with a deadline
      and without a report of completion, the queue stays owned as retiring and the handle as
      it is. Otherwise no queue stays owned, and the handle is withdrawn and closed once. */
  lemma CloseExactly(c: Snapshot, r: CloseRun)
    requires Inv(c)
    ensures var t := AfterClose(c, r);
            var late := c.owner.Some? && r.runtime.failed && r.runtime.deadline;
            var stuck := OwnedQueue(c).Some? && r.queue.failed && r.queue.deadline && !r.queue.reportsComplete;
            && t.challenge == None && OneMoreClose(c.graphs, t.graphs, c.owner) && t.owner == (if late then c.owner else None)
            && (late ==> t == c.(challenge := None, graphs := t.graphs))
            && (!late ==> t.managed == None && t.retiring == (if stuck then OwnedQueue(c) else None)
                          && (OwnedQueue(c).Some? ==> t.queue != OwnedQueue(c)) && OneMoreQueueClose(c.queues, t.queues, OwnedQueue(c)))
            && (late || stuck ==> t.handle == c.handle && t.installed == c.installed && t.handles == c.handles)
            && (!late && !stuck ==> t.handle == None && t.installed == None && OneMoreClose(c.handles, t.handles, c.handle))
  {
    CloseRuntimeKeeps(c, r.runtime);
    CloseRuntimeExactly(c, r.runtime);
    RetireExactly(CloseRuntime(c, r.runtime), r.queue);
    WithdrawExactly(RetireQueue(CloseRuntime(c, r.runtime), r.queue));
    hide CloseRuntime, RetireQueue, WithdrawHandle, OneMoreClose, OneMoreQueueClose, HandlesClosed, GraphsClosed, QueuesClosed;
  }

  lemma CloseRuntimeExactly(c: Snapshot, close: CloseResult)
    requires GraphOwned(c)
    ensures var t := CloseRuntime(c, close);
            && t.challenge == None && OneMoreClose(c.graphs, t.graphs, c.owner)
            && t.owner == (if close.failed && close.deadline then c.owner else None)
            && t == c.(challenge := None, owner := t.owner, graphs := t.graphs)
  {
  }

  lemma WithdrawExactly(c: Snapshot)
    ensures HandleOwned(c) ==>
      var t := WithdrawHandle(c);
      && t.handle == None && t.installed == None && OneMoreClose(c.handles, t.handles, c.handle)
      && t == c.(handle := None, installed := None, handles := t.handles)
  {
  }

  /** When CloseContext reports an error. */
  lemma CloseErrsExactly(c: Snapshot, r: CloseRun)
    ensures CloseErrs(c, r) <==>
      var late := c.owner.Some? && r.runtime.failed && r.runtime.deadline;
      var stuck := OwnedQueue(c).Some? && r.queue.failed && r.queue.deadline && !r.queue.reportsComplete;
      || (c.owner.Some? && r.runtime.failed)
      || (!late && OwnedQueue(c).Some? && r.queue.failed)
      || (!late && !stuck && c.handle.Some? && r.databaseFails)
  {
  }

  /** What a queue that retires too slowly holds back: in a shutdown it stays owned and the
      handle is not touched; in every other case past the runtime no queue stays owned. */
  lemma SlowQueueKeepsHandle(c: Snapshot, r: CloseRun)
    requires Inv(c) && (c.owner == None || !r.runtime.failed || !r.runtime.deadline) && (c.managed.Some? || c.retiring.Some?)
    ensures var t := AfterClose(c, r);
            if r.queue.failed && r.queue.deadline && !r.queue.reportsComplete
            then t.retiring == OwnedQueue(c) && t.handle == c.handle && t.handles == c.handles && !FullyClosed(t)
            else t.managed == None && t.retiring == None && FullyClosed(t)
  {
    CloseExactly(c, r);
    hide AfterClose, Inv;
  }

  /** InitContext commits if and only if a handle opens, the runtime is disabled, built or not
      required, the queue is not configured, built or unavailable before there is an adapter,
      the managed queue in use retires, and the owned runtime closes. */
  lemma CommitsExactly(c: Snapshot, r: InitRun)
    ensures Commits(c, r) <==>
      && r.opens
      && (r.required ==> !r.runtime.NotStarted? && !r.runtime.NotReady?)
      && (r.queue.configured && r.queue.failed ==>
            r.queue.candidate == None && !r.queue.contextDone && r.queue.unavailable && !r.queue.invalid)
      && (OwnedQueue(c).Some? ==> !r.retire.failed || !r.retire.deadline || r.retire.reportsComplete)
      && (c.owner.Some? ==> !r.replaceFails)
  {
  }

  /** And then publishes the fresh handle, the fresh graph if one was built, and the fresh
      queue if one was built, as owned if it is managed; what was published before is told to
      close once, but for a plain queue. */
  lemma InitCommitExactly(c: Snapshot, r: InitRun)
    requires Inv(c) && Commits(c, r)
    ensures var t := AfterInit(c, r);
            && t.handle == t.installed == Some(|c.handles|)
            && |t.handles| == |c.handles| + 1 && t.handles[|c.handles|] == 0 && OneMoreClose(c.handles, t.handles[..|c.handles|], c.handle)
            && t.owner == t.challenge == (if r.runtime.Built? then Some(|c.graphs|) else None)
            && |t.graphs| >= |c.graphs| && OneMoreClose(c.graphs, t.graphs[..|c.graphs|], c.owner)
  {
    InitHandles(c, r);
    InitGraphs(c, r);
    hide AfterInit, HandlesClosed, GraphsClosed, QueuesClosed;
    MadeGraphs(c, r);
    hide WithRuntime;
  }

  lemma InitCommitQueueExactly(c: Snapshot, r: InitRun)
    requires QueueOwned(c) && Commits(c, r)
    ensures var t := AfterInit(c, r);
            var made := r.queue.configured && !r.queue.failed && r.queue.candidate.Some?;
            && t.queue == (if made then Some(|c.queues|) else None)
            && t.managed == (if made && r.queue.candidate.value then Some(|c.queues|) else None) && t.retiring == None
            && |t.queues| >= |c.queues| && OneMoreQueueClose(c.queues, t.queues[..|c.queues|], OwnedQueue(c))
  {
    InitQueues(c, r);
    hide AfterInit;
  }

  /** A queue in use that retires too slowly stops an initialization: the queue stays owned as
      retiring, and the handle and the runtime stay as they are. */
  lemma SlowQueueStopsInit(c: Snapshot, r: InitRun)
    requires Inv(c) && Built(r) && (c.managed.Some? || c.retiring.Some?)
    requires r.retire.failed && r.retire.deadline && !r.retire.reportsComplete
    ensures var t := AfterInit(c, r);
            && t.retiring == OwnedQueue(c) && t.managed == None && t.queue != OwnedQueue(c)
            && t.handle == t.installed == c.handle && t.owner == c.owner && t.challenge == c.challenge
            && t.handles == c.handles + [1]
  {
    assert !Commits(c, r);
    SlowQueueRetires(c, r);
    InitHandles(c, r);
    InitGraphs(c, r);
    hide AfterInit, QueuesRetired, RetireQueue, HandlesClosed, GraphsClosed, QueuesClosed, WithRuntime;
  }

  lemma SlowQueueRetires(c: Snapshot, r: InitRun)
    requires QueueOwned(c) && Built(r) && (c.managed.Some? || c.retiring.Some?) && !Commits(c, r)
    requires r.retire.failed && r.retire.deadline && !r.retire.reportsComplete
    ensures var t := AfterInit(c, r); t.retiring == OwnedQueue(c) && t.managed == None && t.queue != OwnedQueue(c)
  {
    InitQueues(c, r);
    hide AfterInit;
  }

  /** An initialization that fails before it gets to the queue in use changes nothing that
      others can find, and no resource in use is told to close. */
  lemma EarlyFailureChangesNothing(c: Snapshot, r: InitRun)
    requires Inv(c)
    requires || !r.opens
             || (r.required && (r.runtime.NotStarted? || r.runtime.NotReady?))
             || (r.queue.configured && r.queue.failed
                 && (r.queue.candidate.Some? || r.queue.contextDone || !r.queue.unavailable || r.queue.invalid))
    ensures var t := AfterInit(c, r);
            && t == c.(handles := t.handles, graphs := t.graphs, queues := t.queues)
            && c.handles <= t.handles && c.graphs <= t.graphs && c.queues <= t.queues
  {
    assert !Built(r);
    InitHandles(c, r);
    InitGraphs(c, r);
    InitQueues(c, r);
    MadeGraphs(c, r);
    hide AfterInit, HandlesClosed, GraphsClosed, QueuesClosed, WithRuntime;
  }

  /** If only the runtime in use fails to close, it stays owned, but withdrawn, and the handle
      stays; the queue in use has been retired. */
  lemma StuckRuntimeStopsInit(c: Snapshot, r: InitRun)
    requires Inv(c) && Built(r) && c.owner.Some? && r.replaceFails
    requires !r.retire.failed || !r.retire.deadline || r.retire.reportsComplete
    ensures var t := AfterInit(c, r);
            && t.handle == t.installed == c.handle && t.handles == c.handles + [1]
            && t.owner == c.owner && t.challenge == None && |t.graphs| >= |c.graphs| && OneMoreClose(c.graphs, t.graphs[..|c.graphs|], c.owner)
            && t.managed == None && t.retiring == None && (OwnedQueue(c).Some? ==> t.queue != OwnedQueue(c))
  {
    InitHandles(c, r);
    InitGraphs(c, r);
    InitQueues(c, r);
    hide AfterInit, HandlesClosed, GraphsClosed, QueuesClosed;
    MadeGraphs(c, r);
    hide WithRuntime;
  }

  /** A reload publishes the fresh handle and closes the one before once, or, if the policy
      watcher cannot be bound to the queue, closes the fresh one and changes nothing else. */
  lemma ReloadExactly(c: Snapshot, r: ReloadRun)
    requires Inv(c)
    ensures var t := AfterReload(c, r);
            && t == c.(handle := t.handle, installed := t.installed, handles := t.handles)
            && (if !r.opens then t == c
                else if c.queue.Some? && r.bindFails then t.handle == c.handle && t.installed == c.installed && t.handles == c.handles + [1]
                else t.handle == t.installed == Some(|c.handles|) && |t.handles| == |c.handles| + 1 && t.handles[|c.handles|] == 0
                     && OneMoreClose(c.handles, t.handles[..|c.handles|], c.handle))
  {
  }

  // ----- whole runs

  datatype Action = Init(init: InitRun) | Reload(reload: ReloadRun) | Shutdown(close: CloseRun)

  function Apply(c: Snapshot, a: Action): Snapshot {
    match a
    case Init(r) => AfterInit(c, r)
    case Reload(r) => AfterReload(c, r)
    case Shutdown(r) => AfterClose(c, r)
  }

  function Run(actions: seq<Action>): Snapshot {
    if actions == [] then EMPTY else Apply(Run(actions[..|actions| - 1]), actions[|actions| - 1])
  }

  /** The invariant holds after any run of initializations, reloads and shutdowns. */
  lemma {:induction false} RunKeeps(actions: seq<Action>)
    ensures Inv(Run(actions))
  {
    if actions != [] {
      var c := Run(actions[..|actions| - 1]);
      RunKeeps(actions[..|actions| - 1]);
      hide Inv, AfterInit, AfterReload, AfterClose;
      match actions[|actions| - 1]
      case Init(r) => InitKeeps(c, r);
      case Reload(r) => ReloadKeeps(c, r);
      case Shutdown(r) => CloseKeeps(c, r);
    }
  }

  /** The branch "a different managed queue is already retiring" is dead: after any run at
      most one managed queue is owned. */
  lemma {:induction false} OneManagedQueue(actions: seq<Action>)
    ensures Run(actions).managed == None || Run(actions).retiring == None
  {
    RunKeeps(actions);
  }

  /** Once fully closed, nothing is left behind: every handle ever opened was closed
      exactly once, every graph and every managed queue at least once. */
  lemma ShutdownIsComplete(actions: seq<Action>)
    requires FullyClosed(Run(actions))
    ensures var c := Run(actions);
            && (forall h :: 0 <= h < |c.handles| ==> c.handles[h] == 1)
            && (forall g :: 0 <= g < |c.graphs| ==> c.graphs[g] >= 1)
            && (forall q :: 0 <= q < |c.queues| && c.queues[q].managed ==> c.queues[q].closes >= 1)
  {
    RunKeeps(actions);
    hide Run;
  }

  /** The capability others can see is never that of a graph told to close, and belongs to
      the graph Config owns; the default handle is the published one and open. */
  lemma PublishedIsUsable(actions: seq<Action>)
    ensures var c := Run(actions);
            && (c.challenge.Some? ==> c.challenge == c.owner && c.challenge.value < |c.graphs| && c.graphs[c.challenge.value] == 0)
            && (c.installed.Some? ==> c.installed == c.handle && c.handle.value < |c.handles| && c.handles[c.handle.value] == 0)
            && (c.queue.Some? ==> c.queue.value < |c.queues| && c.queues[c.queue.value].closes == 0)
  {
    RunKeeps(actions);
    hide Run;
  }
}
