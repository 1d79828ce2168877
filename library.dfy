/** The state of the library (src/libwlmio/wlmio.c): the table of node statuses
    and their heartbeat timers, the per-service transfer ids, the registry of
    file descriptors the event loop dispatches, and the list of requests awaiting
    a response.  The two linked lists of the source are sequences here, in list
    order; an entry's address is its `handle`.  Callbacks are recorded in logs
    instead of being run, and the operating system's answers (a new timer
    descriptor, a failed allocation) are parameters. */
module Library {
  import opened Bytes
  import opened Types
  import opened Wire
  import opened Responses

  /** What the event loop calls when a descriptor becomes readable. */
  datatype Handler = CanSocketHandler | AsyncTimerHandler | HeartbeatTimeoutHandler

  /** struct fd_entry. */
  datatype FdEntry = FdEntry(handle: nat, fd: int, handler: Handler)

  /** A `void*` request parameter: the caller's reply buffer, or NULL. */
  datatype Param = Null | Ptr(addr: nat)

  /** The seconds and nanoseconds a request's timeout timer is armed with. */
  datatype TimerSpec = TimerSpec(sec: nat, nsec: nat)

  /** struct task_entry: a request awaiting its response; `timer` is the handle
      of its timeout descriptor's entry. */
  datatype Task = Task(id: u32, timer: nat, delay: TimerSpec, param: Param, callback: nat, uparam: nat)

  /** One invocation of a request callback. */
  datatype Call = Call(callback: nat, r: int, uparam: nat)

  /** One invocation of the status callback. */
  datatype StatusChange = StatusChange(nodeId: byte, before: Status, after: Status)

  /** A transfer handed to the transmit queue. */
  datatype Transfer = Transfer(port: u16, remote: byte, tid: byte, payload: seq<byte>)

  /** What a response handler wrote into a caller's reply buffer. */
  datatype Contents = InfoRecord(info: NodeInfo) | NameRecord(name: seq<byte>) | AccessRecord(reg: RegisterAccess)

  /** What async_add is told by the system: allocation, timerfd_create,
      timerfd_settime and the errno their failure sets. */
  datatype TimerEnv = TimerEnv(allocOk: bool, timerFd: int, settimeOk: bool, errno: int)

  datatype Kind = Message | Request | Response

  // Rows of the transfer-id table, one per request function.
  const SVC_GET_INFO := 0
  const SVC_REGISTER_LIST := 1
  const SVC_REGISTER_ACCESS := 2
  const SVC_EXECUTE_COMMAND := 3

  const DEFAULT_TIMEOUT_US := 2000000

  /** async_add's split of a timeout in microseconds into a timer value. */
  function TimerSpecOf(us: u64): (t: TimerSpec)
    ensures t.nsec < 1000000000
    ensures t.sec * 1000000000 + t.nsec == us * 1000
  {
    var sec := us / 1000000;
    TimerSpec(sec, (us - sec * 1000000) * 1000)
  }

  function RemoveAt<T>(s: seq<T>, k: nat): (r: seq<T>)
    requires k < |s|
    ensures |r| == |s| - 1
    ensures forall j :: 0 <= j < |r| ==> r[j] == (if j < k then s[j] else s[j + 1])
  {
    s[..k] + s[k + 1..]
  }

  /** The first entry watching descriptor `fd`, as fd_entry_find returns it. */
  function FindFd(fds: seq<FdEntry>, fd: int): (k: Option<nat>)
    ensures k.Some? ==> k.value < |fds| && fds[k.value].fd == fd &&
                        forall j :: 0 <= j < k.value ==> fds[j].fd != fd
    ensures k.None? ==> forall j :: 0 <= j < |fds| ==> fds[j].fd != fd
  {
    if |fds| == 0 then None
    else if fds[0].fd == fd then Some(0)
    else match FindFd(fds[1..], fd)
      case None => None
      case Some(j) => Some(j + 1)
  }

  /** The entry at address `h`. */
  function FindHandle(fds: seq<FdEntry>, h: nat): (k: Option<nat>)
    ensures k.Some? ==> k.value < |fds| && fds[k.value].handle == h
    ensures k.None? ==> forall j :: 0 <= j < |fds| ==> fds[j].handle != h
  {
    if |fds| == 0 then None
    else if fds[0].handle == h then Some(0)
    else match FindHandle(fds[1..], h)
      case None => None
      case Some(j) => Some(j + 1)
  }

  /** The first pending request with response id `id`, as async_complete and
      async_get_param find it. */
  function FindTask(tasks: seq<Task>, id: u32): (k: Option<nat>)
    ensures k.Some? ==> k.value < |tasks| && tasks[k.value].id == id &&
                        forall j :: 0 <= j < k.value ==> tasks[j].id != id
    ensures k.None? ==> forall j :: 0 <= j < |tasks| ==> tasks[j].id != id
  {
    if |tasks| == 0 then None
    else if tasks[0].id == id then Some(0)
    else match FindTask(tasks[1..], id)
      case None => None
      case Some(j) => Some(j + 1)
  }

  /** The first node whose heartbeat timer is `fd` among nodes 0..bound-1: the
      scan of heartbeat_timeout_handler. */
  function ScanTimers(timers: seq<int>, fd: int, bound: nat): (i: Option<nat>)
    requires bound <= |timers|
    ensures i.Some? ==> i.value < bound && timers[i.value] == fd &&
                        forall j :: 0 <= j < i.value ==> timers[j] != fd
    ensures i.None? ==> forall j :: 0 <= j < bound ==> timers[j] != fd
  {
    if bound == 0 then None
    else match ScanTimers(timers, fd, bound - 1)
      case Some(j) => Some(j)
      case None => if timers[bound - 1] == fd then Some(bound - 1) else None
  }

  /** The source's scan, `i < CANARD_NODE_ID_MAX`, never looks at node 127: when
      node 127's timer expires no node is found and the handler goes on with an
      uninitialised node id. */
  lemma Node127TimeoutMissed()
    ensures var timers := seq(128, i => if i == 127 then 5 else -1);
      ScanTimers(timers, 5, NODE_ID_MAX) == None && ScanTimers(timers, 5, 128) == Some(127)
  {
    var timers := seq(128, i => if i == 127 then 5 else -1);
    assert forall j :: 0 <= j < 127 ==> timers[j] != 5;
    assert timers[127] == 5;
  }

  ghost predicate DistinctHandles(fds: seq<FdEntry>)
  {
    forall j, k :: 0 <= j < k < |fds| ==> fds[j].handle != fds[k].handle
  }

  ghost predicate DistinctFds(fds: seq<FdEntry>)
  {
    forall j, k :: 0 <= j < k < |fds| && fds[j].fd >= 0 ==> fds[j].fd != fds[k].fd
  }

  ghost predicate HasEntry(fds: seq<FdEntry>, h: nat, handler: Handler)
  {
    exists k :: 0 <= k < |fds| && fds[k].handle == h && fds[k].handler == handler
  }

  ghost predicate Watches(fds: seq<FdEntry>, fd: int, handler: Handler)
  {
    exists k :: 0 <= k < |fds| && fds[k].fd == fd && fds[k].handler == handler
  }

  ghost predicate TimerOfSomeTask(tasks: seq<Task>, h: nat)
  {
    exists t :: 0 <= t < |tasks| && tasks[t].timer == h
  }

  /** Every pending request has its own timeout entry in the registry, and every
      timeout entry belongs to a pending request. */
  ghost predicate TasksHaveTimers(tasks: seq<Task>, fds: seq<FdEntry>)
  {
    (forall t :: 0 <= t < |tasks| ==> HasEntry(fds, tasks[t].timer, AsyncTimerHandler)) &&
    (forall s, t :: 0 <= s < t < |tasks| ==> tasks[s].timer != tasks[t].timer) &&
    (forall k :: 0 <= k < |fds| && fds[k].handler == AsyncTimerHandler ==> TimerOfSomeTask(tasks, fds[k].handle))
  }

  /** Every armed heartbeat timer is watched, by one node, and every watched
      heartbeat descriptor belongs to a node. */
  ghost predicate HeartbeatTimersWatched(timers: seq<int>, fds: seq<FdEntry>)
  {
    (forall i :: 0 <= i < |timers| && timers[i] >= 0 ==> Watches(fds, timers[i], HeartbeatTimeoutHandler)) &&
    (forall i, j :: 0 <= i < j < |timers| && timers[i] >= 0 ==> timers[i] != timers[j]) &&
    (forall k :: 0 <= k < |fds| && fds[k].handler == HeartbeatTimeoutHandler && fds[k].fd >= 0 ==>
       ScanTimers(timers, fds[k].fd, |timers|).Some?)
  }

  /** The pending list, registry and callback log after async_complete(id, r). */
  function Completion(tasks: seq<Task>, fds: seq<FdEntry>, calls: seq<Call>, id: u32, r: int)
    : (seq<Task>, seq<FdEntry>, seq<Call>)
  {
    match FindTask(tasks, id)
    case None => (tasks, fds, calls)
    case Some(t) =>
      match FindHandle(fds, tasks[t].timer)
      case None => (RemoveAt(tasks, t), fds, calls + [Call(tasks[t].callback, r, tasks[t].uparam)])
      case Some(f) =>
        (RemoveAt(tasks, t), RemoveAt(fds, f), calls + [Call(tasks[t].callback, r, tasks[t].uparam)])
  }

  /** The pending list, registry and next address after async_add succeeds or fails. */
  function AfterAdd(tasks: seq<Task>, fds: seq<FdEntry>, next: nat, id: u32, delay: TimerSpec,
                    param: Param, callback: nat, uparam: nat, env: TimerEnv): (seq<Task>, seq<FdEntry>, nat)
  {
    if env.allocOk && env.timerFd >= 0 && env.settimeOk
    then (tasks + [Task(id, next, delay, param, callback, uparam)],
          fds + [FdEntry(next, env.timerFd, AsyncTimerHandler)], next + 1)
    else (tasks, fds, next)
  }

  /** A reply buffer after a handler wrote `c` through `param` (nothing for NULL). */
  function Stored(buffers: map<nat, Contents>, param: Param, c: Contents): map<nat, Contents>
  {
    if param.Ptr? then buffers[param.addr := c] else buffers
  }

  lemma AddTaskKeepsValid(tasks: seq<Task>, fds: seq<FdEntry>, t: Task, fd: int, h: nat)
    requires TasksHaveTimers(tasks, fds) && DistinctHandles(fds) && DistinctFds(fds)
    requires forall k :: 0 <= k < |fds| ==> fds[k].handle < h
    requires fd >= 0 && forall k :: 0 <= k < |fds| ==> fds[k].fd != fd
    requires t.timer == h
    ensures var fds' := fds + [FdEntry(h, fd, AsyncTimerHandler)];
      TasksHaveTimers(tasks + [t], fds') && DistinctHandles(fds') && DistinctFds(fds')
  {
    var fds' := fds + [FdEntry(h, fd, AsyncTimerHandler)];
    var tasks' := tasks + [t];
    forall i | 0 <= i < |tasks'|
      ensures HasEntry(fds', tasks'[i].timer, AsyncTimerHandler)
    {
      if i < |tasks| {
        var k :| 0 <= k < |fds| && fds[k].handle == tasks[i].timer && fds[k].handler == AsyncTimerHandler;
        assert fds'[k] == fds[k];
      } else {
        assert fds'[|fds|].handle == tasks'[i].timer;
      }
    }
    forall i | 0 <= i < |tasks|
      ensures tasks[i].timer != h
    {
      var k :| 0 <= k < |fds| && fds[k].handle == tasks[i].timer && fds[k].handler == AsyncTimerHandler;
    }
    forall k | 0 <= k < |fds'| && fds'[k].handler == AsyncTimerHandler
      ensures TimerOfSomeTask(tasks', fds'[k].handle)
    {
      if k < |fds| {
        var i :| 0 <= i < |tasks| && tasks[i].timer == fds[k].handle;
        assert tasks'[i] == tasks[i];
      } else {
        assert tasks'[|tasks|].timer == fds'[k].handle;
      }
    }
  }

  lemma AddFdKeepsTimersWatched(timers: seq<int>, fds: seq<FdEntry>, e: FdEntry)
    requires HeartbeatTimersWatched(timers, fds) && e.handler != HeartbeatTimeoutHandler
    ensures HeartbeatTimersWatched(timers, fds + [e])
  {
    var fds' := fds + [e];
    forall i | 0 <= i < |timers| && timers[i] >= 0
      ensures Watches(fds', timers[i], HeartbeatTimeoutHandler)
    {
      var k :| 0 <= k < |fds| && fds[k].fd == timers[i] && fds[k].handler == HeartbeatTimeoutHandler;
      assert fds'[k] == fds[k];
    }
    forall k | 0 <= k < |fds'| && fds'[k].handler == HeartbeatTimeoutHandler && fds'[k].fd >= 0
      ensures ScanTimers(timers, fds'[k].fd, |timers|).Some?
    {
      assert fds'[k] == fds[k];
    }
  }

  lemma RemoveTaskKeepsValid(tasks: seq<Task>, fds: seq<FdEntry>, t: nat, f: nat)
    requires TasksHaveTimers(tasks, fds) && DistinctHandles(fds) && DistinctFds(fds)
    requires t < |tasks| && f < |fds| && fds[f].handle == tasks[t].timer
    ensures fds[f].handler == AsyncTimerHandler
    ensures var fds' := RemoveAt(fds, f);
      TasksHaveTimers(RemoveAt(tasks, t), fds') && DistinctHandles(fds') && DistinctFds(fds')
  {
    var k0 :| 0 <= k0 < |fds| && fds[k0].handle == tasks[t].timer && fds[k0].handler == AsyncTimerHandler;
    assert k0 == f;
    RemainingTasksHaveEntries(tasks, fds, t, f);
    RemainingTimersDistinct(tasks, t);
    RemainingEntriesHaveTasks(tasks, fds, t, f);
    RemoveFdKeepsDistinct(fds, f);
  }

  lemma RemainingTasksHaveEntries(tasks: seq<Task>, fds: seq<FdEntry>, t: nat, f: nat)
    requires TasksHaveTimers(tasks, fds) && t < |tasks| && f < |fds| && fds[f].handle == tasks[t].timer
    ensures forall i :: 0 <= i < |RemoveAt(tasks, t)| ==>
      HasEntry(RemoveAt(fds, f), RemoveAt(tasks, t)[i].timer, AsyncTimerHandler)
  {
    var fds' := RemoveAt(fds, f);
    var tasks' := RemoveAt(tasks, t);
    forall i | 0 <= i < |tasks'|
      ensures HasEntry(fds', tasks'[i].timer, AsyncTimerHandler)
    {
      var i0 := if i < t then i else i + 1;
      assert tasks'[i] == tasks[i0];
      var k :| 0 <= k < |fds| && fds[k].handle == tasks[i0].timer && fds[k].handler == AsyncTimerHandler;
      assert k != f;
      var k' := if k < f then k else k - 1;
      assert fds'[k'] == fds[k];
    }
  }

  lemma RemainingTimersDistinct(tasks: seq<Task>, t: nat)
    requires t < |tasks| && forall a, b :: 0 <= a < b < |tasks| ==> tasks[a].timer != tasks[b].timer
    ensures var tasks' := RemoveAt(tasks, t);
      forall a, b :: 0 <= a < b < |tasks'| ==> tasks'[a].timer != tasks'[b].timer
  {
    var tasks' := RemoveAt(tasks, t);
    forall a, b | 0 <= a < b < |tasks'|
      ensures tasks'[a].timer != tasks'[b].timer
    {
      var a0 := if a < t then a else a + 1;
      var b0 := if b < t then b else b + 1;
      assert tasks'[a] == tasks[a0] && tasks'[b] == tasks[b0];
    }
  }

  lemma RemainingEntriesHaveTasks(tasks: seq<Task>, fds: seq<FdEntry>, t: nat, f: nat)
    requires TasksHaveTimers(tasks, fds) && DistinctHandles(fds)
    requires t < |tasks| && f < |fds| && fds[f].handle == tasks[t].timer
    ensures var fds' := RemoveAt(fds, f);
      forall k :: 0 <= k < |fds'| && fds'[k].handler == AsyncTimerHandler ==>
        TimerOfSomeTask(RemoveAt(tasks, t), fds'[k].handle)
  {
    var fds' := RemoveAt(fds, f);
    var tasks' := RemoveAt(tasks, t);
    forall k | 0 <= k < |fds'| && fds'[k].handler == AsyncTimerHandler
      ensures TimerOfSomeTask(tasks', fds'[k].handle)
    {
      var k0 := if k < f then k else k + 1;
      assert fds'[k] == fds[k0];
      var i :| 0 <= i < |tasks| && tasks[i].timer == fds[k0].handle;
      assert i != t;
      var i' := if i < t then i else i - 1;
      assert tasks'[i'] == tasks[i];
    }
  }

  lemma RemoveFdKeepsDistinct(fds: seq<FdEntry>, f: nat)
    requires DistinctHandles(fds) && DistinctFds(fds) && f < |fds|
    ensures DistinctHandles(RemoveAt(fds, f)) && DistinctFds(RemoveAt(fds, f))
  {
    var fds' := RemoveAt(fds, f);
    forall a, b | 0 <= a < b < |fds'|
      ensures fds'[a].handle != fds'[b].handle
      ensures fds'[a].fd >= 0 ==> fds'[a].fd != fds'[b].fd
    {
      var a0 := if a < f then a else a + 1;
      var b0 := if b < f then b else b + 1;
      assert fds'[a] == fds[a0] && fds'[b] == fds[b0];
    }
  }

  /** Removing an entry that is not a heartbeat timer leaves the timers watched. */
  lemma RemoveFdKeepsTimersWatched(timers: seq<int>, fds: seq<FdEntry>, f: nat)
    requires HeartbeatTimersWatched(timers, fds) && f < |fds| && fds[f].handler != HeartbeatTimeoutHandler
    ensures HeartbeatTimersWatched(timers, RemoveAt(fds, f))
  {
    var fds' := RemoveAt(fds, f);
    forall i | 0 <= i < |timers| && timers[i] >= 0
      ensures Watches(fds', timers[i], HeartbeatTimeoutHandler)
    {
      var k :| 0 <= k < |fds| && fds[k].fd == timers[i] && fds[k].handler == HeartbeatTimeoutHandler;
      var k' := if k < f then k else k - 1;
      assert fds'[k'] == fds[k];
    }
    forall k | 0 <= k < |fds'| && fds'[k].handler == HeartbeatTimeoutHandler && fds'[k].fd >= 0
      ensures ScanTimers(timers, fds'[k].fd, |timers|).Some?
    {
      var k0 := if k < f then k else k + 1;
      assert fds'[k] == fds[k0];
    }
  }

  /** An armed heartbeat timer is watched by exactly the entry FindFd returns. */
  lemma WatchedTimerFound(timers: seq<int>, fds: seq<FdEntry>, i: nat)
    requires HeartbeatTimersWatched(timers, fds) && DistinctFds(fds)
    requires i < |timers| && timers[i] >= 0
    ensures FindFd(fds, timers[i]).Some?
    ensures fds[FindFd(fds, timers[i]).value].handler == HeartbeatTimeoutHandler
  {
    var k :| 0 <= k < |fds| && fds[k].fd == timers[i] && fds[k].handler == HeartbeatTimeoutHandler;
    var f := FindFd(fds, timers[i]);
    assert f.Some?;
    assert fds[f.value].fd == fds[k].fd;
  }

  /** Disarming node `id`'s timer and unlinking its entry keeps the invariant. */
  lemma ClearTimerKeepsWatched(timers: seq<int>, fds: seq<FdEntry>, id: nat, f: nat)
    requires HeartbeatTimersWatched(timers, fds) && DistinctFds(fds)
    requires id < |timers| && f < |fds| && timers[id] >= 0 && fds[f].fd == timers[id]
    ensures HeartbeatTimersWatched(timers[id := -1], RemoveAt(fds, f))
  {
    var timers' := timers[id := -1];
    var fds' := RemoveAt(fds, f);
    forall i | 0 <= i < |timers'| && timers'[i] >= 0
      ensures Watches(fds', timers'[i], HeartbeatTimeoutHandler)
    {
      assert i != id && timers[i] != timers[id] by {
        if i < id {} else {}
      }
      var k :| 0 <= k < |fds| && fds[k].fd == timers[i] && fds[k].handler == HeartbeatTimeoutHandler;
      var k' := if k < f then k else k - 1;
      assert fds'[k'] == fds[k];
    }
    forall k | 0 <= k < |fds'| && fds'[k].handler == HeartbeatTimeoutHandler && fds'[k].fd >= 0
      ensures ScanTimers(timers', fds'[k].fd, |timers'|).Some?
    {
      var k0 := if k < f then k else k + 1;
      assert fds'[k] == fds[k0];
      assert fds[k0].fd != fds[f].fd by {
        if k0 < f {} else {}
      }
      var i := ScanTimers(timers, fds[k0].fd, |timers|).value;
      assert timers'[i] == fds'[k].fd;
    }
  }

  /** Arming node `id` with a fresh descriptor keeps the invariant. */
  lemma ArmTimerKeepsWatched(timers: seq<int>, fds: seq<FdEntry>, id: nat, e: FdEntry)
    requires HeartbeatTimersWatched(timers, fds)
    requires id < |timers| && timers[id] < 0 && e.handler == HeartbeatTimeoutHandler
    requires e.fd >= 0 ==> forall k :: 0 <= k < |fds| ==> fds[k].fd != e.fd
    ensures HeartbeatTimersWatched(timers[id := e.fd], fds + [e])
  {
    var timers' := timers[id := e.fd];
    var fds' := fds + [e];
    forall i | 0 <= i < |timers'| && timers'[i] >= 0
      ensures Watches(fds', timers'[i], HeartbeatTimeoutHandler)
    {
      if i == id {
        assert fds'[|fds|] == e;
      } else {
        var k :| 0 <= k < |fds| && fds[k].fd == timers[i] && fds[k].handler == HeartbeatTimeoutHandler;
        assert fds'[k] == fds[k];
      }
    }
    forall i, j | 0 <= i < j < |timers'| && timers'[i] >= 0
      ensures timers'[i] != timers'[j]
    {
      if i == id {
        if timers[j] >= 0 {
          var k :| 0 <= k < |fds| && fds[k].fd == timers[j] && fds[k].handler == HeartbeatTimeoutHandler;
        }
      } else if j == id {
        var k :| 0 <= k < |fds| && fds[k].fd == timers[i] && fds[k].handler == HeartbeatTimeoutHandler;
      }
    }
    forall k | 0 <= k < |fds'| && fds'[k].handler == HeartbeatTimeoutHandler && fds'[k].fd >= 0
      ensures ScanTimers(timers', fds'[k].fd, |timers'|).Some?
    {
      if k == |fds| {
        assert timers'[id] == fds'[k].fd;
      } else {
        assert fds'[k] == fds[k];
        var i := ScanTimers(timers, fds[k].fd, |timers|).value;
        assert i != id;
        assert timers'[i] == fds'[k].fd;
      }
    }
  }

  /** Adding or removing an entry that is no request timer keeps the requests' timers. */
  lemma OtherFdKeepsTasks(tasks: seq<Task>, fds: seq<FdEntry>, fds': seq<FdEntry>)
    requires TasksHaveTimers(tasks, fds)
    requires forall k :: 0 <= k < |fds| && fds[k].handler == AsyncTimerHandler ==>
      exists k' :: 0 <= k' < |fds'| && fds'[k'] == fds[k]
    requires forall k' :: 0 <= k' < |fds'| && fds'[k'].handler == AsyncTimerHandler ==>
      exists k :: 0 <= k < |fds| && fds[k] == fds'[k']
    ensures TasksHaveTimers(tasks, fds')
  {
    forall t | 0 <= t < |tasks|
      ensures HasEntry(fds', tasks[t].timer, AsyncTimerHandler)
    {
      assert HasEntry(fds, tasks[t].timer, AsyncTimerHandler);
      var k :| 0 <= k < |fds| && fds[k].handle == tasks[t].timer && fds[k].handler == AsyncTimerHandler;
      var k' :| 0 <= k' < |fds'| && fds'[k'] == fds[k];
    }
    forall k' | 0 <= k' < |fds'| && fds'[k'].handler == AsyncTimerHandler
      ensures TimerOfSomeTask(tasks, fds'[k'].handle)
    {
      var k :| 0 <= k < |fds| && fds[k] == fds'[k'];
    }
  }

  lemma RemoveOtherFdKeepsTasks(tasks: seq<Task>, fds: seq<FdEntry>, f: nat)
    requires TasksHaveTimers(tasks, fds) && f < |fds| && fds[f].handler != AsyncTimerHandler
    ensures TasksHaveTimers(tasks, RemoveAt(fds, f))
  {
    var fds' := RemoveAt(fds, f);
    forall k | 0 <= k < |fds| && fds[k].handler == AsyncTimerHandler
      ensures exists k' :: 0 <= k' < |fds'| && fds'[k'] == fds[k]
    {
      var k' := if k < f then k else k - 1;
      assert fds'[k'] == fds[k];
    }
    forall k' | 0 <= k' < |fds'| && fds'[k'].handler == AsyncTimerHandler
      ensures exists k :: 0 <= k < |fds| && fds[k] == fds'[k']
    {
      var k := if k' < f then k' else k' + 1;
      assert fds'[k'] == fds[k];
    }
    OtherFdKeepsTasks(tasks, fds, fds');
  }

  lemma AppendOtherFdKeepsTasks(tasks: seq<Task>, fds: seq<FdEntry>, e: FdEntry)
    requires TasksHaveTimers(tasks, fds) && e.handler != AsyncTimerHandler
    ensures TasksHaveTimers(tasks, fds + [e])
  {
    var fds' := fds + [e];
    forall k | 0 <= k < |fds| && fds[k].handler == AsyncTimerHandler
      ensures exists k' :: 0 <= k' < |fds'| && fds'[k'] == fds[k]
    {
      assert fds'[k] == fds[k];
    }
    forall k' | 0 <= k' < |fds'| && fds'[k'].handler == AsyncTimerHandler
      ensures exists k :: 0 <= k < |fds| && fds[k] == fds'[k']
    {
      assert fds'[k'] == fds[k'];
    }
    OtherFdKeepsTasks(tasks, fds, fds');
  }

  lemma AppendFreshKeepsDistinct(fds: seq<FdEntry>, e: FdEntry)
    requires DistinctHandles(fds) && DistinctFds(fds)
    requires forall k :: 0 <= k < |fds| ==> fds[k].handle < e.handle
    requires e.fd >= 0 ==> forall k :: 0 <= k < |fds| ==> fds[k].fd != e.fd
    ensures DistinctHandles(fds + [e]) && DistinctFds(fds + [e])
  {
  }

  /** get_node_id: the seven GPIO lines 21..27, line 21 the least significant bit. */
  function PinsValue(pins: seq<bool>): (v: nat)
    ensures v < Pow2Nat(|pins|)
  {
    if pins == [] then 0 else (if pins[0] then 1 else 0) + 2 * PinsValue(pins[1..])
  }

  function Pow2Nat(n: nat): (r: nat)
    ensures r >= 1
  {
    if n == 0 then 1 else 2 * Pow2Nat(n - 1)
  }

  /** Bit k of a node id. */
  function Bit(v: nat, k: nat): bool
  {
    if k == 0 then v % 2 == 1 else Bit(v / 2, k - 1)
  }

  /** The node id is 7 bits wide and each of its bits is the level of its line. */
  lemma {:induction false} PinsValueBits(pins: seq<bool>, k: nat)
    requires k < |pins|
    ensures Bit(PinsValue(pins), k) == pins[k]
  {
    var v := PinsValue(pins);
    var rest := PinsValue(pins[1..]);
    assert v == (if pins[0] then 1 else 0) + 2 * rest;
    assert v % 2 == (if pins[0] then 1 else 0);
    assert v / 2 == rest;
    if k > 0 {
      PinsValueBits(pins[1..], k - 1);
    }
  }

  lemma NodeIdFits(pins: seq<bool>)
    requires |pins| == 7
    ensures PinsValue(pins) <= NODE_ID_MAX
  {
    assert Pow2Nat(7) == 128;
  }

  /** The transfers can_socket_handler hands to a handler. */
  predicate Routed(port: u16, kind: Kind)
  {
    (port == PORT_HEARTBEAT && kind == Message) ||
    (kind == Response && (port == PORT_GET_INFO || port == PORT_REGISTER_LIST ||
                          port == PORT_REGISTER_ACCESS || port == PORT_EXECUTE_COMMAND))
  }

  class Wlmio {
    /** nodes[]: the last status of each node. */
    const nodes: array<Status>
    /** timers[]: each node's heartbeat timeout descriptor, -1 when none. */
    const timers: array<int>
    /** The four `static uint8_t tfr_ids[128]` tables, one row per request function. */
    const tids: array2<byte>
    /** The fd_entry list, head first. */
    var fds: seq<FdEntry>
    var nextHandle: nat
    /** The task_entry list, head first. */
    var tasks: seq<Task>
    /** The transmit queue. */
    var outbox: seq<Transfer>
    /** The request callbacks invoked so far, in order. */
    var calls: seq<Call>
    /** user_callback: whether one is set, and the invocations so far. */
    var userCallback: bool
    var statusChanges: seq<StatusChange>
    /** The caller's reply buffers the response handlers have written. */
    var buffers: map<nat, Contents>
    /** The request timeout in microseconds. */
    var timeout: u64
    var localNodeId: byte
    var epollReady: bool

    ghost predicate Valid()
      reads this, nodes, timers, tids
    {
      nodes.Length == 128 && timers.Length == 128 && tids.Length0 == 4 && tids.Length1 == 128 &&
      (forall s, n :: 0 <= s < 4 && 0 <= n < 128 ==> tids[s, n] < 32) &&
      (forall k :: 0 <= k < |fds| ==> fds[k].handle < nextHandle) &&
      DistinctHandles(fds) && DistinctFds(fds) &&
      TasksHaveTimers(tasks, fds) && HeartbeatTimersWatched(timers[..], fds)
    }

    /** The library's static storage before wlmio_init: everything zero. */
    constructor ()
      ensures fresh(nodes) && fresh(timers) && fresh(tids)
      ensures nodes.Length == 128 && timers.Length == 128 && tids.Length0 == 4 && tids.Length1 == 128
      ensures fds == [] && tasks == [] && outbox == [] && calls == [] && statusChanges == []
      ensures buffers == map[] && !userCallback && timeout == DEFAULT_TIMEOUT_US && !epollReady
      ensures nextHandle == 0 && forall s, n :: 0 <= s < 4 && 0 <= n < 128 ==> tids[s, n] == 0
    {
      nodes := new Status[128](_ => Status(0, 0, 0, 0));
      timers := new int[128](_ => 0);
      tids := new byte[4, 128]((_, _) => 0);
      fds := [];
      nextHandle := 0;
      tasks := [];
      outbox := [];
      calls := [];
      userCallback := false;
      statusChanges := [];
      buffers := map[];
      timeout := DEFAULT_TIMEOUT_US;
      localNodeId := 0;
      epollReady := false;
    }

    // ------------------------------------------------------- fd registry

    /** fd_entry_add: a new entry at the tail of the list. */
    method FdAdd(fd: int, handler: Handler) returns (h: nat)
      modifies this`fds, this`nextHandle
      ensures h == old(nextHandle) && nextHandle == h + 1
      ensures fds == old(fds) + [FdEntry(h, fd, handler)]
    {
      h := nextHandle;
      fds := fds + [FdEntry(h, fd, handler)];
      nextHandle := nextHandle + 1;
    }

    /** fd_entry_find: the first entry watching `fd`. */
    method FdFind(fd: int) returns (k: Option<nat>)
      ensures k == FindFd(fds, fd)
    {
      var i := 0;
      while i < |fds|
        invariant i <= |fds|
        invariant forall j :: 0 <= j < i ==> fds[j].fd != fd
      {
        if fds[i].fd == fd {
          return Some(i);
        }
        i := i + 1;
      }
      return None;
    }

    /** fd_entry_close: the entry unlinked (its descriptor is closed). */
    method FdClose(k: nat)
      requires k < |fds|
      modifies this`fds
      ensures fds == RemoveAt(old(fds), k)
    {
      fds := RemoveAt(fds, k);
    }

    // ----------------------------------------------------- pending requests

    /** async_add: arm a timeout timer for a request and append the request.
        Allocation failure gives -ENOMEM; a failing timerfd call gives its
        errno as the source returns it, unnegated. */
    method AsyncAdd(id: u32, param: Param, callback: nat, uparam: nat, env: TimerEnv) returns (r: int)
      requires Valid()
      requires env.timerFd >= 0 ==> forall k :: 0 <= k < |fds| ==> fds[k].fd != env.timerFd
      modifies this`fds, this`nextHandle, this`tasks
      ensures Valid()
      ensures !env.allocOk ==> r == -ENOMEM
      ensures env.allocOk && !(env.timerFd >= 0 && env.settimeOk) ==> r == env.errno
      ensures r != 0 ==> fds == old(fds) && tasks == old(tasks) && nextHandle == old(nextHandle)
      ensures env.allocOk && env.timerFd >= 0 && env.settimeOk ==> r == 0
      ensures (tasks, fds, nextHandle) ==
        AfterAdd(old(tasks), old(fds), old(nextHandle), id, TimerSpecOf(timeout), param, callback, uparam, env)
    {
      if !env.allocOk {
        return -ENOMEM;
      }
      if env.timerFd < 0 || !env.settimeOk {
        return env.errno;
      }
      var h := FdAdd(env.timerFd, AsyncTimerHandler);
      var t := Task(id, h, TimerSpecOf(timeout), param, callback, uparam);
      tasks := tasks + [t];
      r := 0;
      AddTaskKeepsValid(old(tasks), old(fds), t, env.timerFd, nextHandle - 1);
      assert timers[..] == old(timers[..]);
      AddFdKeepsTimersWatched(timers[..], old(fds), FdEntry(h, env.timerFd, AsyncTimerHandler));
    }

    /** async_remove_entry: the request unlinked together with its timer entry. */
    method AsyncRemoveEntry(t: nat)
      requires Valid() && t < |tasks|
      modifies this`fds, this`tasks
      ensures Valid()
      ensures tasks == RemoveAt(old(tasks), t)
      ensures fds == RemoveAt(old(fds), FindHandle(old(fds), old(tasks[t].timer)).value)
    {
      assert HasEntry(fds, tasks[t].timer, AsyncTimerHandler);
      var f := FindHandle(fds, tasks[t].timer).value;
      RemoveTaskKeepsValid(tasks, fds, t, f);
      RemoveFdKeepsTimersWatched(timers[..], fds, f);
      FdClose(f);
      tasks := RemoveAt(tasks, t);
    }

    /** async_complete: the first request with this id has its callback run with
        `r` and is removed; nothing happens when none has it. */
    method AsyncComplete(id: u32, r: int)
      requires Valid()
      modifies this`fds, this`tasks, this`calls
      ensures Valid()
      ensures (tasks, fds, calls) == Completion(old(tasks), old(fds), old(calls), id, r)
    {
      var i := 0;
      while i < |tasks|
        invariant i <= |tasks|
        invariant forall j :: 0 <= j < i ==> tasks[j].id != id
      {
        if tasks[i].id == id {
          calls := calls + [Call(tasks[i].callback, r, tasks[i].uparam)];
          AsyncRemoveEntry(i);
          return;
        }
        i := i + 1;
      }
    }

    /** async_get_param: -EINVAL without an out-pointer (`outPtr` false), else
        the reply buffer of the first request with this id, or -ENOENT. */
    method AsyncGetParam(id: u32, outPtr: bool) returns (r: int, param: Param)
      ensures !outPtr ==> r == -EINVAL && param == Null
      ensures outPtr && FindTask(tasks, id).None? ==> r == -ENOENT && param == Null
      ensures outPtr && FindTask(tasks, id).Some? ==> r == 0 && param == tasks[FindTask(tasks, id).value].param
    {
      if !outPtr {
        return -EINVAL, Null;
      }
      var i := 0;
      while i < |tasks|
        invariant i <= |tasks|
        invariant forall j :: 0 <= j < i ==> tasks[j].id != id
      {
        if tasks[i].id == id {
          return 0, tasks[i].param;
        }
        i := i + 1;
      }
      return -ENOENT, Null;
    }

    /** async_handler: a request's timer expired; its callback gets -ETIMEDOUT
        and it is removed. */
    method AsyncHandler(f: nat)
      requires Valid() && f < |fds| && fds[f].handler == AsyncTimerHandler
      modifies this`fds, this`tasks, this`calls
      ensures Valid()
      ensures exists t :: (0 <= t < |old(tasks)| && old(tasks[t].timer) == old(fds[f].handle) &&
        calls == old(calls) + [Call(old(tasks[t].callback), -ETIMEDOUT, old(tasks[t].uparam))] &&
        tasks == RemoveAt(old(tasks), t) && fds == RemoveAt(old(fds), f))
    {
      assert TimerOfSomeTask(tasks, fds[f].handle);
      var i := 0;
      while i < |tasks|
        invariant i <= |tasks|
        invariant forall j :: 0 <= j < i ==> tasks[j].timer != fds[f].handle
      {
        if tasks[i].timer == fds[f].handle {
          calls := calls + [Call(tasks[i].callback, -ETIMEDOUT, tasks[i].uparam)];
          assert FindHandle(fds, tasks[i].timer) == Some(f);
          AsyncRemoveEntry(i);
          return;
        }
        i := i + 1;
      }
      assert false;
    }

    // ------------------------------------------------------------- status

    /** wlmio_init after the CAN stack is created: read the node id from the
        GPIO lines (None when that fails), create the epoll instance, register
        the CAN socket (`canSock` negative when opening it failed), then mark
        every node offline with no timer.  -1 when any step failed. */
    method Init(pins: Option<seq<bool>>, epollOk: bool, canSock: int) returns (r: int)
      requires pins.Some? ==> |pins.value| == 7
      requires nodes.Length == 128 && timers.Length == 128 && tids.Length0 == 4 && tids.Length1 == 128
      requires fds == [] && tasks == []
      requires forall s, n :: 0 <= s < 4 && 0 <= n < 128 ==> tids[s, n] < 32
      modifies this`localNodeId, this`epollReady, this`fds, this`nextHandle, nodes, timers
      ensures r == 0 || r == -1
      ensures pins.None? || !epollOk ==> r == -1 && fds == [] && unchanged(nodes, timers)
      ensures pins.Some? ==> localNodeId == PinsValue(pins.value) && localNodeId <= NODE_ID_MAX
      ensures pins.Some? && epollOk ==>
        Valid() && epollReady && (r == 0 <==> canSock >= 0) &&
        fds == (if canSock >= 0 then [FdEntry(old(nextHandle), canSock, CanSocketHandler)] else []) &&
        forall i :: 0 <= i < 128 ==> nodes[i] == OFFLINE_STATUS && timers[i] == -1
    {
      if pins.None? {
        return -1;
      }
      NodeIdFits(pins.value);
      localNodeId := PinsValue(pins.value);
      if !epollOk {
        return -1;
      }
      epollReady := true;
      if canSock >= 0 {
        var _ := FdAdd(canSock, CanSocketHandler);
      }
      ghost var registered := fds;
      for i := 0 to 128
        invariant fds == registered && nextHandle == old(nextHandle) + |fds|
        invariant localNodeId == PinsValue(pins.value) && epollReady
        invariant forall j :: 0 <= j < i ==> nodes[j] == OFFLINE_STATUS && timers[j] == -1
      {
        nodes[i] := OFFLINE_STATUS;
        timers[i] := -1;
      }
      r := if canSock < 0 then -1 else 0;
      assert forall i :: 0 <= i < 128 ==> timers[..][i] < 0;
    }

    /** What heartbeat_handler does: record the node's new status, drop its
        timer when it reports itself offline, create one when it comes online,
        and report the change.  An empty payload or an anonymous sender changes
        nothing. */
    twostate predicate HeartbeatSeen(remote: byte, payload: seq<byte>, newTimerFd: int)
      reads this, nodes, timers
      requires nodes.Length == 128 && timers.Length == 128
      requires remote <= NODE_ID_MAX || remote == NODE_ID_UNSET
    {
      (payload == [] || remote == NODE_ID_UNSET ==>
        unchanged(nodes, timers) && fds == old(fds) && statusChanges == old(statusChanges)) &&
      (payload != [] && remote != NODE_ID_UNSET ==>
        var s := DecodeHeartbeat(payload);
        nodes[..] == old(nodes[..])[remote := s] &&
        statusChanges == old(statusChanges) +
          (if userCallback then [StatusChange(remote, old(nodes[remote]), s)] else []) &&
        TimerFollows(remote, s.mode != MODE_OFFLINE, newTimerFd))
    }

    /** A node's heartbeat timer follows its reported mode: an offline node's
        timer entry is closed, an online node without a timer gets one, and
        otherwise the timers are left alone. */
    twostate predicate TimerFollows(id: nat, online: bool, fd: int)
      reads this, timers
      requires timers.Length == 128 && id < 128
    {
      (!online && old(timers[id]) >= 0 ==>
        timers[..] == old(timers[..])[id := -1] &&
        FindFd(old(fds), old(timers[id])).Some? &&
        fds == RemoveAt(old(fds), FindFd(old(fds), old(timers[id])).value)) &&
      (!online && old(timers[id]) < 0 ==> timers[..] == old(timers[..]) && fds == old(fds)) &&
      (online && old(timers[id]) < 0 ==>
        timers[..] == old(timers[..])[id := fd] &&
        fds == old(fds) + [FdEntry(old(nextHandle), fd, HeartbeatTimeoutHandler)]) &&
      (online && old(timers[id]) >= 0 ==> timers[..] == old(timers[..]) && fds == old(fds))
    }

    /** The timer half of heartbeat_handler. */
    method FollowTimer(id: nat, online: bool, fd: int)
      requires Valid() && id < 128
      requires fd >= 0 ==> forall k :: 0 <= k < |fds| ==> fds[k].fd != fd
      modifies this`fds, this`nextHandle, timers
      ensures Valid()
      ensures TimerFollows(id, online, fd)
    {
      if !online && timers[id] >= 0 {
        DropTimer(id);
      }
      if online && timers[id] < 0 {
        ArmTimer(id, fd);
      }
    }

    /** heartbeat_handler.  `newTimerFd` is what timerfd_create returns;
        re-arming the 3-second timer is left to the system. */
    method Heartbeat(remote: byte, payload: seq<byte>, newTimerFd: int)
      requires Valid()
      requires remote <= NODE_ID_MAX || remote == NODE_ID_UNSET
      requires newTimerFd >= 0 ==> forall k :: 0 <= k < |fds| ==> fds[k].fd != newTimerFd
      modifies this`fds, this`nextHandle, this`statusChanges, nodes, timers
      ensures Valid()
      ensures HeartbeatSeen(remote, payload, newTimerFd)
    {
      if |payload| == 0 || remote == NODE_ID_UNSET {
        return;
      }
      var before := nodes[remote];
      var s := DecodeHeartbeat(payload);
      nodes[remote] := s;
      FollowTimer(remote, s.mode != MODE_OFFLINE, newTimerFd);
      if userCallback {
        statusChanges := statusChanges + [StatusChange(remote, before, s)];
      }
    }

    /** The offline branch of heartbeat_handler: close the node's timer entry. */
    method DropTimer(id: nat)
      requires Valid() && id < 128 && timers[id] >= 0
      modifies this`fds, timers
      ensures Valid()
      ensures timers[..] == old(timers[..])[id := -1]
      ensures fds == RemoveAt(old(fds), FindFd(old(fds), old(timers[id])).value)
    {
      WatchedTimerFound(timers[..], fds, id);
      var f := FdFind(timers[id]);
      ClearTimerKeepsWatched(timers[..], fds, id, f.value);
      RemoveOtherFdKeepsTasks(tasks, fds, f.value);
      RemoveFdKeepsDistinct(fds, f.value);
      FdClose(f.value);
      timers[id] := -1;
    }

    /** The online branch of heartbeat_handler: register a timer for the node. */
    method ArmTimer(id: nat, fd: int)
      requires Valid() && id < 128 && timers[id] < 0
      requires fd >= 0 ==> forall k :: 0 <= k < |fds| ==> fds[k].fd != fd
      modifies this`fds, this`nextHandle, timers
      ensures Valid()
      ensures timers[..] == old(timers[..])[id := fd]
      ensures fds == old(fds) + [FdEntry(old(nextHandle), fd, HeartbeatTimeoutHandler)]
      ensures nextHandle == old(nextHandle) + 1
    {
      var e := FdEntry(nextHandle, fd, HeartbeatTimeoutHandler);
      ArmTimerKeepsWatched(timers[..], fds, id, e);
      AppendOtherFdKeepsTasks(tasks, fds, e);
      AppendFreshKeepsDistinct(fds, e);
      timers[id] := fd;
      var _ := FdAdd(fd, HeartbeatTimeoutHandler);
    }

    /** heartbeat_timeout_handler for the entry at position `f`: the node whose
        timer it is goes offline, its timer is dropped and the change reported.
        The scan covers every node id 0..127; the source's covers 0..126 (see
        Node127TimeoutMissed).  Returns the node id found. */
    method HeartbeatTimeout(f: nat) returns (nodeId: nat)
      requires Valid() && f < |fds| && fds[f].handler == HeartbeatTimeoutHandler && fds[f].fd >= 0
      modifies this`fds, this`statusChanges, nodes, timers
      ensures Valid()
      ensures ScanTimers(old(timers[..]), old(fds[f].fd), 128) == Some(nodeId)
      ensures fds == RemoveAt(old(fds), f)
      ensures timers[..] == old(timers[..])[nodeId := -1]
      ensures nodes[..] == old(nodes[..])[nodeId := OFFLINE_STATUS]
      ensures statusChanges == old(statusChanges) +
        (if userCallback then [StatusChange(nodeId as byte, old(nodes[nodeId]), OFFLINE_STATUS)] else [])
    {
      var fd := fds[f].fd;
      ghost var found := ScanTimers(timers[..], fd, 128);
      assert found.Some?;
      var i := 0;
      while i < 128
        invariant i <= 128
        invariant forall j :: 0 <= j < i ==> timers[j] != fd
      {
        if timers[i] == fd {
          break;
        }
        i := i + 1;
      }
      assert i < 128 && timers[i] == fd;
      nodeId := i;
      ClearTimerKeepsWatched(timers[..], fds, nodeId, f);
      RemoveOtherFdKeepsTasks(tasks, fds, f);
      RemoveFdKeepsDistinct(fds, f);
      FdClose(f);
      timers[nodeId] := -1;
      var before := nodes[nodeId];
      nodes[nodeId] := OFFLINE_STATUS;
      if userCallback {
        statusChanges := statusChanges + [StatusChange(nodeId as byte, before, OFFLINE_STATUS)];
      }
    }

    /** wlmio_set_status_callback. */
    method SetStatusCallback(present: bool)
      modifies this`userCallback
      ensures userCallback == present
    {
      userCallback := present;
    }

    /** wlmio_set_timeout: later requests time out after `us` microseconds. */
    method SetTimeout(us: u64)
      modifies this`timeout
      ensures timeout == us
    {
      timeout := us;
    }

    /** wlmio_get_node_id: the id read from the GPIO lines at initialisation. */
    method GetNodeId() returns (id: byte)
      requires epollReady
      ensures id == localNodeId
    {
      return localNodeId;
    }

    // ------------------------------------------------------------ requests

    /** A request entry point's common tail: push the transfer with the
        service's current transfer id for the node, advance that id, and
        register the request under its response id.  async_add's result is
        ignored, as in the source. */
    method Submit(svc: nat, port: u16, nodeId: byte, payload: seq<byte>, param: Param,
                  callback: nat, uparam: nat, env: TimerEnv)
      requires Valid() && svc < 4 && nodeId <= NODE_ID_MAX
      requires env.timerFd >= 0 ==> forall k :: 0 <= k < |fds| ==> fds[k].fd != env.timerFd
      modifies this`outbox, this`fds, this`nextHandle, this`tasks, tids
      ensures Valid()
      ensures Sent(svc, port, nodeId, payload, param, callback, uparam, env)
    {
      var tid := tids[svc, nodeId];
      outbox := outbox + [Transfer(port, nodeId, tid, payload)];
      tids[svc, nodeId] := NextTransferId(tid);
      var _ := AsyncAdd(MakeRspSpecifier(nodeId, tid, port), param, callback, uparam, env);
    }

    /** The transfer was queued with the node's transfer id for the service,
        the id advanced (no other changed), and the request registered. */
    twostate predicate Sent(svc: nat, port: u16, nodeId: byte, payload: seq<byte>, param: Param,
                            callback: nat, uparam: nat, env: TimerEnv)
      reads this, tids
      requires svc < 4 && nodeId <= NODE_ID_MAX
      requires tids.Length0 == 4 && tids.Length1 == 128
    {
      var tid := old(tids[svc, nodeId]);
      outbox == old(outbox) + [Transfer(port, nodeId, tid, payload)] &&
      tids[svc, nodeId] == NextTransferId(tid) &&
      (forall s, n :: 0 <= s < 4 && 0 <= n < 128 && (s != svc || n != nodeId) ==> tids[s, n] == old(tids[s, n])) &&
      (tasks, fds, nextHandle) == AfterAdd(old(tasks), old(fds), old(nextHandle),
        MakeRspSpecifier(nodeId, tid, port), TimerSpecOf(timeout), param, callback, uparam, env)
    }

    /** wlmio_get_node_info: the node's info is requested into `info`. */
    method GetNodeInfo(nodeId: byte, info: Param, callback: Option<nat>, uparam: nat, env: TimerEnv)
      returns (r: int)
      requires Valid()
      requires env.timerFd >= 0 ==> forall k :: 0 <= k < |fds| ==> fds[k].fd != env.timerFd
      modifies this`outbox, this`fds, this`nextHandle, this`tasks, tids
      ensures Valid()
      ensures var q := GetNodeInfoRequest(nodeId, info.Ptr?, callback.Some?);
        (q.Rejected? ==> r == q.errno && unchanged(this, tids)) &&
        (q.Queued? ==> r == 0 && Sent(SVC_GET_INFO, PORT_GET_INFO, nodeId, q.payload, info, callback.value, uparam, env))
    {
      var q := GetNodeInfoRequest(nodeId, info.Ptr?, callback.Some?);
      if q.Rejected? {
        return q.errno;
      }
      Submit(SVC_GET_INFO, PORT_GET_INFO, nodeId, q.payload, info, callback.value, uparam, env);
      r := 0;
    }

    /** wlmio_register_list: the name of register `index` is requested into
        the 51-byte buffer `name`. */
    method RegisterList(nodeId: byte, index: u16, name: Param, callback: nat, uparam: nat, env: TimerEnv)
      returns (r: int)
      requires Valid()
      requires env.timerFd >= 0 ==> forall k :: 0 <= k < |fds| ==> fds[k].fd != env.timerFd
      modifies this`outbox, this`fds, this`nextHandle, this`tasks, tids
      ensures Valid()
      ensures var q := RegisterListRequest(nodeId, index, name.Ptr?);
        (q.Rejected? ==> r == q.errno && unchanged(this, tids)) &&
        (q.Queued? ==> r == 0 && Sent(SVC_REGISTER_LIST, PORT_REGISTER_LIST, nodeId, q.payload, name, callback, uparam, env))
    {
      var q := RegisterListRequest(nodeId, index, name.Ptr?);
      if q.Rejected? {
        return q.errno;
      }
      Submit(SVC_REGISTER_LIST, PORT_REGISTER_LIST, nodeId, q.payload, name, callback, uparam, env);
      r := 0;
    }

    /** wlmio_register_access: write `regw` (when present) to the named
        register and have the reply stored in `regr`. */
    method RegisterAccess(nodeId: byte, name: Option<CString>, regw: Option<RegisterAccess>, regr: Param,
                          callback: nat, uparam: nat, env: TimerEnv) returns (r: int)
      requires Valid()
      requires env.timerFd >= 0 ==> forall k :: 0 <= k < |fds| ==> fds[k].fd != env.timerFd
      modifies this`outbox, this`fds, this`nextHandle, this`tasks, tids
      ensures Valid()
      ensures var q := RegisterAccessRequest(nodeId, name, regw, regr.Ptr?);
        (q.Rejected? ==> r == q.errno && unchanged(this, tids)) &&
        (q.Queued? ==> r == 0 && Sent(SVC_REGISTER_ACCESS, PORT_REGISTER_ACCESS, nodeId, q.payload, regr, callback, uparam, env))
    {
      var q := RegisterAccessRequest(nodeId, name, regw, regr.Ptr?);
      if q.Rejected? {
        return q.errno;
      }
      Submit(SVC_REGISTER_ACCESS, PORT_REGISTER_ACCESS, nodeId, q.payload, regr, callback, uparam, env);
      r := 0;
    }

    /** wlmio_execute_command: `paramLen` bytes of `param` go with the command;
        `payloadAllocOk` is whether the payload buffer could be allocated. */
    method ExecuteCommand(nodeId: byte, command: u16, param: Option<seq<byte>>, paramLen: nat,
                          callback: nat, uparam: nat, payloadAllocOk: bool, env: TimerEnv) returns (r: int)
      requires Valid()
      requires param.Some? ==> Min(paramLen, 112) <= |param.value|
      requires env.timerFd >= 0 ==> forall k :: 0 <= k < |fds| ==> fds[k].fd != env.timerFd
      modifies this`outbox, this`fds, this`nextHandle, this`tasks, tids
      ensures Valid()
      ensures var q := ExecuteCommandRequest(nodeId, command, param, paramLen);
        (q.Rejected? ==> r == q.errno && unchanged(this, tids)) &&
        (q.Queued? && !payloadAllocOk ==> r == -ENOMEM && unchanged(this, tids)) &&
        (q.Queued? && payloadAllocOk ==>
          r == 0 && Sent(SVC_EXECUTE_COMMAND, PORT_EXECUTE_COMMAND, nodeId, q.payload, Null, callback, uparam, env))
    {
      var q := ExecuteCommandRequest(nodeId, command, param, paramLen);
      if q.Rejected? {
        return q.errno;
      }
      if !payloadAllocOk {
        return -ENOMEM;
      }
      Submit(SVC_EXECUTE_COMMAND, PORT_EXECUTE_COMMAND, nodeId, q.payload, Null, callback, uparam, env);
      r := 0;
    }

    // ----------------------------------------------------------- responses

    /** The response to the request `id` came in: without a pending request
        nothing changes; otherwise `rec` lands in the request's buffer and the
        request completes with status `r`. */
    twostate predicate Answered(id: u32, rec: Contents, r: int)
      reads this
    {
      var k := FindTask(old(tasks), id);
      (k.None? ==> buffers == old(buffers) && tasks == old(tasks) && fds == old(fds) && calls == old(calls)) &&
      (k.Some? ==>
        buffers == Stored(old(buffers), old(tasks[k.value].param), rec) &&
        (tasks, fds, calls) == Completion(old(tasks), old(fds), old(calls), id, r))
    }

    twostate predicate InfoAnswered(remote: byte, tid: byte, payload: seq<byte>)
      reads this
    {
      var res := ParseNodeInfo(payload);
      Answered(MakeRspSpecifier(remote, tid, PORT_GET_INFO), InfoRecord(res.info), res.r)
    }

    twostate predicate ListAnswered(remote: byte, tid: byte, payload: seq<byte>)
      reads this
      requires |payload| <= EXTENT_REGISTER_LIST
    {
      Answered(MakeRspSpecifier(remote, tid, PORT_REGISTER_LIST), NameRecord(RegisterListName(payload)), 0)
    }

    twostate predicate AccessAnswered(remote: byte, tid: byte, payload: seq<byte>)
      reads this
    {
      var res := ParseRegisterAccess(payload);
      Answered(MakeRspSpecifier(remote, tid, PORT_REGISTER_ACCESS), AccessRecord(res.regr), res.r)
    }

    /** An ExecuteCommand response carries no record: the request completes
        (if still pending) with the status byte's verdict. */
    twostate predicate CommandAnswered(remote: byte, tid: byte, payload: seq<byte>)
      reads this
    {
      (tasks, fds, calls) == Completion(old(tasks), old(fds), old(calls),
        MakeRspSpecifier(remote, tid, PORT_EXECUTE_COMMAND), CommandStatus(payload))
    }

    /** The common end of a response handler once its request was found:
        the decoded record goes to the request's buffer, then the request
        completes with status `r`. */
    method StoreAndComplete(id: u32, param: Param, rec: Contents, r: int)
      requires Valid() && FindTask(tasks, id).Some? && param == tasks[FindTask(tasks, id).value].param
      modifies this`buffers, this`fds, this`tasks, this`calls
      ensures Valid()
      ensures Answered(id, rec, r)
    {
      buffers := Stored(buffers, param, rec);
      AsyncComplete(id, r);
    }

    /** get_node_info_response_handler. */
    method OnGetInfoResponse(remote: byte, tid: byte, payload: seq<byte>)
      requires Valid()
      modifies this`buffers, this`fds, this`tasks, this`calls
      ensures Valid()
      ensures InfoAnswered(remote, tid, payload)
    {
      var id := MakeRspSpecifier(remote, tid, PORT_GET_INFO);
      var r, param := AsyncGetParam(id, true);
      if r < 0 {
        AsyncComplete(id, r);
        return;
      }
      var res := ParseNodeInfo(payload);
      StoreAndComplete(id, param, InfoRecord(res.info), res.r);
    }

    /** register_list_response_handler; the CAN stack has cut the payload to
        the subscription's 51-byte extent. */
    method OnRegisterListResponse(remote: byte, tid: byte, payload: seq<byte>)
      requires Valid() && |payload| <= EXTENT_REGISTER_LIST
      modifies this`buffers, this`fds, this`tasks, this`calls
      ensures Valid()
      ensures ListAnswered(remote, tid, payload)
    {
      var id := MakeRspSpecifier(remote, tid, PORT_REGISTER_LIST);
      var r, param := AsyncGetParam(id, true);
      if r < 0 {
        return;
      }
      StoreAndComplete(id, param, NameRecord(RegisterListName(payload)), 0);
    }

    /** register_access_response_handler, with the tag checked before use and
        the copy clamped to the value area (ParseRegisterAccess). */
    method OnRegisterAccessResponse(remote: byte, tid: byte, payload: seq<byte>)
      requires Valid()
      modifies this`buffers, this`fds, this`tasks, this`calls
      ensures Valid()
      ensures AccessAnswered(remote, tid, payload)
    {
      var id := MakeRspSpecifier(remote, tid, PORT_REGISTER_ACCESS);
      var r, param := AsyncGetParam(id, true);
      if r < 0 {
        return;
      }
      var res := ParseRegisterAccess(payload);
      StoreAndComplete(id, param, AccessRecord(res.regr), res.r);
    }

    /** execute_command_response_handler: the request completes with the
        node's status byte. */
    method OnExecuteCommandResponse(remote: byte, tid: byte, payload: seq<byte>)
      requires Valid()
      modifies this`fds, this`tasks, this`calls
      ensures Valid()
      ensures CommandAnswered(remote, tid, payload)
    {
      AsyncComplete(MakeRspSpecifier(remote, tid, PORT_EXECUTE_COMMAND), CommandStatus(payload));
    }

    /** can_socket_handler after a transfer was reassembled: route it by port
        and kind, the payload cut to the subscription's extent.  Anything else
        is dropped. */
    method OnTransfer(port: u16, kind: Kind, remote: byte, tid: byte, payload: seq<byte>, newTimerFd: int)
      requires Valid()
      requires remote <= NODE_ID_MAX || remote == NODE_ID_UNSET
      requires newTimerFd >= 0 ==> forall k :: 0 <= k < |fds| ==> fds[k].fd != newTimerFd
      modifies this`buffers, this`fds, this`nextHandle, this`tasks, this`calls, this`statusChanges, nodes, timers
      ensures Valid()
      ensures !Routed(port, kind) ==> unchanged(this, nodes, timers)
      ensures port == PORT_HEARTBEAT && kind == Message ==>
        HeartbeatSeen(remote, payload[..Min(|payload|, 7)], newTimerFd) &&
        buffers == old(buffers) && tasks == old(tasks) && calls == old(calls)
      ensures kind == Response && port != PORT_HEARTBEAT && Routed(port, kind) ==>
        unchanged(nodes, timers) && nextHandle == old(nextHandle) && statusChanges == old(statusChanges)
      ensures port == PORT_GET_INFO && kind == Response ==>
        InfoAnswered(remote, tid, payload[..Min(|payload|, EXTENT_GET_INFO)])
      ensures port == PORT_REGISTER_LIST && kind == Response ==>
        ListAnswered(remote, tid, payload[..Min(|payload|, EXTENT_REGISTER_LIST)])
      ensures port == PORT_REGISTER_ACCESS && kind == Response ==>
        AccessAnswered(remote, tid, payload[..Min(|payload|, EXTENT_REGISTER_ACCESS)])
      ensures port == PORT_EXECUTE_COMMAND && kind == Response ==>
        CommandAnswered(remote, tid, payload[..Min(|payload|, 1)]) && buffers == old(buffers)
    {
      if port == PORT_HEARTBEAT && kind == Message {
        Heartbeat(remote, payload[..Min(|payload|, 7)], newTimerFd);
      } else if port == PORT_GET_INFO && kind == Response {
        OnGetInfoResponse(remote, tid, payload[..Min(|payload|, EXTENT_GET_INFO)]);
      } else if port == PORT_REGISTER_LIST && kind == Response {
        OnRegisterListResponse(remote, tid, payload[..Min(|payload|, EXTENT_REGISTER_LIST)]);
      } else if port == PORT_REGISTER_ACCESS && kind == Response {
        OnRegisterAccessResponse(remote, tid, payload[..Min(|payload|, EXTENT_REGISTER_ACCESS)]);
      } else if port == PORT_EXECUTE_COMMAND && kind == Response {
        OnExecuteCommandResponse(remote, tid, payload[..Min(|payload|, 1)]);
      }
    }
  }
}
