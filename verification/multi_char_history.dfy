/**
 The sparse files under concurrency: any number of threads make calls through open files, a byte or a
 decision at a time. As long as each open file is used by one call at a time, a run is the history of
 its calls in mutex order, and so is what the lists of writes say it is.
 */
module MultiCharHistory {
  import opened Common
  import opened MultiChar
  import opened MultiCharThreads
  import opened MultiCharFiles

  /** `users` says through which open file a thread's call goes; `history` lists the calls by the moment
      they took their mutex. The position of an open file is read when a call begins, and written back
      when it ends. */
  datatype Fleet = Fleet(sys: System, files: seq<OpenFile>, users: map<nat, nat>, history: seq<Op>)

  datatype FleetAction = Call(tid: nat, fd: nat, call: Call) | Proceed(tid: nat)

  predicate InUse(s: Fleet, fd: nat) {
    exists t | t in s.users :: s.users[t] == fd
  }

  /** What the kernel stores in the open file; a failed call leaves the position alone. */
  function WriteBack(f: OpenFile, reply: Reply): OpenFile {
    if reply.ret < 0 || reply.pos < 0 then f else f.(pos := reply.pos)
  }

  function Opened(d0: Driver): (s: Fleet)
    requires DriverOk(d0)
  {
    Fleet(System(d0.devs, seq(|d0.devs|, i => Free), map[], [], map[]), d0.files, map[], [])
  }

  /** A call through an open file that is in use does not begin. */
  function FleetStep(s: Fleet, a: FleetAction): Fleet
    requires Shape(s.sys)
  {
    match a
    case Call(tid, fd, call) =>
      if ThreadOf(s.sys, tid).Idle? && fd < |s.files| && !InUse(s, fd) && s.files[fd].minor < |s.sys.devs| then
        s.(sys := Step(s.sys, Invoke(tid, s.files[fd].minor, s.files[fd].pos, call)), users := s.users[tid := fd])
      else s
    case Proceed(tid) =>
      var th, s' := ThreadOf(s.sys, tid), s.(sys := Step(s.sys, Move(tid)));
      if tid !in s.users || s.users[tid] >= |s.files| then s
      else
        var fd := s.users[tid];
        if th.Blocked? && ThreadOf(s'.sys, tid).Inside? then s'.(history := s.history + [Do(fd, th.call)])
        else if th.Inside? && th.stage.Leaving? then
          s'.(files := s.files[fd := WriteBack(s.files[fd], th.stage.reply)], users := s.users - {tid})
        else s'
  }

  // ---------- the sequential history ----------

  lemma {:induction false} HistoryAppend(d: Driver, history: seq<Op>, op: Op)
    requires DriverOk(d)
    ensures Final(d, history + [op]) == Perform(Final(d, history), op).0
    ensures Replies(d, history + [op]) == Replies(d, history) + [Perform(Final(d, history), op).1]
    decreases history
  {
    if history == [] {
      assert history + [op] == [op];
      assert Final(Perform(d, op).0, []) == Perform(d, op).0;
      assert Replies(Perform(d, op).0, []) == [];
    } else {
      var d1 := Perform(d, history[0]).0;
      assert (history + [op])[1..] == history[1..] + [op];
      HistoryAppend(d1, history[1..], op);
      Assoc([Perform(d, history[0]).1], Replies(d1, history[1..]), [Perform(Final(d1, history[1..]), op).1]);
    }
  }

  /** The driver after the calls that have taken their mutex, one after another. */
  function Serialized(d0: Driver, s: Fleet): Driver
    requires DriverOk(d0)
  {
    Final(d0, s.history)
  }

  /** That driver's devices are those of the mutex order, and its replies too. */
  ghost predicate OrderInv(d0: Driver, s: Fleet) {
    && DriverOk(d0) && Inv(d0.devs, s.sys)
    && |s.history| == |s.sys.order| == |Replies(d0, s.history)|
    && |s.files| == |d0.files| == |Serialized(d0, s).files|
    && (forall op | op in s.history :: Valid(op))
    && Serialized(d0, s).devs == Serial(d0.devs, s.sys.order)
    && forall k | 0 <= k < |s.history| :: Replies(d0, s.history)[k] == SerialReply(d0.devs, s.sys.order, k)
  }

  // ---------- who uses which open file ----------

  /** An open file in use waits with the position its call has begun with; in the sequential history it
      already has the position of the call's reply, once the call has its mutex. */
  ghost predicate UserInv(d0: Driver, s: Fleet, tid: nat)
    requires OrderInv(d0, s)
  {
    var th := ThreadOf(s.sys, tid);
    if th.Idle? then tid !in s.users
    else
      && tid in s.users && s.users[tid] < |s.files|
      && var f, g := s.files[s.users[tid]], Serialized(d0, s).files[s.users[tid]];
         match th
         case Blocked(minor, pos, call) => f == g == OpenFile(minor, pos) && OffsetInWord(call)
         case Inside(ticket, stage) =>
           var e := s.sys.order[ticket];
           && f == OpenFile(e.minor, e.pos)
           && g.minor == e.minor && g.pos == SerialReply(d0.devs, s.sys.order, ticket).pos
  }

  ghost predicate FileInv(d0: Driver, s: Fleet, fd: nat)
    requires OrderInv(d0, s) && fd < |s.files|
  {
    InUse(s, fd) || s.files[fd] == Serialized(d0, s).files[fd]
  }

  predicate OneEach(s: Fleet) {
    forall t, u | t in s.users && u in s.users && t != u :: s.users[t] != s.users[u]
  }

  ghost predicate FleetInv(d0: Driver, s: Fleet) {
    && OrderInv(d0, s) && OneEach(s)
    && (forall tid :: UserInv(d0, s, tid))
    && (forall fd | 0 <= fd < |s.files| :: FileInv(d0, s, fd))
  }

  // ---------- every step keeps it ----------

  lemma CallKeeps(d0: Driver, s: Fleet, a: FleetAction)
    requires FleetInv(d0, s) && a.Call? && OffsetInWord(a.call)
    ensures FleetInv(d0, FleetStep(s, a))
  {
    var s' := FleetStep(s, a);
    if s' != s {
      InvokeKeeps(d0.devs, s.sys, Invoke(a.tid, s.files[a.fd].minor, s.files[a.fd].pos, a.call));
      assert UserInv(d0, s, a.tid) && FileInv(d0, s, a.fd);
      forall t ensures UserInv(d0, s', t) {
        assert UserInv(d0, s, t);
      }
      forall fd | 0 <= fd < |s'.files| ensures FileInv(d0, s', fd) {
        assert FileInv(d0, s, fd);
        if InUse(s, fd) {
          var t :| t in s.users && s.users[t] == fd;
          assert t in s'.users && s'.users[t] == fd;
        }
      }
    }
  }

  /** Taking the mutex is the call's moment in the history. */
  lemma AcquireOrder(d0: Driver, s: Fleet, tid: nat)
    requires FleetInv(d0, s) && ThreadOf(s.sys, tid).Blocked? && s.sys.owners[ThreadOf(s.sys, tid).minor].Free?
    ensures var s' := FleetStep(s, Proceed(tid));
      && OrderInv(d0, s') && tid in s.users && s.users[tid] < |s.files|
      && s'.history == s.history + [Do(s.users[tid], ThreadOf(s.sys, tid).call)]
      && s'.sys == Acquire(s.sys, tid)
      && Serialized(d0, s').files ==
         Serialized(d0, s).files[s.users[tid] := s.files[s.users[tid]].(
           pos := SerialReply(d0.devs, s'.sys.order, |s.sys.order|).pos)]
  {
    var s', th := FleetStep(s, Proceed(tid)), ThreadOf(s.sys, tid);
    var e := Entry(tid, th.minor, th.pos, th.call);
    assert UserInv(d0, s, tid);
    AcquireKeeps(d0.devs, s.sys, tid);
    HistoryAppend(d0, s.history, Do(s.users[tid], th.call));
    assert s'.sys.order == s.sys.order + [e];
    AcquireReplies(d0, s, e, Do(s.users[tid], th.call));
  }

  lemma AcquireReplies(d0: Driver, s: Fleet, e: Entry, op: Op)
    requires OrderInv(d0, s) && e.minor < |d0.devs|
    requires Perform(Serialized(d0, s), op).1 == Apply(Serial(d0.devs, s.sys.order)[e.minor], e.pos, e.call).reply
    ensures InRange(d0.devs, s.sys.order + [e])
    ensures |Replies(d0, s.history + [op])| == |s.history| + 1
    ensures forall k | 0 <= k <= |s.history| ::
              Replies(d0, s.history + [op])[k] == SerialReply(d0.devs, s.sys.order + [e], k)
  {
    HistoryAppend(d0, s.history, op);
    forall k | 0 <= k < |s.history|
      ensures Replies(d0, s.history + [op])[k] == SerialReply(d0.devs, s.sys.order + [e], k)
    {
      SerialReplyKept(d0.devs, s.sys.order, e, k);
    }
  }

  lemma AcquireUser(d0: Driver, s: Fleet, tid: nat, t: nat)
    requires FleetInv(d0, s) && ThreadOf(s.sys, tid).Blocked? && s.sys.owners[ThreadOf(s.sys, tid).minor].Free?
    requires OrderInv(d0, FleetStep(s, Proceed(tid)))
    ensures UserInv(d0, FleetStep(s, Proceed(tid)), t)
  {
    AcquireOrder(d0, s, tid);
    assert UserInv(d0, s, tid) && UserInv(d0, s, t);
    if t != tid && ThreadOf(s.sys, t).Inside? {
      var th := ThreadOf(s.sys, tid);
      SerialReplyKept(d0.devs, s.sys.order, Entry(tid, th.minor, th.pos, th.call), ThreadOf(s.sys, t).ticket);
    }
  }

  lemma AcquireFleet(d0: Driver, s: Fleet, tid: nat)
    requires FleetInv(d0, s) && ThreadOf(s.sys, tid).Blocked? && s.sys.owners[ThreadOf(s.sys, tid).minor].Free?
    ensures FleetInv(d0, FleetStep(s, Proceed(tid)))
  {
    var s' := FleetStep(s, Proceed(tid));
    AcquireOrder(d0, s, tid);
    forall t ensures UserInv(d0, s', t) {
      AcquireUser(d0, s, tid, t);
    }
    forall fd | 0 <= fd < |s'.files| ensures FileInv(d0, s', fd) {
      assert FileInv(d0, s, fd);
    }
  }

  lemma AdvanceFleet(d0: Driver, s: Fleet, tid: nat)
    requires FleetInv(d0, s) && ThreadOf(s.sys, tid).Inside? && !ThreadOf(s.sys, tid).stage.Leaving?
    ensures FleetInv(d0, FleetStep(s, Proceed(tid)))
  {
    var s' := FleetStep(s, Proceed(tid));
    assert UserInv(d0, s, tid);
    AdvanceKeeps(d0.devs, s.sys, tid);
    forall t ensures UserInv(d0, s', t) {
      assert UserInv(d0, s, t);
    }
    forall fd | 0 <= fd < |s'.files| ensures FileInv(d0, s', fd) {
      assert FileInv(d0, s, fd);
    }
  }

  /** The reply that a thread leaves with puts its open file where the history has it. */
  lemma LeavingStores(d0: Driver, s: Fleet, tid: nat)
    requires FleetInv(d0, s) && ThreadOf(s.sys, tid).Inside? && ThreadOf(s.sys, tid).stage.Leaving?
    ensures tid in s.users && s.users[tid] < |s.files|
    ensures WriteBack(s.files[s.users[tid]], ThreadOf(s.sys, tid).stage.reply) == Serialized(d0, s).files[s.users[tid]]
  {
    var th := ThreadOf(s.sys, tid);
    assert UserInv(d0, s, tid) && InsideInv(d0.devs, s.sys, tid);
    var e := s.sys.order[th.ticket];
  }

  lemma ReleaseFleet(d0: Driver, s: Fleet, tid: nat)
    requires FleetInv(d0, s) && ThreadOf(s.sys, tid).Inside? && ThreadOf(s.sys, tid).stage.Leaving?
    ensures FleetInv(d0, FleetStep(s, Proceed(tid)))
  {
    var s' := FleetStep(s, Proceed(tid));
    LeavingStores(d0, s, tid);
    ReleaseKeeps(d0.devs, s.sys, tid);
    forall t ensures UserInv(d0, s', t) {
      assert UserInv(d0, s, t);
    }
    forall fd | 0 <= fd < |s'.files| ensures FileInv(d0, s', fd) {
      assert FileInv(d0, s, fd);
      if InUse(s, fd) && fd != s.users[tid] {
        var t :| t in s.users && s.users[t] == fd;
        assert t in s'.users && s'.users[t] == fd;
      }
    }
  }

  lemma FleetStepKeeps(d0: Driver, s: Fleet, a: FleetAction)
    requires FleetInv(d0, s) && (a.Call? ==> OffsetInWord(a.call))
    ensures FleetInv(d0, FleetStep(s, a))
  {
    if a.Call? {
      CallKeeps(d0, s, a);
    } else {
      assert UserInv(d0, s, a.tid);
      match ThreadOf(s.sys, a.tid) {
        case Idle =>
        case Blocked(minor, pos, call) =>
          if s.sys.owners[minor].Free? {
            AcquireFleet(d0, s, a.tid);
          }
        case Inside(ticket, stage) =>
          if stage.Leaving? {
            ReleaseFleet(d0, s, a.tid);
          } else {
            AdvanceFleet(d0, s, a.tid);
          }
      }
    }
  }

  /** The offsets that programs ask for are 64-bit numbers. */
  predicate OffsetsInWord(schedule: seq<FleetAction>) {
    forall a | a in schedule && a.Call? :: OffsetInWord(a.call)
  }

  ghost function FleetRun(d0: Driver, s: Fleet, schedule: seq<FleetAction>): (r: Fleet)
    requires FleetInv(d0, s) && OffsetsInWord(schedule)
    ensures FleetInv(d0, r)
    decreases schedule
  {
    if schedule == [] then s
    else
      FleetStepKeeps(d0, s, schedule[0]);
      FleetRun(d0, FleetStep(s, schedule[0]), schedule[1..])
  }

  // ---------- every call begins and can be answered ----------

  /** An idle thread's call through an open file that is not in use begins, on that file's minor and at
      its position. */
  lemma CallBegins(d0: Driver, s: Fleet, tid: nat, fd: nat, call: Call)
    requires FleetInv(d0, s) && ThreadOf(s.sys, tid).Idle? && fd < |s.files| && !InUse(s, fd)
    ensures var s' := FleetStep(s, Call(tid, fd, call));
      && ThreadOf(s'.sys, tid) == Blocked(s.files[fd].minor, s.files[fd].pos, call)
      && s'.users == s.users[tid := fd] && s'.files == s.files && s'.sys.devs == s.sys.devs
  {
    assert FileInv(d0, s, fd);
    assert s.files[fd] in Serialized(d0, s).files;
  }

  predicate OnlyProceed(x: seq<FleetAction>) {
    forall a | a in x :: a.Proceed?
  }

  lemma FleetPrepend(d0: Driver, s: Fleet, tid: nat, x: seq<FleetAction>)
    requires FleetInv(d0, s) && OnlyProceed(x)
    ensures FleetInv(d0, FleetStep(s, Proceed(tid))) && OnlyProceed([Proceed(tid)] + x)
    ensures FleetRun(d0, s, [Proceed(tid)] + x) == FleetRun(d0, FleetStep(s, Proceed(tid)), x)
  {
    FleetStepKeeps(d0, s, Proceed(tid));
    assert ([Proceed(tid)] + x)[1..] == x;
  }

  /** A thread inside its critical section can go on alone until it has answered and left. */
  lemma {:induction false} Leaves(d0: Driver, s: Fleet, tid: nat) returns (rest: seq<FleetAction>)
    requires FleetInv(d0, s) && ThreadOf(s.sys, tid).Inside?
    ensures OnlyProceed(rest)
    ensures var ticket, s' := ThreadOf(s.sys, tid).ticket, FleetRun(d0, s, rest);
      && ThreadOf(s'.sys, tid).Idle? && ticket < |s.sys.order| && ticket in s'.sys.replies
      && s'.history == s.history && s'.sys.order == s.sys.order
      && s'.sys.owners == s.sys.owners[s.sys.order[ticket].minor := Free]
      && s'.users == s.users - {tid} && forall t | t != tid :: ThreadOf(s'.sys, t) == ThreadOf(s.sys, t)
    decreases StageRank(ThreadOf(s.sys, tid).stage), Left(ThreadOf(s.sys, tid).stage)
  {
    assert UserInv(d0, s, tid);
    FleetStepKeeps(d0, s, Proceed(tid));
    var s' := FleetStep(s, Proceed(tid));
    if ThreadOf(s.sys, tid).stage.Leaving? {
      rest := [];
      assert FleetRun(d0, s', []) == s';
    } else {
      rest := Leaves(d0, s', tid);
    }
    FleetPrepend(d0, s, tid, rest);
    rest := [Proceed(tid)] + rest;
  }

  /** A waiting call can enter: its minor is free, or the holder can be moved on until it is. */
  lemma MakeWay(d0: Driver, s: Fleet, tid: nat) returns (rest: seq<FleetAction>)
    requires FleetInv(d0, s) && ThreadOf(s.sys, tid).Blocked?
    ensures OnlyProceed(rest)
    ensures var s' := FleetRun(d0, s, rest);
      && ThreadOf(s'.sys, tid) == ThreadOf(s.sys, tid) && s'.sys.owners[ThreadOf(s.sys, tid).minor].Free?
      && s'.history == s.history && tid in s.users && tid in s'.users && s'.users[tid] == s.users[tid]
  {
    var minor := ThreadOf(s.sys, tid).minor;
    assert UserInv(d0, s, tid) && MinorInv(d0.devs, s.sys, minor);
    if s.sys.owners[minor].Free? {
      rest := [];
    } else {
      rest := Leaves(d0, s, s.sys.owners[minor].tid);
    }
  }

  /** In every state of a run, a call that waits for its mutex can be brought to its answer, first by the
      holder's moves and then by its own: it enters at the end of the history, and its reply, which
      `ConcurrentFiles` determines, is given. */
  lemma CallAnswered(d0: Driver, s: Fleet, tid: nat) returns (way: seq<FleetAction>, own: seq<FleetAction>)
    requires FleetInv(d0, s) && ThreadOf(s.sys, tid).Blocked?
    ensures OnlyProceed(way) && OnlyProceed(own) && tid in s.users
    ensures var s' := FleetRun(d0, FleetRun(d0, s, way), own);
      && s'.history == s.history + [Do(s.users[tid], ThreadOf(s.sys, tid).call)]
      && |s.history| in s'.sys.replies && ThreadOf(s'.sys, tid).Idle?
  {
    way := MakeWay(d0, s, tid);
    var s1 := FleetRun(d0, s, way);
    AcquireOrder(d0, s1, tid);
    FleetStepKeeps(d0, s1, Proceed(tid));
    own := Leaves(d0, FleetStep(s1, Proceed(tid)), tid);
    FleetPrepend(d0, s1, tid, own);
    own := [Proceed(tid)] + own;
  }

  lemma {:induction false} OneReplyEach(t: Reference, history: seq<Op>)
    requires ReferenceOk(t)
    ensures |Intended(t, history)| == |history|
    decreases history
  {
    if history != [] {
      OneReplyEach(Intend(t, history[0]).0, history[1..]);
    }
  }

  /** The devices as loaded, with some files open at the start. */
  function LoadedWith(n: nat, files: seq<OpenFile>): (d: Driver)
    requires FilesInRange(files, n)
    ensures DriverOk(d)
  {
    Loaded(n).(files := files)
  }

  /** The lists of writes after the calls that have taken their mutex, one after another. */
  function MeantBy(n: nat, files: seq<OpenFile>, history: seq<Op>): Reference
    requires FilesInRange(files, n)
  {
    Meant(NoWrites(n).(files := files), history)
  }

  /** For any threads, minors and open files, any faults and every interleaving byte by byte: the calls
      in mutex order are a history in which every reply given so far is the one the lists of writes give,
      every unlocked device holds exactly its list of writes, and every open file not in use is at the
      position that history leaves it at. */
  lemma ConcurrentFiles(n: nat, files: seq<OpenFile>, schedule: seq<FleetAction>)
    requires FilesInRange(files, n) && OffsetsInWord(schedule)
    ensures FleetInv(LoadedWith(n, files), Opened(LoadedWith(n, files)))
    ensures var s := FleetRun(LoadedWith(n, files), Opened(LoadedWith(n, files)), schedule);
      var t := MeantBy(n, files, s.history);
      && |s.sys.owners| == |s.sys.devs| == |t.logs| == n && |s.files| == |t.files|
      && (forall k | k in s.sys.replies ::
            k < |s.history| == |Intended(NoWrites(n).(files := files), s.history)|
            && s.sys.replies[k] == Intended(NoWrites(n).(files := files), s.history)[k])
      && (forall m | 0 <= m < n && s.sys.owners[m].Free? :: Holds(s.sys.devs[m], t.logs[m]))
      && (forall fd | 0 <= fd < |s.files| && !InUse(s, fd) :: s.files[fd] == t.files[fd])
  {
    var d0, t0 := LoadedWith(n, files), NoWrites(n).(files := files);
    var s := FleetRun(d0, Opened(d0), schedule);
    HistoryRefines(d0, t0, s.history);
    OneReplyEach(t0, s.history);
    forall m | 0 <= m < n && s.sys.owners[m].Free? ensures Holds(s.sys.devs[m], Meant(t0, s.history).logs[m]) {
      assert MinorInv(d0.devs, s.sys, m);
    }
    forall fd | 0 <= fd < |s.files| && !InUse(s, fd) ensures s.files[fd] == Meant(t0, s.history).files[fd] {
      assert FileInv(d0, s, fd);
    }
  }
}
