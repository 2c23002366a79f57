/**
 Loading and unloading the multi-minor driver as a ledger of kernel resources: staged acquisition,
 unwinding from any failing call, and the order in which things are given back.
 */
module MultiCharLedger {
  import opened Common

  datatype Resource =
    | Region                 // the range of device numbers
    | Class                  // the device class
    | Memory                 // the array of device structures
    | Cdev(minor: nat)       // the character device of a minor
    | Node(minor: nat)       // its device node

  datatype Event = Acquire(r: Resource) | Release(r: Resource)

  /** `child` may live only while `parent` does: a node needs its class and its cdev, a cdev lies in
      the array and uses a device number. */
  predicate DependsOn(child: Resource, parent: Resource) {
    match child
    case Region => false
    case Class => false
    case Memory => false
    case Cdev(m) => parent in {Region, Memory}
    case Node(m) => parent in {Region, Class, Cdev(m)}
  }

  /** What is alive after a list of events. */
  function Alive(log: seq<Event>): set<Resource>
    decreases |log|
  {
    if log == [] then {}
    else
      After(Alive(log[..|log| - 1]), log[|log| - 1])
  }

  function After(alive: set<Resource>, e: Event): set<Resource> {
    if e.Acquire? then alive + {e.r} else alive - {e.r}
  }

  /** An event that the kernel's rules allow: nothing is acquired twice or without its parents,
      nothing is released that is not held or still has a living dependent. */
  ghost predicate Allowed(alive: set<Resource>, e: Event) {
    if e.Acquire? then e.r !in alive && forall p :: DependsOn(e.r, p) ==> p in alive
    else e.r in alive && forall c | c in alive :: !DependsOn(c, e.r)
  }

  ghost predicate Disciplined(log: seq<Event>)
    decreases |log|
  {
    log != [] ==>
      var n := |log| - 1;
      Disciplined(log[..n]) && Allowed(Alive(log[..n]), log[n])
  }

  function Count<T(==)>(s: seq<T>, x: T): nat
    decreases |s|
  {
    if s == [] then 0 else Count(s[..|s| - 1], x) + if s[|s| - 1] == x then 1 else 0
  }

  lemma CountLast<T>(s: seq<T>, y: T, x: T)
    ensures Count(s + [y], x) == Count(s, x) + if y == x then 1 else 0
  {
  }

  lemma {:induction false} CountConcat<T>(s: seq<T>, t: seq<T>, x: T)
    ensures Count(s + t, x) == Count(s, x) + Count(t, x)
    decreases |t|
  {
    if t == [] {
      assert s + t == s;
    } else {
      var n := |t| - 1;
      CountConcat(s, t[..n], x);
      CountLast(s + t[..n], t[n], x);
      assert s + t == (s + t[..n]) + [t[n]];
    }
  }

  /** In a disciplined ledger a resource is alive exactly when it was acquired once more than it was
      released, and otherwise both happened equally often. */
  lemma {:induction false} AcquiredOnceMoreThanReleased(log: seq<Event>, r: Resource)
    requires Disciplined(log)
    ensures Count(log, Acquire(r)) == Count(log, Release(r)) + if r in Alive(log) then 1 else 0
    decreases |log|
  {
    if log != [] {
      AcquiredOnceMoreThanReleased(log[..|log| - 1], r);
    }
  }

  // ---------- which call fails ----------

  /** The kernel calls of init that can fail, each named by what it acquires; the outcome is the
      error number the kernel returns, zero for success. */
  type Outcome = Resource -> nat

  /** The calls in the order in which init makes them. */
  function Wanted(n: nat): seq<Resource> {
    if n == 0 then [Region, Class, Memory] else Wanted(n - 1) + [Cdev(n - 1), Node(n - 1)]
  }

  /** How init reports a failing call: a failed allocation is out of memory, a failed node is an
      invalid argument whatever the kernel said, other errors are passed on. */
  function Report(r: Resource, outcome: Outcome): int {
    match r
    case Memory => -ENOMEM
    case Node(m) => -EINVAL
    case _ => 0 - outcome(r)
  }

  /** The first failing call decides the return value. */
  function FirstFailure(calls: seq<Resource>, outcome: Outcome): int {
    if calls == [] then 0
    else if outcome(calls[0]) != 0 then Report(calls[0], outcome)
    else FirstFailure(calls[1..], outcome)
  }

  /** What was acquired before the first failure. */
  function Taken(calls: seq<Resource>, outcome: Outcome): seq<Resource> {
    if calls == [] || outcome(calls[0]) != 0 then [] else [calls[0]] + Taken(calls[1..], outcome)
  }

  predicate AllSucceed(calls: seq<Resource>, outcome: Outcome) {
    forall i | 0 <= i < |calls| :: outcome(calls[i]) == 0
  }

  /** Calls that succeed, then one that fails, whatever was to come. */
  lemma {:induction false} FailsAt(x: seq<Resource>, r: Resource, y: seq<Resource>, outcome: Outcome)
    requires AllSucceed(x, outcome) && outcome(r) != 0
    ensures FirstFailure(x + [r] + y, outcome) == Report(r, outcome)
    ensures Taken(x + [r] + y, outcome) == x
    decreases x
  {
    if x == [] {
      assert x + [r] + y == [r] + y;
    } else {
      assert (x + [r] + y)[1..] == x[1..] + [r] + y;
      FailsAt(x[1..], r, y, outcome);
      assert x == [x[0]] + x[1..];
    }
  }

  lemma {:induction false} NoneFails(x: seq<Resource>, outcome: Outcome)
    requires AllSucceed(x, outcome)
    ensures FirstFailure(x, outcome) == 0 && Taken(x, outcome) == x
    decreases x
  {
    if x != [] {
      NoneFails(x[1..], outcome);
    }
  }

  lemma {:induction false} WantedFrom(i: nat, n: nat) returns (rest: seq<Resource>)
    requires i < n
    ensures Wanted(n) == Wanted(i) + [Cdev(i)] + [Node(i)] + rest
    decreases n
  {
    if i == n - 1 {
      rest := [];
      assert Wanted(i) + [Cdev(i), Node(i)] == Wanted(i) + [Cdev(i)] + [Node(i)] + [];
    } else {
      var r := WantedFrom(i, n - 1);
      rest := r + [Cdev(n - 1), Node(n - 1)];
      assert Wanted(n) == Wanted(i) + [Cdev(i)] + [Node(i)] + rest;
    }
  }

  /** What the outer stages return when one of them fails. */
  lemma OuterFailure(n: nat, outcome: Outcome)
    ensures var f, t := FirstFailure(Wanted(n), outcome), Taken(Wanted(n), outcome);
      && (outcome(Region) != 0 ==> f == Report(Region, outcome) && t == [])
      && (outcome(Region) == 0 && outcome(Class) != 0 ==> f == Report(Class, outcome) && t == [Region])
      && (outcome(Region) == 0 && outcome(Class) == 0 && outcome(Memory) != 0 ==>
            f == Report(Memory, outcome) && t == [Region, Class])
  {
    var rest := WantedHead(n);
    if outcome(Region) != 0 {
      assert Wanted(n) == [] + [Region] + ([Class, Memory] + rest);
      FailsAt([], Region, [Class, Memory] + rest, outcome);
    } else if outcome(Class) != 0 {
      assert Wanted(n) == [Region] + [Class] + ([Memory] + rest);
      FailsAt([Region], Class, [Memory] + rest, outcome);
    } else if outcome(Memory) != 0 {
      assert Wanted(n) == [Region, Class] + [Memory] + rest;
      FailsAt([Region, Class], Memory, rest, outcome);
    }
  }

  lemma {:induction false} WantedHead(n: nat) returns (rest: seq<Resource>)
    ensures Wanted(n) == [Region, Class, Memory] + rest
    decreases n
  {
    if n == 0 {
      rest := [];
    } else {
      var r := WantedHead(n - 1);
      rest := r + [Cdev(n - 1), Node(n - 1)];
      assert Wanted(n) == [Region, Class, Memory] + rest;
    }
  }

  /** What a failure at minor `i` returns and leaves to release. */
  lemma CdevFailure(i: nat, n: nat, outcome: Outcome)
    requires i < n && AllSucceed(Wanted(i), outcome) && outcome(Cdev(i)) != 0
    ensures FirstFailure(Wanted(n), outcome) == Report(Cdev(i), outcome)
    ensures Taken(Wanted(n), outcome) == Wanted(i)
  {
    var rest := WantedFrom(i, n);
    var x := Wanted(i);
    Assoc(x + [Cdev(i)], [Node(i)], rest);
    FailsAt(x, Cdev(i), [Node(i)] + rest, outcome);
  }

  lemma NodeFailure(i: nat, n: nat, outcome: Outcome)
    requires i < n && AllSucceed(Wanted(i), outcome) && outcome(Cdev(i)) == 0 && outcome(Node(i)) != 0
    ensures FirstFailure(Wanted(n), outcome) == Report(Node(i), outcome)
    ensures Taken(Wanted(n), outcome) == Wanted(i) + [Cdev(i)]
  {
    var rest := WantedFrom(i, n);
    var x := Wanted(i) + [Cdev(i)];
    FailsAt(x, Node(i), rest, outcome);
  }

  // ---------- the return value, straight from the outcomes ----------

  predicate OuterSucceed(outcome: Outcome) {
    outcome(Region) == 0 && outcome(Class) == 0 && outcome(Memory) == 0
  }

  /** The outer calls and both calls of every minor below `i` succeed. */
  predicate SucceedUpTo(i: nat, outcome: Outcome) {
    OuterSucceed(outcome) && forall m | 0 <= m < i :: outcome(Cdev(m)) == 0 && outcome(Node(m)) == 0
  }

  /** The code of whichever call fails first: the kernel's own, negated, for the number range, the class
      and a cdev, "out of memory" (12) for the array, "invalid argument" (22) for a node. */
  predicate CodeOf(n: nat, outcome: Outcome, ret: int) {
    && (ret == 0 <==> SucceedUpTo(n, outcome))
    && (outcome(Region) != 0 ==> ret == 0 - outcome(Region))
    && (outcome(Region) == 0 && outcome(Class) != 0 ==> ret == 0 - outcome(Class))
    && (outcome(Region) == 0 && outcome(Class) == 0 && outcome(Memory) != 0 ==> ret == -12)
    && forall i | 0 <= i < n && SucceedUpTo(i, outcome) ::
         && (outcome(Cdev(i)) != 0 ==> ret == 0 - outcome(Cdev(i)))
         && (outcome(Cdev(i)) == 0 && outcome(Node(i)) != 0 ==> ret == -22)
  }

  lemma {:induction false} SucceedUpToWanted(i: nat, outcome: Outcome)
    ensures SucceedUpTo(i, outcome) <==> AllSucceed(Wanted(i), outcome)
    decreases i
  {
    if i == 0 {
      assert Wanted(0)[0] == Region && Wanted(0)[1] == Class && Wanted(0)[2] == Memory;
    } else {
      var x := Wanted(i - 1);
      SucceedUpToWanted(i - 1, outcome);
      assert Wanted(i)[..|x|] == x && Wanted(i)[|x|] == Cdev(i - 1) && Wanted(i)[|x| + 1] == Node(i - 1);
      assert AllSucceed(Wanted(i), outcome) ==> AllSucceed(x, outcome) by {
        assert forall k | 0 <= k < |x| :: x[k] == Wanted(i)[k];
      }
    }
  }

  lemma {:induction false} SomethingFails(calls: seq<Resource>, outcome: Outcome)
    requires !AllSucceed(calls, outcome)
    ensures FirstFailure(calls, outcome) < 0
    decreases calls
  {
    if outcome(calls[0]) == 0 {
      SomethingFails(calls[1..], outcome);
    }
  }

  lemma FirstFailureCode(n: nat, outcome: Outcome)
    ensures CodeOf(n, outcome, FirstFailure(Wanted(n), outcome))
    ensures FirstFailure(Wanted(n), outcome) <= 0
  {
    OuterFailure(n, outcome);
    SucceedUpToWanted(n, outcome);
    if AllSucceed(Wanted(n), outcome) {
      NoneFails(Wanted(n), outcome);
    } else {
      SomethingFails(Wanted(n), outcome);
    }
    forall i | 0 <= i < n && SucceedUpTo(i, outcome)
      ensures outcome(Cdev(i)) != 0 ==> FirstFailure(Wanted(n), outcome) == 0 - outcome(Cdev(i))
      ensures outcome(Cdev(i)) == 0 && outcome(Node(i)) != 0 ==> FirstFailure(Wanted(n), outcome) == -22
    {
      SucceedUpToWanted(i, outcome);
      if outcome(Cdev(i)) != 0 {
        CdevFailure(i, n, outcome);
      } else if outcome(Node(i)) != 0 {
        NodeFailure(i, n, outcome);
      }
    }
  }

  /** Acquisitions in order. */
  function Up(rs: seq<Resource>): seq<Event>
    decreases |rs|
  {
    if rs == [] then [] else Up(rs[..|rs| - 1]) + [Acquire(rs[|rs| - 1])]
  }

  /** Releases in the opposite order. */
  function Down(rs: seq<Resource>): seq<Event>
    decreases |rs|
  {
    if rs == [] then [] else [Release(rs[|rs| - 1])] + Down(rs[..|rs| - 1])
  }

  lemma OneMore(rs: seq<Resource>, r: Resource)
    ensures Up(rs + [r]) == Up(rs) + [Acquire(r)]
    ensures Down(rs + [r]) == [Release(r)] + Down(rs)
  {
  }

  lemma TwoMore(rs: seq<Resource>, r: Resource, q: Resource)
    ensures Up(rs + [r, q]) == Up(rs) + [Acquire(r)] + [Acquire(q)]
    ensures Down(rs + [r, q]) == [Release(q)] + ([Release(r)] + Down(rs))
  {
    assert rs + [r, q] == (rs + [r]) + [q];
    OneMore(rs, r);
    OneMore(rs + [r], q);
  }

  /** The traces of the outer stages, behind any log. */
  lemma OuterTraces(log: seq<Event>)
    ensures log + Up([]) + Down([]) == log
    ensures log + Up([Region]) + Down([Region]) == log + [Acquire(Region)] + [Release(Region)]
    ensures log + Up([Region, Class]) + Down([Region, Class]) ==
            log + [Acquire(Region)] + [Acquire(Class)] + [Release(Class)] + [Release(Region)]
    ensures log + Up(Wanted(0)) == log + [Acquire(Region)] + [Acquire(Class)] + [Acquire(Memory)]
    ensures log + Down(Wanted(0)) == log + [Release(Memory)] + [Release(Class)] + [Release(Region)]
  {
  }

  lemma WantedNext(n: nat, r: Resource)
    ensures Count(Wanted(n + 1), r) ==
            Count(Wanted(n), r) + (if r == Cdev(n) then 1 else 0) + (if r == Node(n) then 1 else 0)
  {
    CountLast(Wanted(n), Cdev(n), r);
    CountLast(Wanted(n) + [Cdev(n)], Node(n), r);
    assert Wanted(n + 1) == (Wanted(n) + [Cdev(n)]) + [Node(n)];
  }

  lemma OuterCount(r: Resource)
    ensures Count(Wanted(0), r) == if r in {Region, Class, Memory} then 1 else 0
  {
    CountLast([], Region, r);
    CountLast([Region], Class, r);
    CountLast([Region, Class], Memory, r);
    assert [Region] == [] + [Region];
    assert [Region, Class] == [Region] + [Class];
    assert Wanted(0) == [Region, Class] + [Memory];
  }

  lemma {:induction false} NotYetWanted(n: nat, m: nat)
    requires m >= n
    ensures Count(Wanted(n), Cdev(m)) == 0 && Count(Wanted(n), Node(m)) == 0
    decreases n
  {
    if n == 0 {
      OuterCount(Cdev(m));
      OuterCount(Node(m));
    } else {
      NotYetWanted(n - 1, m);
      assert Wanted(n - 1 + 1) == Wanted(n);
      WantedNext(n - 1, Cdev(m));
      WantedNext(n - 1, Node(m));
    }
  }

  /** Each resource is wanted at most once. */
  lemma {:induction false} WantedOnce(n: nat, r: Resource)
    ensures Count(Wanted(n), r) <= 1
    decreases n
  {
    if n == 0 {
      OuterCount(r);
    } else {
      WantedOnce(n - 1, r);
      NotYetWanted(n - 1, n - 1);
      WantedNext(n - 1, r);
    }
  }

  lemma {:induction false} TakenAmong(calls: seq<Resource>, outcome: Outcome, r: Resource)
    ensures Count(Taken(calls, outcome), r) <= Count(calls, r)
    decreases calls
  {
    if calls != [] {
      assert calls == [calls[0]] + calls[1..];
      CountConcat([calls[0]], calls[1..], r);
      CountConcat([calls[0]], Taken(calls[1..], outcome), r);
      TakenAmong(calls[1..], outcome, r);
    }
  }

  lemma {:induction false} TraceCounts(rs: seq<Resource>, r: Resource)
    ensures Count(Up(rs), Acquire(r)) == Count(rs, r) && Count(Up(rs), Release(r)) == 0
    ensures Count(Down(rs), Release(r)) == Count(rs, r) && Count(Down(rs), Acquire(r)) == 0
    decreases |rs|
  {
    if rs != [] {
      var init, last := rs[..|rs| - 1], rs[|rs| - 1];
      TraceCounts(init, r);
      CountLast(Up(init), Acquire(last), Acquire(r));
      CountLast(Up(init), Acquire(last), Release(r));
      CountConcat([Release(last)], Down(init), Release(r));
      CountConcat([Release(last)], Down(init), Acquire(r));
      CountLast([], Release(last), Release(r));
      CountLast([], Release(last), Acquire(r));
      assert [] + [Release(last)] == [Release(last)];
    }
  }

  lemma {:induction false} CountedIsMember<T>(s: seq<T>, x: T)
    ensures x in s <==> Count(s, x) > 0
    decreases |s|
  {
    if s != [] {
      assert s == s[..|s| - 1] + [s[|s| - 1]];
      CountedIsMember(s[..|s| - 1], x);
    }
  }

  /** The trace of a failed load acquires no resource twice and releases exactly what it acquired. */
  lemma FailedLoadReleasesOnce(n: nat, outcome: Outcome, r: Resource)
    ensures var taken := Taken(Wanted(n), outcome);
      var trace := Up(taken) + Down(taken);
      Count(trace, Acquire(r)) == Count(trace, Release(r)) == (if r in taken then 1 else 0)
  {
    var taken := Taken(Wanted(n), outcome);
    WantedOnce(n, r);
    TakenAmong(Wanted(n), outcome, r);
    TraceCounts(taken, r);
    CountConcat(Up(taken), Down(taken), Acquire(r));
    CountConcat(Up(taken), Down(taken), Release(r));
    CountedIsMember(taken, r);
  }

  /** Everything alive when `i` minors are set up. */
  function Everything(i: nat): set<Resource> {
    {Region, Class, Memory} + (set m | 0 <= m < i :: Cdev(m)) + (set m | 0 <= m < i :: Node(m))
  }

  function MinorsFrom(i: nat, n: nat): set<Resource> {
    {Region, Class, Memory} + (set m | i <= m < n :: Cdev(m)) + (set m | i <= m < n :: Node(m))
  }

  lemma MinorComesAndGoes(i: nat)
    ensures var cdev := Everything(i) + {Cdev(i)};
      && Allowed(Everything(i), Acquire(Cdev(i)))
      && Allowed(cdev, Acquire(Node(i)))
      && Allowed(cdev, Release(Cdev(i)))
      && cdev - {Cdev(i)} == Everything(i)
      && cdev + {Node(i)} == Everything(i + 1)
      && Allowed(Everything(i + 1), Release(Node(i)))
      && Everything(i + 1) - {Node(i)} == cdev
  {
  }

  lemma OuterComesAndGoes()
    ensures Allowed({}, Acquire(Region)) && {} + {Region} == {Region}
    ensures Allowed({Region}, Acquire(Class)) && {Region} + {Class} == {Region, Class}
    ensures Allowed({Region, Class}, Acquire(Memory)) && {Region, Class} + {Memory} == OUTER == Everything(0)
    ensures Allowed(OUTER, Release(Memory)) && OUTER - {Memory} == {Region, Class}
    ensures Allowed({Region, Class}, Release(Class)) && {Region, Class} - {Class} == {Region}
    ensures Allowed({Region}, Release(Region)) && {Region} - {Region} == {}
  {
  }

  lemma FirstMinorGoes(i: nat, n: nat)
    requires i < n
    ensures var cdev := MinorsFrom(i, n) - {Node(i)};
      && Allowed(MinorsFrom(i, n), Release(Node(i)))
      && Allowed(cdev, Release(Cdev(i)))
      && cdev - {Cdev(i)} == MinorsFrom(i + 1, n)
  {
  }

  lemma Regroup<T>(a: seq<T>, x: seq<T>, y: seq<T>, d: seq<T>)
    ensures a + x + y + d == a + (x + (y + d)) == (a + x) + (y + d)
  {
  }

  /** One turn of the cleanup loop moves the minor's releases from what is to come to what is done. */
  lemma CleanupTurn(log: seq<Event>, i: nat)
    ensures log + [Release(Node(i))] + [Release(Cdev(i))] + Down(Wanted(i)) == log + Down(Wanted(i + 1))
  {
    TwoMore(Wanted(i), Cdev(i), Node(i));
    Regroup(log, [Release(Node(i))], [Release(Cdev(i))], Down(Wanted(i)));
  }

  lemma SetUpTurn(base: seq<Event>, log: seq<Event>, i: nat, outcome: Outcome)
    requires AllSucceed(Wanted(i), outcome) && outcome(Cdev(i)) == outcome(Node(i)) == 0
    requires log == base + Up(Wanted(i)) + [Acquire(Cdev(i))] + [Acquire(Node(i))]
    ensures AllSucceed(Wanted(i + 1), outcome) && log == base + Up(Wanted(i + 1))
  {
    TwoMore(Wanted(i), Cdev(i), Node(i));
    Regroup(base, Up(Wanted(i)), [Acquire(Cdev(i))], [Acquire(Node(i))]);
  }

  /** After a failing node has taken its cdev with it, what is left to release completes the trace. */
  lemma NodeFailureTrace(base: seq<Event>, i: nat)
    ensures var taken := Wanted(i) + [Cdev(i)];
      base + Up(Wanted(i)) + [Acquire(Cdev(i))] + [Release(Cdev(i))] + Down(Wanted(i))
      == base + Up(taken) + Down(taken)
  {
  }

  /** What the device loop leaves when minor `i` fails: the right return value, and a log that the
      cleanup loop and the outer stages complete to the mirror of what was taken. */
  lemma MinorFails(base: seq<Event>, log: seq<Event>, i: nat, n: nat, outcome: Outcome)
    requires i < n && AllSucceed(Wanted(i), outcome)
    requires if outcome(Cdev(i)) != 0 then log == base + Up(Wanted(i))
             else outcome(Node(i)) != 0
                  && log == base + Up(Wanted(i)) + [Acquire(Cdev(i))] + [Release(Cdev(i))]
    ensures FirstFailure(Wanted(n), outcome) ==
            Report(if outcome(Cdev(i)) != 0 then Cdev(i) else Node(i), outcome)
    ensures var taken := Taken(Wanted(n), outcome);
      log + Down(Wanted(i)) == base + Up(taken) + Down(taken)
  {
    if outcome(Cdev(i)) != 0 {
      CdevFailure(i, n, outcome);
    } else {
      NodeFailure(i, n, outcome);
      NodeFailureTrace(base, i);
    }
  }

  /** The releases of the first `n` minors, each node before its cdev. */
  function Unloading(n: nat): seq<Event> {
    if n == 0 then [] else Unloading(n - 1) + [Release(Node(n - 1)), Release(Cdev(n - 1))]
  }

  lemma AllMinors(n: nat)
    ensures MinorsFrom(0, n) == Everything(n) && MinorsFrom(n, n) == OUTER
  {
  }

  lemma UnloadTurn(base: seq<Event>, i: nat)
    ensures base + Unloading(i) + [Release(Node(i))] + [Release(Cdev(i))] == base + Unloading(i + 1)
  {
  }

  lemma UnloadEnd(log: seq<Event>)
    ensures log + [Release(Memory)] + [Release(Class)] + [Release(Region)] ==
            log + [Release(Memory), Release(Class), Release(Region)]
  {
  }

  const OUTER: set<Resource> := {Region, Class, Memory}

  /** The kernel's books: what has been acquired and released, and what is alive. */
  class Kernel {
    ghost var log: seq<Event>
    ghost var alive: set<Resource>

    ghost predicate Valid()
      reads this
    {
      Disciplined(log) && Alive(log) == alive
    }

    constructor ()
      ensures Valid() && log == [] && alive == {}
    {
      log, alive := [], {};
    }

    method Take(r: Resource)
      requires Valid() && Allowed(alive, Acquire(r))
      modifies this
      ensures Valid() && log == old(log) + [Acquire(r)] && alive == old(alive) + {r}
    {
      log, alive := log + [Acquire(r)], alive + {r};
    }

    method Drop(r: Resource)
      requires Valid() && Allowed(alive, Release(r))
      modifies this
      ensures Valid() && log == old(log) + [Release(r)] && alive == old(alive) - {r}
    {
      log, alive := log + [Release(r)], alive - {r};
    }

    /** The cleanup loop: minors below `count` go, the last one first. */
    method CleanupDevices(count: nat)
      requires Valid() && alive == Everything(count)
      modifies this
      ensures Valid() && alive == OUTER
      ensures log + Down(Wanted(0)) == old(log) + Down(Wanted(count))
    {
      var i := count;
      while i > 0
        invariant Valid() && alive == Everything(i)
        invariant log + Down(Wanted(i)) == old(log) + Down(Wanted(count))
      {
        i := i - 1;
        MinorComesAndGoes(i);
        CleanupTurn(log, i);
        Drop(Node(i));
        Drop(Cdev(i));
      }
      OuterComesAndGoes();
    }

    /** One minor: its cdev, then its node; a failed node takes the cdev with it. */
    method SetUpMinor(i: nat, outcome: Outcome) returns (ret: int)
      requires Valid() && alive == Everything(i)
      modifies this
      ensures Valid() && alive == Everything(if ret == 0 then i + 1 else i)
      ensures ret == if outcome(Cdev(i)) != 0 then Report(Cdev(i), outcome)
                     else if outcome(Node(i)) != 0 then Report(Node(i), outcome) else 0
      ensures ret == 0 ==> outcome(Cdev(i)) == outcome(Node(i)) == 0
      ensures ret == 0 ==> log == old(log) + [Acquire(Cdev(i))] + [Acquire(Node(i))]
      ensures ret != 0 ==>
                log == if outcome(Cdev(i)) != 0 then old(log)
                       else old(log) + [Acquire(Cdev(i))] + [Release(Cdev(i))]
    {
      MinorComesAndGoes(i);
      if outcome(Cdev(i)) != 0 {
        return 0 - outcome(Cdev(i));
      }
      Take(Cdev(i));
      if outcome(Node(i)) != 0 {
        Drop(Cdev(i));
        return -EINVAL;
      }
      Take(Node(i));
      ret := 0;
    }

    /** The device loop and, after a failure in it, the cleanup loop. */
    method SetUpMinors(n: nat, outcome: Outcome, ghost base: seq<Event>) returns (ret: int)
      requires Valid() && alive == OUTER && log == base + Up(Wanted(0))
      requires AllSucceed(Wanted(0), outcome)
      modifies this
      ensures Valid() && alive == if ret == 0 then Everything(n) else OUTER
      ensures ret == FirstFailure(Wanted(n), outcome)
      ensures ret == 0 ==> log == base + Up(Wanted(n))
      ensures ret != 0 ==>
                var taken := Taken(Wanted(n), outcome);
                log + Down(Wanted(0)) == base + Up(taken) + Down(taken)
    {
      OuterComesAndGoes();
      var i := 0;
      while i < n
        invariant i <= n
        invariant Valid() && alive == Everything(i)
        invariant AllSucceed(Wanted(i), outcome)
        invariant log == base + Up(Wanted(i))
      {
        ret := SetUpMinor(i, outcome);
        if ret != 0 {
          MinorFails(base, log, i, n, outcome);
          CleanupDevices(i);
          return;
        }
        SetUpTurn(base, log, i, outcome);
        i := i + 1;
      }
      NoneFails(Wanted(n), outcome);
      ret := 0;
    }

    /** Loading the driver for `n` minors. The return value is the first failure's; a failed load
        has released exactly what it had acquired, in the opposite order; a successful one holds
        everything; no step breaks the kernel's rules. */
    method MultiCharInit(n: nat, outcome: Outcome) returns (ret: int)
      requires Valid() && alive == {}
      modifies this
      ensures Valid() && alive == if ret == 0 then Everything(n) else {}
      ensures ret == FirstFailure(Wanted(n), outcome) <= 0 && CodeOf(n, outcome, ret)
      ensures ret == 0 ==> log == old(log) + Up(Wanted(n))
      ensures ret != 0 ==>
                var taken := Taken(Wanted(n), outcome);
                log == old(log) + Up(taken) + Down(taken)
    {
      FirstFailureCode(n, outcome);
      OuterFailure(n, outcome);
      OuterTraces(log);
      OuterComesAndGoes();
      ghost var base := log;
      if outcome(Region) != 0 {
        return 0 - outcome(Region);
      }
      Take(Region);
      if outcome(Class) != 0 {
        ret := 0 - outcome(Class);
      } else {
        Take(Class);
        if outcome(Memory) != 0 {
          ret := -ENOMEM;
        } else {
          Take(Memory);
          ret := SetUpMinors(n, outcome, base);
          if ret == 0 {
            return;
          }
          OuterTraces(log);
          Drop(Memory);
        }
        Drop(Class);
      }
      Drop(Region);
    }

    /** Unloading: every minor, first one first, then the outer stages. */
    method MultiCharExit(n: nat)
      requires Valid() && alive == Everything(n)
      modifies this
      ensures Valid() && alive == {}
      ensures log == old(log) + Unloading(n) + [Release(Memory), Release(Class), Release(Region)]
    {
      AllMinors(n);
      ghost var base := log;
      var i := 0;
      while i < n
        invariant i <= n && Valid() && alive == MinorsFrom(i, n)
        invariant log == base + Unloading(i)
      {
        FirstMinorGoes(i, n);
        UnloadTurn(base, i);
        Drop(Node(i));
        Drop(Cdev(i));
        i := i + 1;
      }
      OuterComesAndGoes();
      UnloadEnd(log);
      Drop(Memory);
      Drop(Class);
      Drop(Region);
    }
  }
}
