/**
 The test clock (`TestClock` in src/clock.ts): a discrete-event scheduler whose time moves only through
 `setTime()` and `tick()`. A timer is a value that carries its handle, which every re-arming keeps.
 */
module TestClock {
  import opened Arithmetic
  import opened Options

  datatype Timer = Timer(handle: nat, due: int, order: nat, interval: Option<int>)

  /** A timer that was fired: when it was due, and the time then. */
  datatype Firing = Firing(handle: nat, order: nat, due: int, at: int)

  /** What a callback, or the work it woke, may do before the tick goes on. */
  datatype Op = SetTimeout(ms: int) | SetInterval(ms: int) | Clear(handle: nat)

  datatype Clock = Clock(now: int, timers: seq<Timer>, nextOrder: nat)

  // ---- Keeping the timers sorted ---------------------------------------------------------------

  /**
   Of two timers, the one that comes first is not due later, and if both are due at the same time and no
   jump has moved either, it is the one that was scheduled first.
   */
  ghost predicate Before(a: Timer, b: Timer, moved: set<nat>)
  {
    a.handle != b.handle && a.due <= b.due && (a.due == b.due && a.order !in moved && b.order !in moved ==>
        a.order < b.order)
  }

  ghost predicate InOrder(timers: seq<Timer>, moved: set<nat>)
  {
    forall i, j | 0 <= i < j < |timers| :: Before(timers[i], timers[j], moved)
  }

  ghost predicate TimerOk(c: Clock, t: Timer)
  {
    t.due >= c.now && t.order < c.nextOrder && t.handle < c.nextOrder && (t.interval.Some? ==> t.interval.value >= 1)
  }

  /** Every reachable state: no timer is due before now, although nothing but a tick fires one. */
  ghost predicate Inv(c: Clock, moved: set<nat>)
  {
    && InOrder(c.timers, moved)
    && (forall t | t in c.timers :: TimerOk(c, t))
    && (forall order | order in moved :: order < c.nextOrder)
  }

  predicate GoesAfter(t: Timer, previous: Timer)
  {
    previous.due < t.due || (previous.due == t.due && previous.order <= t.order)
  }

  /** `#insert`: back from the end, past every timer that is due later or was scheduled later. */
  function Inserted(timers: seq<Timer>, t: Timer): seq<Timer>
  {
    if timers == [] || GoesAfter(t, timers[|timers| - 1]) then timers + [t]
    else Inserted(timers[..|timers| - 1], t) + [timers[|timers| - 1]]
  }

  /** Where a timer goes that was scheduled last: after everything due by then, before everything due later. */
  lemma {:induction false} InsertedAt(timers: seq<Timer>, t: Timer, moved: set<nat>) returns (k: nat)
    requires InOrder(timers, moved) && forall x | x in timers :: x.order < t.order
    ensures k <= |timers| && Inserted(timers, t) == timers[..k] + [t] + timers[k..]
    ensures forall i | 0 <= i < |timers| :: timers[i].due <= t.due <==> i < k
  {
    var n := |timers| - 1;
    if timers == [] || GoesAfter(t, timers[n]) {
      k := n + 1;
      LastIsLatest(timers, moved);
      assert timers[..k] + [t] + timers[k..] == timers + [t];
    } else {
      k := InsertedAt(timers[..n], t, moved);
      InsertedBeforeLast(timers, t, k);
    }
  }

  lemma LastIsLatest(timers: seq<Timer>, moved: set<nat>)
    requires InOrder(timers, moved)
    ensures forall i | 0 <= i < |timers| :: timers[i].due <= timers[|timers| - 1].due
  {
    forall i | 0 <= i < |timers| - 1 ensures timers[i].due <= timers[|timers| - 1].due {
      assert Before(timers[i], timers[|timers| - 1], moved);
    }
  }

  lemma InsertedBeforeLast(timers: seq<Timer>, t: Timer, k: nat)
    requires timers != [] && k < |timers|
    ensures var rest, last := timers[..|timers| - 1], timers[|timers| - 1];
      rest[..k] + [t] + rest[k..] + [last] == timers[..k] + [t] + timers[k..]
  {
    var rest, last := timers[..|timers| - 1], timers[|timers| - 1];
    assert rest[..k] == timers[..k] && rest[k..] + [last] == timers[k..];
    assert rest[..k] + [t] + rest[k..] + [last] == rest[..k] + [t] + (rest[k..] + [last]);
  }

  ghost predicate AllBefore(a: seq<Timer>, b: seq<Timer>, moved: set<nat>)
  {
    forall x, y | x in a && y in b :: Before(x, y, moved)
  }

  lemma Joined(a: seq<Timer>, b: seq<Timer>, moved: set<nat>)
    requires InOrder(a, moved) && InOrder(b, moved) && AllBefore(a, b, moved)
    ensures InOrder(a + b, moved)
  {
    forall i, j | 0 <= i < j < |a + b| ensures Before((a + b)[i], (a + b)[j], moved) {
      if i < |a| <= j {
        assert a[i] in a && b[j - |a|] in b;
      }
    }
  }

  lemma Parted(a: seq<Timer>, b: seq<Timer>, moved: set<nat>)
    requires InOrder(a + b, moved)
    ensures InOrder(a, moved) && InOrder(b, moved) && AllBefore(a, b, moved)
  {
    var both := a + b;
    assert forall i | 0 <= i < |a| :: a[i] == both[i];
    assert forall i | 0 <= i < |b| :: b[i] == both[i + |a|];
  }

  lemma InsertKeeps(timers: seq<Timer>, t: Timer, moved: set<nat>)
    requires InOrder(timers, moved) && forall x | x in timers :: x.order < t.order && x.handle != t.handle
    ensures InOrder(Inserted(timers, t), moved)
    ensures forall x :: x in Inserted(timers, t) <==> x == t || x in timers
  {
    var k := InsertedAt(timers, t, moved);
    InsertedHolds(timers, t, k);
    InsertedInOrder(timers, t, moved, k);
  }

  lemma InsertedHolds(timers: seq<Timer>, t: Timer, k: nat)
    requires k <= |timers|
    ensures forall x :: x in timers[..k] + [t] + timers[k..] <==> x == t || x in timers
  {
    assert timers == timers[..k] + timers[k..];
  }

  lemma InsertedInOrder(timers: seq<Timer>, t: Timer, moved: set<nat>, k: nat)
    requires InOrder(timers, moved) && k <= |timers|
    requires forall x | x in timers :: x.order < t.order && x.handle != t.handle
    requires forall i | 0 <= i < |timers| :: timers[i].due <= t.due <==> i < k
    ensures InOrder(timers[..k] + [t] + timers[k..], moved)
  {
    var a, b := timers[..k], timers[k..];
    assert timers == a + b;
    Parted(a, b, moved);
    assert AllBefore(a, [t], moved) && AllBefore([t], b, moved);
    Joined(a, [t], moved);
    Joined(a + [t], b, moved);
  }

  // ---- The operations on values ----------------------------------------------------------------

  function Arm(c: Clock, ms: int, interval: Option<int>): Clock
  {
    c.(timers := Inserted(c.timers, Timer(c.nextOrder, c.now + Max(ms, 0), c.nextOrder, interval)),
        nextOrder := c.nextOrder + 1)
  }

  function Without(timers: seq<Timer>, handle: nat): seq<Timer>
  {
    if timers == [] then []
    else if timers[0].handle == handle then timers[1..]
    else [timers[0]] + Without(timers[1..], handle)
  }

  function Do(c: Clock, op: Op): Clock
  {
    match op
    case SetTimeout(ms) => Arm(c, ms, None)
    case SetInterval(ms) => Arm(c, ms, Some(Max(ms, 1)))
    case Clear(handle) => c.(timers := Without(c.timers, handle))
  }

  function Again(t: Timer, order: nat): Timer
    requires t.interval.Some?
  {
    t.(due := t.due + t.interval.value, order := order)
  }

  /** The first timer fires at its own due time, and an interval is armed again from there. */
  function Fire(c: Clock): Clock
    requires c.timers != []
  {
    var t, now := c.timers[0], Max(c.now, c.timers[0].due);
    if t.interval == None then Clock(now, c.timers[1..], c.nextOrder)
    else Clock(now, Inserted(c.timers[1..], Again(t, c.nextOrder)), c.nextOrder + 1)
  }

  /** A jump: the timers it passes become due then, in the order they were in. */
  function Jump(c: Clock, next: int): Clock
  {
    c.(now := next, timers := seq(|c.timers|, i requires 0 <= i < |c.timers| => Redated(c.timers[i], next)))
  }

  function Redated(t: Timer, next: int): Timer
  {
    if t.due < next then t.(due := next) else t
  }

  /** The timers a jump has moved, by their order: an interval that has fired since has a new one. */
  ghost function MovedBy(c: Clock, next: int): set<nat>
  {
    set i | 0 <= i < |c.timers| && c.timers[i].due < next :: c.timers[i].order
  }

  lemma {:induction false} WithoutAt(timers: seq<Timer>, handle: nat) returns (k: nat)
    ensures (k < |timers| && Without(timers, handle) == timers[..k] + timers[k + 1..] && timers[k].handle == handle)
         || (k == |timers| && Without(timers, handle) == timers && forall i | 0 <= i < |timers| ::
             timers[i].handle != handle)
  {
    if timers == [] || timers[0].handle == handle {
      k := 0;
    } else {
      var r := WithoutAt(timers[1..], handle);
      k := r + 1;
    }
  }

  /** Any timer can be taken out, and the others stay in order. */
  lemma CutKeeps(a: seq<Timer>, t: Timer, b: seq<Timer>, moved: set<nat>)
    requires InOrder(a + ([t] + b), moved)
    ensures InOrder(a + b, moved)
  {
    Parted(a, [t] + b, moved);
    Parted([t], b, moved);
    forall x, y | x in a && y in b ensures Before(x, y, moved) && x.handle != y.handle {
      assert y in [t] + b;
    }
    Joined(a, b, moved);
  }

  lemma RemovedKeeps(timers: seq<Timer>, k: nat, moved: set<nat>)
    requires InOrder(timers, moved) && k < |timers|
    ensures InOrder(timers[..k] + timers[k + 1..], moved)
  {
    assert timers == timers[..k] + ([timers[k]] + timers[k + 1..]);
    CutKeeps(timers[..k], timers[k], timers[k + 1..], moved);
  }

  lemma OthersLeft(timers: seq<Timer>, k: nat, handle: nat, moved: set<nat>)
    requires InOrder(timers, moved) && k < |timers| && timers[k].handle == handle
    ensures forall x :: x in timers[..k] + timers[k + 1..] <==> x in timers && x.handle != handle
  {
    forall x ensures x in timers[..k] + timers[k + 1..] <==> x in timers && x.handle != handle {
      if i :| 0 <= i < |timers| && timers[i] == x && x.handle != handle {
        assert i < k ==> timers[..k][i] == x;
        assert i > k ==> timers[k + 1..][i - k - 1] == x;
      }
    }
  }

  /** Clearing takes out the one timer of that handle, if there is one, and keeps the others in order. */
  lemma WithoutKeeps(timers: seq<Timer>, handle: nat, moved: set<nat>)
    requires InOrder(timers, moved)
    ensures InOrder(Without(timers, handle), moved)
    ensures forall x :: x in Without(timers, handle) <==> x in timers && x.handle != handle
  {
    var k := WithoutAt(timers, handle);
    if k < |timers| {
      RemovedKeeps(timers, k, moved);
      OthersLeft(timers, k, handle, moved);
    }
  }

  lemma ArmKeeps(c: Clock, ms: int, interval: Option<int>, moved: set<nat>)
    requires Inv(c, moved) && (interval.Some? ==> interval.value >= 1)
    ensures Inv(Arm(c, ms, interval), moved)
  {
    InsertKeeps(c.timers, Timer(c.nextOrder, c.now + Max(ms, 0), c.nextOrder, interval), moved);
  }

  lemma DoKeeps(c: Clock, op: Op, moved: set<nat>)
    requires Inv(c, moved)
    ensures Inv(Do(c, op), moved)
  {
    match op
    case SetTimeout(ms) => ArmKeeps(c, ms, None, moved);
    case SetInterval(ms) => ArmKeeps(c, ms, Some(Max(ms, 1)), moved);
    case Clear(handle) => WithoutKeeps(c.timers, handle, moved);
  }

  lemma FireKeeps(c: Clock, moved: set<nat>)
    requires Inv(c, moved) && c.timers != []
    ensures Inv(Fire(c), moved) && Fire(c).now == c.timers[0].due && Fire(c).nextOrder >= c.nextOrder
  {
    var t, rest := c.timers[0], c.timers[1..];
    assert TimerOk(c, t);
    assert InOrder(rest, moved);
    forall x | x in rest ensures x in c.timers && Before(t, x, moved) && TimerOk(c, x) {
      var i :| 0 <= i < |rest| && rest[i] == x;
      assert c.timers[i + 1] == x;
    }
    if t.interval.Some? {
      InsertKeeps(rest, Again(t, c.nextOrder), moved);
    }
  }

  lemma JumpKeeps(c: Clock, next: int, moved: set<nat>)
    requires Inv(c, moved)
    ensures Inv(Jump(c, next), moved + MovedBy(c, next))
  {
    var d, moved' := Jump(c, next), moved + MovedBy(c, next);
    forall i, j | 0 <= i < j < |d.timers| ensures Before(d.timers[i], d.timers[j], moved') {
      assert Before(c.timers[i], c.timers[j], moved);
    }
    forall t | t in d.timers ensures TimerOk(d, t) {
      var i :| 0 <= i < |d.timers| && d.timers[i] == t;
      assert TimerOk(c, c.timers[i]);
    }
    assert forall i | 0 <= i < |c.timers| :: TimerOk(c, c.timers[i]);
  }

  // ---- What a tick fires -----------------------------------------------------------------------

  /** The times a timer is due until `target`, if nothing clears it. */
  function Schedule(t: Timer, target: int): seq<int>
    requires t.interval.Some? ==> t.interval.value >= 1
    decreases if t.due > target then 0 else target - t.due + 1
  {
    if t.due > target then []
    else if t.interval == None then [t.due]
    else [t.due] + Schedule(t.(due := t.due + t.interval.value), target)
  }

  /** An interval is due exactly floor((target - due) / period) + 1 times, one period apart. */
  lemma ScheduleOfInterval(t: Timer, target: int, i: nat)
    requires t.interval.Some? && t.interval.value >= 1 && t.due <= target
    ensures |Schedule(t, target)| == (target - t.due) / t.interval.value + 1
    ensures i < |Schedule(t, target)| ==> Schedule(t, target)[i] == t.due + i * t.interval.value
  {
    ScheduleSteps(t, target, i);
    FloorIs(target - t.due, t.interval.value, |Schedule(t, target)| - 1);
  }

  lemma {:induction false} ScheduleSteps(t: Timer, target: int, i: nat)
    requires t.interval.Some? && t.interval.value >= 1 && t.due <= target
    ensures var n, p := |Schedule(t, target)|, t.interval.value; n >= 1 && (n - 1) * p <= target - t.due < n * p
    ensures i < |Schedule(t, target)| ==> Schedule(t, target)[i] == t.due + i * t.interval.value
    decreases target - t.due
  {
    var p := t.interval.value;
    var next := t.(due := t.due + p);
    if next.due <= target {
      ScheduleSteps(next, target, if i == 0 then 0 else i - 1);
      var n := |Schedule(next, target)|;
      assert (n - 1) * p + p == n * p && n * p + p == (n + 1) * p;
    }
    if i > 0 {
      assert (i - 1) * p + p == i * p;
    }
  }

  lemma MulMonotone(a: int, b: int, p: int)
    requires a <= b && p >= 0
    ensures a * p <= b * p
  {
  }

  lemma FloorIs(d: int, p: int, n: int)
    requires p >= 1 && n * p <= d < (n + 1) * p
    ensures d / p == n
  {
    var q := d / p;
    assert q * p <= d < (q + 1) * p;
    if q < n {
      MulMonotone(q + 1, n, p);
    } else if q > n {
      MulMonotone(n + 1, q, p);
    }
  }

  /** When a handle was fired. */
  function FiringsOf(log: seq<Firing>, handle: nat): seq<int>
  {
    if log == [] then []
    else FiringsOf(log[..|log| - 1], handle) + if log[|log| - 1].handle == handle then [log[|log| - 1].at] else []
  }

  ghost predicate Periodic(timers: seq<Timer>)
  {
    forall t | t in timers :: t.interval.Some? ==> t.interval.value >= 1
  }

  /** When a handle's timer, if there is one, is due until `target`. */
  ghost function DueUntil(timers: seq<Timer>, handle: nat, target: int): seq<int>
    requires Periodic(timers)
  {
    if timers == [] then [] else if timers[0].handle == handle then Schedule(timers[0], target)
        else DueUntil(timers[1..], handle, target)
  }

  ghost function Work(timers: seq<Timer>, target: int): nat
    requires Periodic(timers)
  {
    if timers == [] then 0 else |Schedule(timers[0], target)| + Work(timers[1..], target)
  }

  lemma {:induction false} DueUntilOf(timers: seq<Timer>, t: Timer, target: int, moved: set<nat>)
    requires Periodic(timers) && InOrder(timers, moved) && t in timers
    ensures DueUntil(timers, t.handle, target) == Schedule(t, target)
  {
    var i :| 0 <= i < |timers| && timers[i] == t;
    if i > 0 {
      assert Before(timers[0], timers[i], moved);
      assert timers[1..][i - 1] == t;
      DueUntilOf(timers[1..], t, target, moved);
    }
  }

  lemma {:induction false} DueUntilNone(timers: seq<Timer>, handle: nat, target: int)
    requires Periodic(timers) && forall t | t in timers :: t.handle != handle
    ensures DueUntil(timers, handle, target) == []
  {
    if timers != [] {
      DueUntilNone(timers[1..], handle, target);
    }
  }

  lemma {:induction false} WorkOfTwo(a: seq<Timer>, b: seq<Timer>, target: int)
    requires Periodic(a) && Periodic(b)
    ensures Work(a + b, target) == Work(a, target) + Work(b, target)
  {
    if a == [] {
      assert a + b == b;
    } else {
      assert (a + b)[1..] == a[1..] + b;
      WorkOfTwo(a[1..], b, target);
    }
  }

  lemma WorkInserted(timers: seq<Timer>, t: Timer, target: int, moved: set<nat>)
    requires InOrder(timers, moved) && forall x | x in timers :: x.order < t.order
    requires Periodic(timers) && Periodic([t])
    ensures Periodic(Inserted(timers, t)) && Work(Inserted(timers, t), target) == Work(timers, target)
        + |Schedule(t, target)|
  {
    var k := InsertedAt(timers, t, moved);
    assert timers == timers[..k] + timers[k..];
    WorkOfTwo(timers[..k], timers[k..], target);
    WorkOfTwo(timers[..k] + [t], timers[k..], target);
    WorkOfTwo(timers[..k], [t], target);
  }

  lemma InvPeriodic(c: Clock, moved: set<nat>)
    requires Inv(c, moved)
    ensures Periodic(c.timers)
  {
    forall t | t in c.timers ensures t.interval.Some? ==> t.interval.value >= 1 {
      assert TimerOk(c, t);
    }
  }

  lemma RestOf(c: Clock, moved: set<nat>)
    requires Inv(c, moved) && c.timers != []
    ensures InOrder(c.timers[1..], moved) && Periodic(c.timers[1..]) && Periodic([c.timers[0]])
    ensures forall x | x in c.timers[1..] :: x.handle != c.timers[0].handle && x.order < c.nextOrder
    ensures c.timers[0].order < c.nextOrder
  {
    var t, rest := c.timers[0], c.timers[1..];
    assert TimerOk(c, t);
    forall x | x in rest ensures x.handle != t.handle && x in c.timers && TimerOk(c, x) {
      var i :| 0 <= i < |rest| && rest[i] == x;
      assert Before(t, c.timers[i + 1], moved);
    }
  }

  lemma ScheduleAgain(t: Timer, order: nat, target: int)
    requires Periodic([t]) && t.due <= target
    ensures Schedule(t, target) == [t.due] + (if t.interval.Some? then Schedule(Again(t, order), target) else [])
  {
    assert t in [t];
    if t.interval.Some? {
      var next := t.(due := t.due + t.interval.value);
      assert Periodic([next]);
      ScheduleIgnoresOrder(next, Again(t, order), target);
    }
  }

  lemma FireWorks(c: Clock, target: int, moved: set<nat>)
    requires Inv(c, moved) && c.timers != [] && c.timers[0].due <= target
    ensures Periodic(c.timers) && Periodic(Fire(c).timers)
    ensures Work(Fire(c).timers, target) + 1 == Work(c.timers, target)
  {
    FireKeeps(c, moved);
    InvPeriodic(c, moved);
    InvPeriodic(Fire(c), moved);
    RestOf(c, moved);
    ScheduleAgain(c.timers[0], c.nextOrder, target);
    if c.timers[0].interval.Some? {
      WorkInserted(c.timers[1..], Again(c.timers[0], c.nextOrder), target, moved);
    }
  }

  /** Firing takes one due time off the first timer's schedule, and changes no other timer's. */
  lemma FireOnSchedule(c: Clock, target: int, moved: set<nat>, handle: nat)
    requires Inv(c, moved) && c.timers != [] && c.timers[0].due <= target
    ensures Periodic(c.timers) && Periodic(Fire(c).timers)
    ensures DueUntil(c.timers, handle, target) ==
      (if handle == c.timers[0].handle then [c.timers[0].due] else []) + DueUntil(Fire(c).timers, handle, target)
  {
    FireKeeps(c, moved);
    InvPeriodic(c, moved);
    InvPeriodic(Fire(c), moved);
    RestOf(c, moved);
    var t, rest := c.timers[0], c.timers[1..];
    ScheduleAgain(t, c.nextOrder, target);
    DueUntilNone(rest, t.handle, target);
    if t.interval.Some? {
      InsertKeeps(rest, Again(t, c.nextOrder), moved);
      SameDueUntil(rest, Fire(c).timers, Again(t, c.nextOrder), handle, target, moved);
    }
  }

  lemma {:induction false} ScheduleIgnoresOrder(t: Timer, u: Timer, target: int)
    requires Periodic([t]) && u == t.(order := u.order)
    ensures Schedule(t, target) == Schedule(u, target)
    decreases if t.due > target then 0 else target - t.due + 1
  {
    assert t in [t];
    if t.due <= target && t.interval.Some? {
      ScheduleIgnoresOrder(t.(due := t.due + t.interval.value), u.(due := u.due + u.interval.value), target);
    }
  }

  /** Adding a timer of a new handle adds its schedule and changes no other. */
  lemma SameDueUntil(timers: seq<Timer>, after: seq<Timer>, t: Timer, handle: nat, target: int,
      moved: set<nat>)
    requires Periodic(timers) && Periodic(after) && InOrder(timers, moved) && InOrder(after, moved)
    requires (forall x :: x in after <==> x == t || x in timers) && forall x | x in timers :: x.handle != t.handle
    ensures DueUntil(after, handle, target) == if handle == t.handle then Schedule(t, target)
        else DueUntil(timers, handle, target)
  {
    if handle == t.handle {
      DueUntilOf(after, t, target, moved);
    } else if x :| x in timers && x.handle == handle {
      DueUntilOf(timers, x, target, moved);
      DueUntilOf(after, x, target, moved);
    } else {
      DueUntilNone(timers, handle, target);
      DueUntilNone(after, handle, target);
    }
  }

  /** A timer armed now is on top of what was due: its own schedule, and no other handle's has changed. */
  lemma ArmedDue(c: Clock, ms: int, interval: Option<int>, target: int, moved: set<nat>, handle: nat)
    requires Inv(c, moved) && (interval.Some? ==> interval.value >= 1)
    ensures Periodic(c.timers) && Periodic(Arm(c, ms, interval).timers)
    ensures DueUntil(Arm(c, ms, interval).timers, handle, target) ==
        if handle == c.nextOrder then Schedule(Timer(c.nextOrder, c.now + Max(ms, 0), c.nextOrder, interval), target)
        else DueUntil(c.timers, handle, target)
  {
    var t := Timer(c.nextOrder, c.now + Max(ms, 0), c.nextOrder, interval);
    ArmKeeps(c, ms, interval, moved);
    InvPeriodic(c, moved);
    InvPeriodic(Arm(c, ms, interval), moved);
    forall x | x in c.timers ensures x.order < t.order && x.handle != t.handle {
      assert TimerOk(c, x);
    }
    InsertKeeps(c.timers, t, moved);
    SameDueUntil(c.timers, Inserted(c.timers, t), t, handle, target, moved);
  }

  /** `setTimeout` is due once, after its delay, or at once if that is negative. */
  lemma TimeoutDue(c: Clock, ms: int, target: int, moved: set<nat>, handle: nat)
    requires Inv(c, moved)
    ensures var timers := Do(c, SetTimeout(ms)).timers; var due := if ms < 0 then c.now else c.now + ms;
      && Periodic(c.timers) && Periodic(timers)
      && DueUntil(timers, c.nextOrder, target) == (if due <= target then [due] else [])
      && (handle != c.nextOrder ==> DueUntil(timers, handle, target) == DueUntil(c.timers, handle, target))
  {
    ArmedDue(c, ms, None, target, moved, c.nextOrder);
    ArmedDue(c, ms, None, target, moved, handle);
  }

  /** `setInterval` is due after its delay and then every `ms`, a millisecond at least. */
  lemma IntervalDue(c: Clock, ms: int, target: int, moved: set<nat>, handle: nat, i: nat)
    requires Inv(c, moved)
    ensures var timers := Do(c, SetInterval(ms)).timers;
      var first, period := if ms < 0 then c.now else c.now + ms, if ms < 1 then 1 else ms;
      && Periodic(c.timers) && Periodic(timers)
      && |DueUntil(timers, c.nextOrder, target)| == (if first <= target then (target - first) / period + 1 else 0)
      && (i < |DueUntil(timers, c.nextOrder, target)| ==>
          DueUntil(timers, c.nextOrder, target)[i] == first + i * period)
      && (handle != c.nextOrder ==> DueUntil(timers, handle, target) == DueUntil(c.timers, handle, target))
  {
    ArmedDue(c, ms, Some(Max(ms, 1)), target, moved, c.nextOrder);
    ArmedDue(c, ms, Some(Max(ms, 1)), target, moved, handle);
    var t := Timer(c.nextOrder, c.now + Max(ms, 0), c.nextOrder, Some(Max(ms, 1)));
    if t.due <= target {
      ScheduleOfInterval(t, target, i);
    }
  }

  /** A handle that was cleared is due no more, and no other's schedule has changed. */
  lemma ClearedDue(c: Clock, cleared: nat, target: int, moved: set<nat>, handle: nat)
    requires Inv(c, moved)
    ensures Periodic(c.timers) && Periodic(Do(c, Clear(cleared)).timers)
    ensures DueUntil(Do(c, Clear(cleared)).timers, handle, target) ==
        if handle == cleared then [] else DueUntil(c.timers, handle, target)
  {
    InvPeriodic(c, moved);
    DoKeeps(c, Clear(cleared), moved);
    InvPeriodic(Do(c, Clear(cleared)), moved);
    WithoutKeeps(c.timers, cleared, moved);
    var after := Without(c.timers, cleared);
    if handle == cleared || forall x | x in c.timers :: x.handle != handle {
      DueUntilNone(after, handle, target);
      if handle != cleared {
        DueUntilNone(c.timers, handle, target);
      }
    } else {
      var x :| x in c.timers && x.handle == handle;
      DueUntilOf(c.timers, x, target, moved);
      DueUntilOf(after, x, target, moved);
    }
  }

  // ---- What a tick has fired so far ------------------------------------------------------------

  /** Never earlier than the one before; at one and the same time, in the order they were scheduled. */
  ghost predicate Earlier(a: Firing, b: Firing, moved: set<nat>)
  {
    a.at <= b.at && (a.at == b.at && a.order !in moved && b.order !in moved ==> a.order < b.order)
  }

  ghost predicate FiredInOrder(log: seq<Firing>, from: int, moved: set<nat>)
  {
    && (forall i | 0 <= i < |log| :: from <= log[i].at == log[i].due)
    && (forall i, j | 0 <= i < j < |log| :: Earlier(log[i], log[j], moved))
  }

  /** What is still to fire comes after all that has. */
  ghost predicate AllAhead(log: seq<Firing>, c: Clock, moved: set<nat>)
  {
    && (forall f | f in log :: f.at <= c.now && f.order < c.nextOrder)
    && (forall f, t | f in log && t in c.timers && f.at == t.due && f.order !in moved && t.order !in moved ::
        f.order < t.order)
  }

  function FiringOf(c: Clock): Firing
    requires c.timers != []
  {
    Firing(c.timers[0].handle, c.timers[0].order, c.timers[0].due, Fire(c).now)
  }

  lemma FireInOrder(log: seq<Firing>, c: Clock, from: int, moved: set<nat>)
    requires Inv(c, moved) && c.timers != [] && from <= c.now && FiredInOrder(log, from, moved)
        && AllAhead(log, c, moved)
    ensures FiredInOrder(log + [FiringOf(c)], from, moved) && AllAhead(log + [FiringOf(c)], Fire(c), moved)
  {
    var t, rest, d, f := c.timers[0], c.timers[1..], Fire(c), FiringOf(c);
    FireKeeps(c, moved);
    assert TimerOk(c, t);
    forall x | x in d.timers ensures (x in c.timers && Before(t, x, moved))
        || (x.order == c.nextOrder && x.due > t.due) {
      assert forall i | 0 <= i < |rest| :: rest[i] == c.timers[i + 1] && Before(t, c.timers[i + 1], moved);
      if t.interval.Some? {
        assert InOrder(rest, moved);
        forall y | y in rest ensures TimerOk(c, y) && y.handle != t.handle {
          assert y in c.timers;
        }
        InsertKeeps(rest, Again(t, c.nextOrder), moved);
      }
    }
    var log' := log + [f];
    forall i, j | 0 <= i < j < |log'| ensures Earlier(log'[i], log'[j], moved) {
      assert log'[i] in log;
    }
    forall g, x | g in log' && x in d.timers && g.at == x.due && g.order !in moved
        && x.order !in moved ensures g.order < x.order {
      assert g in log || g == f;
    }
  }

  lemma DoAhead(log: seq<Firing>, c: Clock, op: Op, moved: set<nat>)
    requires Inv(c, moved) && AllAhead(log, c, moved)
    ensures AllAhead(log, Do(c, op), moved)
  {
    assert forall t | t in c.timers :: TimerOk(c, t);
    match op
    case SetTimeout(ms) => InsertKeeps(c.timers, Timer(c.nextOrder, c.now + Max(ms, 0), c.nextOrder, None), moved);
    case SetInterval(ms) => InsertKeeps(c.timers,
        Timer(c.nextOrder, c.now + Max(ms, 0), c.nextOrder, Some(Max(ms, 1))), moved);
    case Clear(handle) => WithoutKeeps(c.timers, handle, moved);
  }

  lemma FiringsOfOneMore(log: seq<Firing>, f: Firing, handle: nat)
    ensures FiringsOf(log + [f], handle) == FiringsOf(log, handle) + if f.handle == handle then [f.at] else []
  {
    assert (log + [f])[..|log|] == log;
  }

  function DoAll(c: Clock, ops: seq<Op>): Clock
  {
    if ops == [] then c else Do(DoAll(c, ops[..|ops| - 1]), ops[|ops| - 1])
  }

  /** One after the other, each once. */
  lemma {:induction false} DoAllInTurn(c: Clock, before: seq<Op>, after: seq<Op>)
    ensures DoAll(c, before + after) == DoAll(DoAll(c, before), after)
    ensures forall op: Op :: DoAll(c, [op]) == Do(c, op)
    decreases |after|
  {
    assert forall op: Op :: [op][..0] == [];
    if after == [] {
      assert before + after == before;
    } else {
      var n := |after| - 1;
      DoAllInTurn(c, before, after[..n]);
      assert (before + after)[..|before| + n] == before + after[..n];
    }
  }

  lemma {:induction false} DoAllKeeps(log: seq<Firing>, c: Clock, ops: seq<Op>, moved: set<nat>)
    requires Inv(c, moved) && AllAhead(log, c, moved)
    ensures Inv(DoAll(c, ops), moved) && AllAhead(log, DoAll(c, ops), moved) && DoAll(c, ops).now == c.now
  {
    if ops != [] {
      DoAllKeeps(log, c, ops[..|ops| - 1], moved);
      DoKeeps(DoAll(c, ops[..|ops| - 1]), ops[|ops| - 1], moved);
      DoAhead(log, DoAll(c, ops[..|ops| - 1]), ops[|ops| - 1], moved);
    }
  }

  lemma WaitKeeps(log: seq<Firing>, c: Clock, target: int, moved: set<nat>)
    requires Inv(c, moved) && AllAhead(log, c, moved) && c.now < target && (c.timers == [] || c.timers[0].due > target)
    ensures Inv(c.(now := target), moved) && AllAhead(log, c.(now := target), moved) && Periodic(c.timers)
    ensures Work(c.timers, target) == 0
  {
    NoneDue(c, target, moved);
    InvPeriodic(c, moved);
    NoWork(c.timers, target);
    assert forall t | t in c.timers :: TimerOk(c, t);
  }

  lemma NoneDue(c: Clock, target: int, moved: set<nat>)
    requires Inv(c, moved) && (c.timers == [] || c.timers[0].due > target)
    ensures forall t | t in c.timers :: t.due > target
  {
    forall t | t in c.timers ensures t.due > target {
      var i :| 0 <= i < |c.timers| && c.timers[i] == t;
      assert i > 0 ==> Before(c.timers[0], c.timers[i], moved);
    }
  }

  lemma {:induction false} NoWork(timers: seq<Timer>, target: int)
    requires Periodic(timers) && forall t | t in timers :: t.due > target
    ensures Work(timers, target) == 0 && forall handle :: DueUntil(timers, handle, target) == []
  {
    if timers != [] {
      NoWork(timers[1..], target);
    }
  }

  predicate FiresIn(c: Clock, target: int)
  {
    c.timers != [] && c.timers[0].due <= target
  }

  function Round(c: Clock, target: int): Clock
  {
    if FiresIn(c, target) then Fire(c) else c.(now := Max(c.now, target))
  }

  ghost predicate TickInv(c: Clock, log: seq<Firing>, from: int, target: int, moved: set<nat>)
  {
    && Inv(c, moved) && Periodic(c.timers)
    && from <= c.now <= Max(target, from)
    && FiredInOrder(log, from, moved) && AllAhead(log, c, moved)
  }

  /** What each handle has been fired for, and what it is still due for, is what it was due for at the start. */
  ghost predicate OnSchedule(timers: seq<Timer>, log: seq<Firing>, start: seq<Timer>, target: int)
  {
    Periodic(timers) && Periodic(start) && forall handle :: HandleOnSchedule(timers, log, start, target, handle)
  }

  ghost predicate HandleOnSchedule(timers: seq<Timer>, log: seq<Firing>, start: seq<Timer>, target: int, handle: nat)
    requires Periodic(timers) && Periodic(start)
  {
    FiringsOf(log, handle) + DueUntil(timers, handle, target) == DueUntil(start, handle, target)
  }

  ghost function Left(timers: seq<Timer>, target: int): nat
  {
    if Periodic(timers) then Work(timers, target) else 0
  }

  function FiredBy(c: Clock, target: int): seq<Firing>
  {
    if FiresIn(c, target) then [FiringOf(c)] else []
  }

  lemma RoundKeeps(c: Clock, log: seq<Firing>, from: int, target: int, moved: set<nat>)
    requires TickInv(c, log, from, target, moved)
    ensures TickInv(Round(c, target), log + FiredBy(c, target), from, target, moved)
    ensures FiresIn(c, target) ==> Left(Round(c, target).timers, target) < Left(c.timers, target)
    ensures !FiresIn(c, target) ==> Round(c, target).timers == c.timers
  {
    if FiresIn(c, target) {
      FireInOrder(log, c, from, moved);
      FireKeeps(c, moved);
      FireWorks(c, target, moved);
    } else {
      assert log + [] == log;
      if c.now < target {
        WaitKeeps(log, c, target, moved);
      }
    }
  }

  /** And so it is up to any later time: what a tick leaves behind is the rest of every schedule. */
  ghost predicate OnScheduleFrom(timers: seq<Timer>, log: seq<Firing>, start: seq<Timer>, target: int)
  {
    forall later | later >= target :: OnSchedule(timers, log, start, later)
  }

  lemma RoundOnSchedule(c: Clock, log: seq<Firing>, start: seq<Timer>, from: int, target: int,
      moved: set<nat>)
    requires TickInv(c, log, from, target, moved)
    ensures OnScheduleFrom(c.timers, log, start, target) ==>
        OnScheduleFrom(Round(c, target).timers, log + FiredBy(c, target), start, target)
  {
    if OnScheduleFrom(c.timers, log, start, target) {
      var after, log' := Round(c, target).timers, log + FiredBy(c, target);
      forall later | later >= target ensures OnSchedule(after, log', start, later) {
        assert OnSchedule(c.timers, log, start, later);
        if FiresIn(c, target) {
          FireLater(c, log, start, later, moved);
        } else {
          assert log' == log;
        }
      }
    }
  }

  lemma FireLater(c: Clock, log: seq<Firing>, start: seq<Timer>, later: int, moved: set<nat>)
    requires Inv(c, moved) && FiresIn(c, later) && OnSchedule(c.timers, log, start, later)
    ensures OnSchedule(Fire(c).timers, log + [FiringOf(c)], start, later)
  {
    FireKeeps(c, moved);
    InvPeriodic(Fire(c), moved);
    var after, log' := Fire(c).timers, log + [FiringOf(c)];
    forall handle ensures HandleOnSchedule(after, log', start, later, handle) {
      assert HandleOnSchedule(c.timers, log, start, later, handle);
      FireOnSchedule(c, later, moved, handle);
      FiringsOfOneMore(log, FiringOf(c), handle);
    }
  }

  lemma NothingLeft(timers: seq<Timer>, log: seq<Firing>, start: seq<Timer>, target: int)
    requires Periodic(timers) && forall t | t in timers :: t.due > target
    ensures OnSchedule(timers, log, start, target) ==> OnSchedule([], log, start, target)
  {
    NoWork(timers, target);
    if OnSchedule(timers, log, start, target) {
      forall handle ensures HandleOnSchedule([], log, start, target, handle) {
        assert HandleOnSchedule(timers, log, start, target, handle);
      }
    }
  }

  /** A round of the loop, and what its callback and the work it wakes then do. */
  function AfterRound(c: Clock, target: int, script: seq<seq<Op>>, round: nat): Clock
  {
    var next := Round(c, target);
    if round < |script| && (FiresIn(c, target) || c.now < target) then DoAll(next, script[round]) else next
  }

  /** What `rounds` rounds of the loop make of the clock, and what they fire. */
  function AfterRounds(c: Clock, target: int, script: seq<seq<Op>>, rounds: nat): (Clock, seq<Firing>)
  {
    if rounds == 0 then (c, [])
    else
      var before := AfterRounds(c, target, script, rounds - 1);
      (AfterRound(before.0, target, script, rounds - 1), before.1 + FiredBy(before.0, target))
  }

  /** `rounds` rounds of the loop lead from one clock to the other, and fire these timers. */
  ghost predicate Played(begin: Clock, c: Clock, target: int, script: seq<seq<Op>>, log: seq<Firing>, rounds: nat)
  {
    (c, log) == AfterRounds(begin, target, script, rounds)
  }

  lemma PlayedNext(begin: Clock, c: Clock, target: int, script: seq<seq<Op>>, log: seq<Firing>, rounds: nat)
    requires Played(begin, c, target, script, log, rounds)
    ensures Played(begin, AfterRound(c, target, script, rounds), target, script, log + FiredBy(c, target), rounds + 1)
  {
  }

  lemma TickEnds(begin: Clock, c: Clock, log: seq<Firing>, start: seq<Timer>, target: int, moved: set<nat>)
    requires TickInv(c, log, begin.now, target, moved) && c.now >= target && !FiresIn(c, target)
    ensures c.now == Max(target, begin.now)
    ensures forall t | t in c.timers :: t.due > target
    ensures FiredInOrder(log, begin.now, moved) && forall f | f in log :: f.at <= c.now
    ensures OnScheduleFrom(c.timers, log, start, target) ==> OnSchedule([], log, start, target)
  {
    NoneDue(c, target, moved);
    if OnScheduleFrom(c.timers, log, start, target) {
      assert OnSchedule(c.timers, log, start, target);
      NothingLeft(c.timers, log, start, target);
    }
  }

  class TestClock {
    var now: int
    var timers: seq<Timer>
    var nextOrder: nat
    /** The orders of the timers a jump has moved. */
    ghost var moved: set<nat>

    function Value(): Clock
      reads this
    {
      Clock(now, timers, nextOrder)
    }

    ghost predicate Valid()
      reads this
    {
      Inv(Value(), moved)
    }

    constructor (start: int)
      ensures Valid() && Value() == Clock(start, [], 0) && moved == {}
    {
      now, timers, nextOrder, moved := start, [], 0, {};
    }

    method Insert(timer: Timer)
      modifies this`timers
      ensures timers == Inserted(old(timers), timer)
    {
      var i := |timers|;
      assert timers[..i] == timers && timers[i..] == [];
      while i > 0 && !GoesAfter(timer, timers[i - 1])
        invariant 0 <= i <= |timers| && timers == old(timers)
        invariant Inserted(timers, timer) == Inserted(timers[..i], timer) + timers[i..]
      {
        assert timers[..i][..i - 1] == timers[..i - 1] && [timers[i - 1]] + timers[i..] == timers[i - 1..];
        assert Inserted(timers[..i], timer) == Inserted(timers[..i - 1], timer) + [timers[i - 1]];
        i := i - 1;
      }
      assert Inserted(timers[..i], timer) == timers[..i] + [timer];
      timers := timers[..i] + [timer] + timers[i..];
    }

    method ScheduleTimer(ms: int, interval: Option<int>) returns (handle: nat)
      modifies this`timers, this`nextOrder
      ensures Value() == Arm(old(Value()), ms, interval) && handle == old(nextOrder)
    {
      handle := nextOrder;
      var timer := Timer(handle, now + Max(ms, 0), nextOrder, interval);
      nextOrder := nextOrder + 1;
      Insert(timer);
    }

    method SetTimeout(ms: int) returns (handle: nat)
      requires Valid()
      modifies this`timers, this`nextOrder
      ensures Valid() && Value() == Do(old(Value()), Op.SetTimeout(ms)) && handle == old(nextOrder)
    {
      DoKeeps(Value(), Op.SetTimeout(ms), moved);
      handle := ScheduleTimer(ms, None);
    }

    method SetInterval(ms: int) returns (handle: nat)
      requires Valid()
      modifies this`timers, this`nextOrder
      ensures Valid() && Value() == Do(old(Value()), Op.SetInterval(ms)) && handle == old(nextOrder)
    {
      DoKeeps(Value(), Op.SetInterval(ms), moved);
      handle := ScheduleTimer(ms, Some(Max(ms, 1)));
    }

    method ClearTimeout(handle: nat)
      requires Valid()
      modifies this`timers
      ensures Valid() && Value() == Do(old(Value()), Clear(handle))
    {
      DoKeeps(Value(), Clear(handle), moved);
      ghost var k := WithoutAt(timers, handle);
      var i := 0;
      while i < |timers| && timers[i].handle != handle
        invariant 0 <= i <= |timers| && forall j | 0 <= j < i :: timers[j].handle != handle
      {
        i := i + 1;
      }
      if i < |timers| {
        FirstIsCleared(timers, handle, i);
        timers := timers[..i] + timers[i + 1..];
      }
    }

    /** No timer fires, and the ones the jump passes become due now, in the order they were due. */
    method SetTime(next: int)
      requires Valid()
      modifies this`now, this`timers, this`moved
      ensures Valid() && Value() == Jump(old(Value()), next) && moved == old(moved) + MovedBy(old(Value()), next)
      ensures now == next && |timers| == |old(timers)| && nextOrder == old(nextOrder)
      ensures forall i | 0 <= i < |timers| ::
        timers[i] == if old(timers)[i].due < next then old(timers)[i].(due := next) else old(timers)[i]
    {
      ghost var before := Value();
      JumpKeeps(before, next, moved);
      var i := 0;
      while i < |timers| && timers[i].due < next
        modifies this`timers
        invariant 0 <= i <= |timers| == |old(timers)|
        invariant forall j | 0 <= j < |timers| :: timers[j] == if j < i then Redated(old(timers)[j], next)
            else old(timers)[j]
      {
        timers := timers[i := timers[i].(due := next)];
        i := i + 1;
      }
      forall j | i <= j < |timers| ensures timers[j] == Redated(old(timers)[j], next) {
        assert i < j ==> Before(old(timers)[i], old(timers)[j], old(moved));
      }
      moved := moved + MovedBy(before, next);
      now := next;
      assert timers == Jump(before, next).timers;
    }

    method RunCallback(ops: seq<Op>)
      requires Valid()
      modifies this`timers, this`nextOrder
      ensures Valid() && Value() == DoAll(old(Value()), ops)
    {
      for i := 0 to |ops|
        invariant Valid() && Value() == DoAll(old(Value()), ops[..i])
      {
        assert ops[..i + 1][..i] == ops[..i];
        match ops[i]
        case SetTimeout(ms) => var _ := SetTimeout(ms);
        case SetInterval(ms) => var _ := SetInterval(ms);
        case Clear(handle) => ClearTimeout(handle);
      }
      assert ops[..|ops|] == ops;
    }

    /** The first timer goes off at its due time, and an interval is inserted again. */
    method FireFirst() returns (firing: Firing)
      requires Valid() && timers != []
      modifies this`now, this`timers, this`nextOrder
      ensures Valid() && Value() == Fire(old(Value())) && firing == FiringOf(old(Value()))
    {
      FireKeeps(Value(), moved);
      var timer := timers[0];
      timers := timers[1..];
      if timer.due > now {
        now := timer.due;
      }
      firing := Firing(timer.handle, timer.order, timer.due, now);
      if timer.interval.Some? {
        var again := Again(timer, nextOrder);
        nextOrder := nextOrder + 1;
        Insert(again);
      }
    }

    /** One round of a tick's loop, without what its callback does. */
    method TickRound(target: int) returns (fired: seq<Firing>, more: bool)
      requires Valid()
      modifies this`now, this`timers, this`nextOrder
      ensures Valid() && Value() == Round(old(Value()), target)
      ensures fired == FiredBy(old(Value()), target)
      ensures more <==> FiresIn(old(Value()), target) || old(now) < target
    {
      fired, more := [], true;
      if timers != [] && timers[0].due <= target {
        var firing := FireFirst();
        fired := [firing];
      } else if now < target {
        WaitKeeps([], Value(), target, moved);
        now := target;
      } else {
        more := false;
      }
    }

    /** One round, and what its callback and the work it wakes then do. */
    method PlayRound(target: int, script: seq<seq<Op>>, round: nat, ghost log: seq<Firing>, ghost from: int,
        ghost start: seq<Timer>)
      returns (fired: seq<Firing>, more: bool)
      requires TickInv(Value(), log, from, target, moved)
      modifies this`now, this`timers, this`nextOrder
      ensures Value() == AfterRound(old(Value()), target, script, round) && fired == FiredBy(old(Value()), target)
      ensures Value() ==
        if more && round < |script| then DoAll(Round(old(Value()), target), script[round])
        else Round(old(Value()), target)
      ensures TickInv(Value(), log + fired, from, target, moved)
      ensures more <==> FiresIn(old(Value()), target) || old(now) < target
      ensures !more ==> Value() == old(Value())
      ensures round >= |script| ==>
          if FiresIn(old(Value()), target) then Left(timers, target) < Left(old(timers), target)
          else timers == old(timers) && now == Max(old(now), target)
      ensures script == [] && OnScheduleFrom(old(timers), log, start, target) ==>
          OnScheduleFrom(timers, log + fired, start, target)
    {
      RoundKeeps(Value(), log, from, target, moved);
      RoundOnSchedule(Value(), log, start, from, target, moved);
      fired, more := TickRound(target);
      if more && round < |script| {
        DoAllKeeps(log + fired, Value(), script[round], moved);
        RunCallback(script[round]);
        InvPeriodic(Value(), moved);
      }
    }

    /** The loop of a tick. */
    method PlayRounds(target: int, script: seq<seq<Op>>) returns (log: seq<Firing>, ghost rounds: nat)
      requires Valid()
      modifies this`now, this`timers, this`nextOrder
      ensures TickInv(Value(), log, old(now), target, moved) && now >= target && !FiresIn(Value(), target)
      ensures Played(old(Value()), Value(), target, script, log, rounds)
      ensures script == [] ==> OnScheduleFrom(timers, log, old(timers), target)
    {
      ghost var start, begin := timers, Value();
      log, rounds := [], 0;
      var round, more := 0, true;
      InvPeriodic(Value(), moved);
      while more
        invariant TickInv(Value(), log, begin.now, target, moved)
        invariant !more ==> now >= target && !FiresIn(Value(), target)
        invariant rounds == round && Played(begin, Value(), target, script, log, rounds)
        invariant script == [] ==> OnScheduleFrom(timers, log, start, target)
        decreases Max(|script| - round, 0), Left(timers, target), if now < target then 1 else 0, more
      {
        PlayedNext(begin, Value(), target, script, log, rounds);
        var fired;
        fired, more := PlayRound(target, script, round, log, begin.now, start);
        log, rounds := log + fired, rounds + 1;
        round := round + 1;
      }
    }

    /**
     `script` holds what the callbacks, and the work they wake, do after each round of the loop; past its
     end they do nothing. However that may be, the timers fire in order of their due times, each at its
     own, and first-in-first-out where no jump moved them; time ends at the target, with nothing left
     that was due by then. Where the callbacks do nothing, every timer fires exactly as often, and
     exactly when, its schedule says.
     */
    method Tick(ms: int, script: seq<seq<Op>>) returns (log: seq<Firing>, ghost rounds: nat, ghost target: int)
      requires Valid()
      modifies this`now, this`timers, this`nextOrder
      ensures target == old(now) + ms
      ensures Valid() && now == old(now) + Max(ms, 0)
      ensures forall t | t in timers :: t.due > old(now) + ms
      ensures FiredInOrder(log, old(now), moved) && forall f | f in log :: f.at <= now
      ensures Played(old(Value()), Value(), target, script, log, rounds)
      ensures script == [] ==> OnSchedule([], log, old(timers), target)
      ensures script == [] ==> OnScheduleFrom(timers, log, old(timers), target)
    {
      target := now + ms;
      log, rounds := PlayRounds(now + ms, script);
      TickEnds(old(Value()), Value(), log, old(timers), target, moved);
    }
  }

  lemma {:induction false} FirstIsCleared(timers: seq<Timer>, handle: nat, i: nat)
    requires i < |timers| && timers[i].handle == handle && forall j | 0 <= j < i :: timers[j].handle != handle
    ensures Without(timers, handle) == timers[..i] + timers[i + 1..]
  {
    if i > 0 {
      FirstIsCleared(timers[1..], handle, i - 1);
    }
  }
}
