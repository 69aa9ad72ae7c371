/**
 What one cron pass owes (`cron`, `readOccurrences`, `missedOccurrence`, `throttleSlot` and
 `occurrenceKey` in src/timekeeper.ts): the occurrences it reads, the 60-second slots it files their
 jobs in and the key that tells one schedule's jobs from another's.
 */
module CronPass {
  import opened Options
  import opened Names
  import opened Occurrences

  /** OCCURRENCE_WINDOW_SECONDS, in milliseconds: how long an occurrence stays due and how wide a slot is. */
  const WINDOW: int := 60 * 1000

  /** A cron expression is the minutes it matches and the seconds it names in each of them. */
  datatype Expression =
    | Cron(minutes: int -> bool, seconds: int -> bool)
    | Rule(instants: Instants)

  datatype MissedPolicy = Skip | Once

  datatype Schedule = Schedule(name: string, key: string, expression: Expression, missed: MissedPolicy,
      createdOn: Option<int>)

  /** What the pass puts on the send-it queue: the singleton key and the slot, which a unique index guards. */
  datatype Forwarded = Forwarded(key: string, slot: int)

  predicate Occurs(e: Expression, t: int)
  {
    match e
    case Cron(minutes, seconds) => t % 1000 == 0 && minutes(Slot(t)) && seconds(t / 1000 % 60)
    case Rule(instants) => instants(t)
  }

  function InstantsOf(e: Expression): Instants
  {
    t => Occurs(e, t)
  }

  function Slot(t: int): int
  {
    t / WINDOW
  }

  // ---- The singleton key -----------------------------------------------------------------------

  function Escape(name: string): string
  {
    if name == "" then ""
    else (if name[0] == '_' then "\\_" else [name[0]]) + Escape(name[1..])
  }

  function OccurrenceKey(name: string, key: string): string
  {
    Escape(name) + "__" + key
  }

  /** The names and keys `schedule` accepts do not contain the escape, so the pair can be read back. */
  lemma {:induction false} OccurrenceKeyInjective(n1: string, k1: string, n2: string, k2: string)
    requires LegalChars(n1) && LegalChars(n2)
    requires OccurrenceKey(n1, k1) == OccurrenceKey(n2, k2)
    ensures n1 == n2 && k1 == k2
  {
    var o1, o2 := OccurrenceKey(n1, k1), OccurrenceKey(n2, k2);
    if n1 == "" || n2 == "" {
      assert o1[0] == o2[0];
      assert k1 == o1[2..] && k2 == o2[2..];
    } else {
      assert o1[0] == o2[0];
      var w := if n1[0] == '_' then 2 else 1;
      assert o1[w..] == OccurrenceKey(n1[1..], k1);
      assert o2[w..] == OccurrenceKey(n2[1..], k2);
      OccurrenceKeyInjective(n1[1..], k1, n2[1..], k2);
    }
  }

  // ---- The two reads ---------------------------------------------------------------------------

  /** A cron expression answers with its latest occurrence only; a rule with every one in the window. */
  function ReadDue(e: Expression, now: int): seq<int>
  {
    var start := now - WINDOW;
    match e
    case Cron(_, _) =>
      (match LatestBefore(InstantsOf(e), start, now)
       case None => []
       case Some(t) => [t])
    case Rule(instants) => InWindow(instants, start, now)
  }

  /** Where the gap a schedule is owed for opens: the last pass, or the row's creation if that is later. */
  function GapStart(s: Schedule, lastPass: int): int
  {
    if s.createdOn.Some? && s.createdOn.value > lastPass then s.createdOn.value else lastPass
  }

  function ReadMissed(s: Schedule, lastPass: Option<int>, now: int): Option<int>
  {
    if s.missed == Skip || lastPass == None then None
    else if GapStart(s, lastPass.value) >= now - WINDOW then None
    else LatestBefore(InstantsOf(s.expression), GapStart(s, lastPass.value), now - WINDOW)
  }

  /** The occurrence `t` is one this pass files a job for. */
  predicate Owes(s: Schedule, lastPass: Option<int>, now: int, t: int)
  {
    t in ReadDue(s.expression, now) || ReadMissed(s, lastPass, now) == Some(t)
  }

  ghost predicate Files(schedules: seq<Schedule>, lastPass: Option<int>, now: int, job: Forwarded)
  {
    exists i, t :: FilesFor(schedules, lastPass, now, job, i, t)
  }

  ghost predicate FilesFor(schedules: seq<Schedule>, lastPass: Option<int>, now: int, job: Forwarded, i: int, t: int)
  {
    && 0 <= i < |schedules|
    && job == Forwarded(OccurrenceKey(schedules[i].name, schedules[i].key), Slot(t))
    && Owes(schedules[i], lastPass, now, t)
  }

  /** The pass: one job per slot its occurrences fall in, the missed one first. */
  method RunPass(schedules: seq<Schedule>, lastPass: Option<int>, now: int) returns (scheduled: seq<Forwarded>)
    ensures forall job :: job in scheduled <==> Files(schedules, lastPass, now, job)
  {
    scheduled := [];
    for i := 0 to |schedules|
      invariant forall job :: job in scheduled <==> Files(schedules[..i], lastPass, now, job)
    {
      var s := schedules[i];
      var slots := SlotsOwed(s, lastPass, now);
      var key := OccurrenceKey(s.name, s.key);
      ghost var before := scheduled;
      for j := 0 to |slots|
        invariant forall job :: job in scheduled <==> job in before || (job.key == key && job.slot in slots[..j])
      {
        scheduled := scheduled + [Forwarded(key, slots[j])];
      }
      assert slots[..|slots|] == slots;
      forall job ensures job in scheduled <==> Files(schedules[..i + 1], lastPass, now, job) {
        FilesOneMore(schedules, lastPass, now, job, i);
        if t :| FilesFor(schedules, lastPass, now, job, i, t) {
          assert job.slot in slots;
        }
        if job.key == key && job.slot in slots {
          var t :| Owes(s, lastPass, now, t) && job.slot == Slot(t);
          assert FilesFor(schedules, lastPass, now, job, i, t);
        }
      }
    }
    assert schedules[..|schedules|] == schedules;
  }

  lemma FilesOneMore(schedules: seq<Schedule>, lastPass: Option<int>, now: int, job: Forwarded, i: nat)
    requires i < |schedules|
    ensures Files(schedules[..i + 1], lastPass, now, job) <==>
      || Files(schedules[..i], lastPass, now, job)
      || exists t :: FilesFor(schedules, lastPass, now, job, i, t)
  {
    if Files(schedules[..i + 1], lastPass, now, job) {
      var j, t :| FilesFor(schedules[..i + 1], lastPass, now, job, j, t);
      assert j < i ==> FilesFor(schedules[..i], lastPass, now, job, j, t);
      assert j == i ==> FilesFor(schedules, lastPass, now, job, i, t);
    }
    if Files(schedules[..i], lastPass, now, job) {
      var j, t :| FilesFor(schedules[..i], lastPass, now, job, j, t);
      assert FilesFor(schedules[..i + 1], lastPass, now, job, j, t);
    }
    if t :| FilesFor(schedules, lastPass, now, job, i, t) {
      assert FilesFor(schedules[..i + 1], lastPass, now, job, i, t);
    }
  }

  /** The slots one schedule files jobs in, each once: an insertion-ordered set. */
  method SlotsOwed(s: Schedule, lastPass: Option<int>, now: int) returns (slots: seq<int>)
    ensures forall i, j | 0 <= i < j < |slots| :: slots[i] != slots[j]
    ensures forall slot :: slot in slots <==> exists t :: Owes(s, lastPass, now, t) && slot == Slot(t)
  {
    var missed := ReadMissed(s, lastPass, now);
    var due := ReadDue(s.expression, now);
    slots := if missed == None then [] else [Slot(missed.value)];
    for i := 0 to |due|
      invariant forall i, j | 0 <= i < j < |slots| :: slots[i] != slots[j]
      invariant forall slot :: slot in slots <==> (missed.Some? && slot == Slot(missed.value)) || exists k ::
          0 <= k < i && slot == Slot(due[k])
    {
      if Slot(due[i]) !in slots {
        slots := slots + [Slot(due[i])];
      }
    }
    forall slot ensures slot in slots <==> exists t :: Owes(s, lastPass, now, t) && slot == Slot(t) {
      if slot in slots && !(missed.Some? && slot == Slot(missed.value)) {
        var k :| 0 <= k < |due| && slot == Slot(due[k]);
        assert Owes(s, lastPass, now, due[k]);
      } else if slot in slots {
        assert Owes(s, lastPass, now, missed.value);
      }
      if t :| Owes(s, lastPass, now, t) && slot == Slot(t) {
        if t in due {
          var k :| 0 <= k < |due| && due[k] == t;
        }
      }
    }
  }

  // ---- What the reads cover --------------------------------------------------------------------

  /** An instant the pass at `now` reads at all: missed since `lastPass`, if there was one, or due. */
  predicate InReach(lastPass: Option<int>, now: int, t: int)
  {
    (lastPass.Some? && lastPass.value < t <= now - WINDOW) || now - WINDOW < t <= now
  }

  /** Everything a pass owes is an occurrence, and a missed one is no older than the schedule's row. */
  lemma OwesOnlyOccurrences(s: Schedule, lastPass: Option<int>, now: int, t: int)
    requires Owes(s, lastPass, now, t)
    ensures Occurs(s.expression, t) && t <= now
    ensures t <= now - WINDOW ==>
      s.missed == Once && lastPass.Some? && t > lastPass.value && (s.createdOn.Some? ==> t > s.createdOn.value)
  {
  }

  /** The instants in reach are those the two reads can find: whatever is out of reach, no schedule is owed for. */
  lemma InReachIffOwable(lastPass: Option<int>, now: int, t: int)
    ensures InReach(lastPass, now, t) <==> exists s: Schedule :: Owes(s, lastPass, now, t)
  {
    if s: Schedule :| Owes(s, lastPass, now, t) {
      OwesOnlyOccurrences(s, lastPass, now, t);
      assert t in ReadDue(s.expression, now) ==> now - WINDOW < t;
    }
    if InReach(lastPass, now, t) {
      var once := Schedule("", "", Rule(u => u == t), Once, None);
      assert InstantsOf(once.expression)(t);
      if now - WINDOW < t {
        assert t in ReadDue(once.expression, now);
      } else {
        var read := LatestBefore(InstantsOf(once.expression), lastPass.value, now - WINDOW);
        assert ReadMissed(once, lastPass, now) == read == Some(t);
      }
      assert Owes(once, lastPass, now, t);
    }
  }

  /**
   The two reads tile: an instant after the pass before, read at `previous`, is in exactly one of the
   missed range and the due window, unless it lies between that read and the claim in `lastPass`.
   The claim is the stamp the pass replaced, so the exception takes a claim whose pass never ran, and then
   no schedule is owed for such an instant.
   */
  lemma ReachTiles(previous: int, lastPass: int, now: int, t: int)
    requires previous < t <= now
    ensures !(lastPass < t <= now - WINDOW && now - WINDOW < t <= now)
    ensures (exists s: Schedule :: Owes(s, Some(lastPass), now, t)) <==> !(t <= lastPass && t <= now - WINDOW)
  {
    InReachIffOwable(Some(lastPass), now, t);
  }

  /** An occurrence that was missed: after the last pass, before the due window, and not older than the schedule. */
  ghost predicate Missed(s: Schedule, lastPass: int, now: int, t: int)
  {
    Occurs(s.expression, t) && lastPass < t <= now - WINDOW && (s.createdOn.Some? ==> t > s.createdOn.value)
  }

  ghost predicate LatestMissed(s: Schedule, lastPass: int, now: int, t: int)
  {
    Missed(s, lastPass, now, t) && forall u | Missed(s, lastPass, now, u) :: u <= t
  }

  /** The missed read finds the latest missed occurrence of a schedule that catches up, and nothing else. */
  lemma ReadMissedIff(s: Schedule, lastPass: Option<int>, now: int, t: int)
    ensures ReadMissed(s, lastPass, now) == Some(t)
        <==> s.missed == Once && lastPass.Some? && LatestMissed(s, lastPass.value, now, t)
  {
    if s.missed == Once && lastPass.Some? {
      MissedInGap(s, lastPass.value, now);
      var read := ReadMissed(s, lastPass, now);
      if LatestMissed(s, lastPass.value, now, t) {
        assert Missed(s, lastPass.value, now, t);
        assert InstantsOf(s.expression)(t);
        assert read.Some? && Missed(s, lastPass.value, now, read.value);
      }
    }
  }

  lemma MissedInGap(s: Schedule, lastPass: int, now: int)
    ensures forall u ::
      Missed(s, lastPass, now, u) <==> InstantsOf(s.expression)(u) && GapStart(s, lastPass) < u <= now - WINDOW
  {
  }

  /** It finds none exactly when the schedule skips, there was no pass before, or nothing was missed. */
  lemma NothingMissedIff(s: Schedule, lastPass: Option<int>, now: int)
    ensures ReadMissed(s, lastPass, now) == None
        <==> s.missed == Skip || lastPass == None || forall t :: !Missed(s, lastPass.value, now, t)
  {
    if s.missed == Once && lastPass.Some? {
      MissedInGap(s, lastPass.value, now);
      var read := ReadMissed(s, lastPass, now);
      if read.Some? {
        assert Missed(s, lastPass.value, now, read.value);
      } else if t :| Missed(s, lastPass.value, now, t) {
        assert InstantsOf(s.expression)(t);
      }
    }
  }

  /** The due read: every occurrence of a rule in the last minute, and the latest one of a cron expression. */
  lemma ReadDueIff(e: Expression, now: int, t: int)
    ensures t in ReadDue(e, now)
        <==> Occurs(e, t) && now - WINDOW < t <= now && (e.Cron? ==> forall u | t < u <= now :: !Occurs(e, u))
  {
    if e.Cron? {
      assert forall u :: InstantsOf(e)(u) == Occurs(e, u);
    }
  }

  /** So what a pass owes is exactly this. */
  lemma OwesExactly(s: Schedule, lastPass: Option<int>, now: int, t: int)
    ensures Owes(s, lastPass, now, t) <==>
      || (Occurs(s.expression, t) && now - WINDOW < t <= now
          && (s.expression.Cron? ==> forall u | t < u <= now :: !Occurs(s.expression, u)))
      || (s.missed == Once && lastPass.Some? && LatestMissed(s, lastPass.value, now, t))
  {
    ReadDueIff(s.expression, now, t);
    ReadMissedIff(s, lastPass, now, t);
  }

  /** A schedule that catches up files the latest occurrence it has missed. */
  lemma CatchUpFiled(schedules: seq<Schedule>, i: nat, lastPass: int, now: int, t: int)
    requires i < |schedules| && schedules[i].missed == Once && LatestMissed(schedules[i], lastPass, now, t)
    ensures Files(schedules, Some(lastPass), now,
        Forwarded(OccurrenceKey(schedules[i].name, schedules[i].key), Slot(t)))
  {
    var s := schedules[i];
    ReadMissedIff(s, Some(lastPass), now, t);
    assert FilesFor(schedules, Some(lastPass), now, Forwarded(OccurrenceKey(s.name, s.key), Slot(t)), i, t);
  }

  /** Every occurrence of a rule in the due window is filed. */
  lemma RuleOccurrenceFiled(schedules: seq<Schedule>, i: nat, lastPass: Option<int>, now: int, t: int)
    requires i < |schedules| && schedules[i].expression.Rule? && Occurs(schedules[i].expression, t)
    requires now - WINDOW < t <= now
    ensures Files(schedules, lastPass, now, Forwarded(OccurrenceKey(schedules[i].name, schedules[i].key), Slot(t)))
  {
    var s := schedules[i];
    assert t in ReadDue(s.expression, now);
    assert FilesFor(schedules, lastPass, now, Forwarded(OccurrenceKey(s.name, s.key), Slot(t)), i, t);
  }

  /** `first` is the earliest occurrence in its own slot. */
  ghost predicate FirstInSlot(e: Expression, first: int)
  {
    Occurs(e, first) && forall t | Slot(t) == Slot(first) && Occurs(e, t) :: first <= t
  }

  /** A slot with an occurrence in it has a first one. */
  lemma {:induction false} FirstOfSlot(e: Expression, t: int) returns (first: int)
    requires Occurs(e, t)
    ensures FirstInSlot(e, first) && first <= t && Slot(first) == Slot(t)
    decreases t - Slot(t) * WINDOW
  {
    first := t;
    if u :| Slot(u) == Slot(t) && Occurs(e, u) && u < t {
      first := FirstOfSlot(e, u);
    }
  }

  /**
   One point is enough for a cron expression: while a slot's first occurrence is due, the latest
   occurrence is still one of that slot's, because every matching minute names the same seconds.
   */
  lemma CronSlotFiled(schedules: seq<Schedule>, i: nat, lastPass: Option<int>, now: int, first: int)
    requires i < |schedules| && schedules[i].expression.Cron? && FirstInSlot(schedules[i].expression, first)
    requires first <= now < first + WINDOW
    ensures Files(schedules, lastPass, now, Forwarded(OccurrenceKey(schedules[i].name, schedules[i].key), Slot(first)))
  {
    var s := schedules[i];
    var read := LatestBefore(InstantsOf(s.expression), now - WINDOW, now);
    assert InstantsOf(s.expression)(first);
    assert read.Some? && first <= read.value;
    var t := read.value;
    assert Occurs(s.expression, t);
    if Slot(t) != Slot(first) {
      LaterSlotStartsLater(s.expression, first, t);
      assert false;
    }
    assert t in ReadDue(s.expression, now);
    assert FilesFor(schedules, lastPass, now, Forwarded(OccurrenceKey(s.name, s.key), Slot(first)), i, t);
  }

  lemma LaterSlotStartsLater(e: Expression, first: int, t: int)
    requires e.Cron? && FirstInSlot(e, first) && Occurs(e, t)
    requires first <= t && Slot(t) != Slot(first)
    ensures t >= first + WINDOW
  {
    var same := t - (Slot(t) - Slot(first)) * WINDOW;
    SameSecond(t, Slot(t) - Slot(first));
    assert Slot(same) == Slot(first);
    assert Occurs(e, same);
  }

  lemma SameSecond(t: int, slots: int)
    ensures var u := t - slots * WINDOW;
      Slot(u) == Slot(t) - slots && u % 1000 == t % 1000 && u / 1000 % 60 == t / 1000 % 60
  {
    var u := t - slots * WINDOW;
    ShiftedByMinutes(u, slots);
    ShiftedByWholeMinutes(u / 1000, slots);
    assert t == u + 60000 * slots;
  }

  lemma ShiftedByMinutes(u: int, n: int)
    ensures (u + 60000 * n) / 60000 == u / 60000 + n
    ensures (u + 60000 * n) / 1000 == u / 1000 + 60 * n
    ensures (u + 60000 * n) % 1000 == u % 1000
  {
  }

  lemma ShiftedByWholeMinutes(v: int, n: int)
    ensures (v + 60 * n) % 60 == v % 60
  {
  }
}
