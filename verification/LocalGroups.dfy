/**
 Group concurrency within one instance (`#trackLocalGroupStart`, `#trackLocalGroupEnd` and
 `#getGroupsAtLocalCapacity` in src/manager.ts): nested maps of counts, kept by hand as handlers start
 and end.
 */
module LocalGroups {
  import opened GroupConcurrency
  import opened Options

  /** One job in flight: its queue and its group. */
  type Slot = (string, string)

  /** What a batch is split into, and the slots in flight once it has been. */
  datatype Admission = Admission(allowed: seq<Job>, excess: seq<Job>, grouped: seq<Job>, inFlight: multiset<Slot>)

  function Taken(inFlight: multiset<Slot>, slot: Slot): multiset<Slot>
  {
    inFlight[slot := inFlight[slot] + 1]
  }

  function FreedOne(inFlight: multiset<Slot>, slot: Slot): multiset<Slot>
  {
    if inFlight[slot] == 0 then inFlight else inFlight[slot := inFlight[slot] - 1]
  }

  /** How often a job is in a list. */
  function Times(jobs: seq<Job>, job: Job): nat
  {
    if jobs == [] then 0 else Times(jobs[..|jobs| - 1], job) + if jobs[|jobs| - 1] == job then 1 else 0
  }

  lemma TimesOneMore(jobs: seq<Job>, last: Job, job: Job)
    ensures Times(jobs + [last], job) == Times(jobs, job) + if last == job then 1 else 0
  {
    assert (jobs + [last])[..|jobs|] == jobs;
  }

  predicate HasRoom(config: Option<Config>, queue: string, job: Job, inFlight: multiset<Slot>)
    requires job.group.Some?
  {
    config.Some? ==> inFlight[(queue, job.group.value)] < Limit(config.value, job.tier)
  }

  /** A job without a group is allowed, and one with a group if its tier's limit has room. */
  function AdmitOne(config: Option<Config>, queue: string, job: Job, a: Admission): Admission
  {
    if job.group == None then a.(allowed := a.allowed + [job])
    else if HasRoom(config, queue, job, a.inFlight) then
      Admission(a.allowed + [job], a.excess, a.grouped + [job], Taken(a.inFlight, (queue, job.group.value)))
    else a.(excess := a.excess + [job])
  }

  function Admit(config: Option<Config>, queue: string, jobs: seq<Job>, inFlight: multiset<Slot>): Admission
  {
    if jobs == [] then Admission([], [], [], inFlight)
    else AdmitOne(config, queue, jobs[|jobs| - 1], Admit(config, queue, jobs[..|jobs| - 1], inFlight))
  }

  /** How many of a list of jobs take a slot. */
  function Slots(queue: string, grouped: seq<Job>, slot: Slot): nat
  {
    if grouped == [] then 0 else
        Slots(queue, grouped[..|grouped| - 1], slot)
        + Takes(queue, grouped[|grouped| - 1], slot)
  }

  function Takes(queue: string, job: Job, slot: Slot): nat
  {
    if slot.0 == queue && job.group == Some(slot.1) then 1 else 0
  }

  lemma AdmitOneCounts(config: Option<Config>, queue: string, job: Job, a: Admission, j: Job)
    ensures var b := AdmitOne(config, queue, job, a);
      && Times(b.allowed, j) + Times(b.excess, j) == Times(a.allowed, j) + Times(a.excess, j)
          + (if job == j then 1 else 0)
      && Times(b.grouped, j) - Times(a.grouped, j) == if j.group.Some? then Times(b.allowed, j) - Times(a.allowed, j)
          else 0
  {
    if job.group == None {
      TimesOneMore(a.allowed, job, j);
    } else if HasRoom(config, queue, job, a.inFlight) {
      TimesOneMore(a.allowed, job, j);
      TimesOneMore(a.grouped, job, j);
    } else {
      TimesOneMore(a.excess, job, j);
    }
  }

  /** Every job goes one way or the other, and the grouped jobs are the ones allowed that have a group. */
  lemma {:induction false} AdmitConserves(config: Option<Config>, queue: string, jobs: seq<Job>,
      inFlight: multiset<Slot>, j: Job)
    ensures var a := Admit(config, queue, jobs, inFlight);
      && Times(a.allowed, j) + Times(a.excess, j) == Times(jobs, j)
      && Times(a.grouped, j) == if j.group.Some? then Times(a.allowed, j) else 0
  {
    if jobs != [] {
      var rest, job := jobs[..|jobs| - 1], jobs[|jobs| - 1];
      AdmitConserves(config, queue, rest, inFlight, j);
      AdmitOneCounts(config, queue, job, Admit(config, queue, rest, inFlight), j);
    }
  }

  lemma SlotsOneMore(queue: string, grouped: seq<Job>, job: Job, slot: Slot)
    ensures Slots(queue, grouped + [job], slot) == Slots(queue, grouped, slot) + Takes(queue, job, slot)
  {
    assert (grouped + [job])[..|grouped|] == grouped;
  }

  lemma AdmitOneTakes(config: Option<Config>, queue: string, job: Job, a: Admission, slot: Slot)
    ensures var b := AdmitOne(config, queue, job, a);
      b.inFlight[slot] - a.inFlight[slot] == Slots(queue, b.grouped, slot) - Slots(queue, a.grouped, slot)
  {
    if job.group.Some? && HasRoom(config, queue, job, a.inFlight) {
      SlotsOneMore(queue, a.grouped, job, slot);
    }
  }

  /** The slots taken are exactly those of the grouped jobs. */
  lemma {:induction false} AdmitTakesSlots(config: Option<Config>, queue: string, jobs: seq<Job>,
      inFlight: multiset<Slot>, slot: Slot)
    ensures var a := Admit(config, queue, jobs, inFlight);
        a.inFlight[slot] == inFlight[slot]
        + Slots(queue, a.grouped, slot)
  {
    if jobs != [] {
      var rest, job := jobs[..|jobs| - 1], jobs[|jobs| - 1];
      AdmitTakesSlots(config, queue, rest, inFlight, slot);
      AdmitOneTakes(config, queue, job, Admit(config, queue, rest, inFlight), slot);
    }
  }

  /**
   Job by job: one without a group, or of a queue without limits, is allowed; and one with a group exactly when
   the group's slots, those in flight before and those this batch has taken, are fewer than its own tier's limit.
   */
  lemma AllowedIff(config: Option<Config>, queue: string, jobs: seq<Job>, inFlight: multiset<Slot>, i: nat)
    requires i < |jobs|
    ensures var before := Admit(config, queue, jobs[..i], inFlight);
      var after := Admit(config, queue, jobs[..i + 1], inFlight);
      if jobs[i].group == None || config == None
          || inFlight[(queue, jobs[i].group.value)] + Slots(queue, before.grouped, (queue, jobs[i].group.value))
             < Limit(config.value, jobs[i].tier)
      then after.allowed == before.allowed + [jobs[i]] && after.excess == before.excess
      else after.allowed == before.allowed && after.excess == before.excess + [jobs[i]]
  {
    assert jobs[..i + 1][..i] == jobs[..i];
    if jobs[i].group.Some? {
      AdmitTakesSlots(config, queue, jobs[..i], inFlight, (queue, jobs[i].group.value));
    }
  }

  /** A group that was within its queue's largest limit stays within it. */
  lemma {:induction false} AdmitWithinLargest(config: Config, queue: string, jobs: seq<Job>, inFlight: multiset<Slot>,
      group: string, max: nat)
    requires IsLargest(config, max) && inFlight[(queue, group)] <= max
    ensures Admit(Some(config), queue, jobs, inFlight).inFlight[(queue, group)] <= max
  {
    if jobs != [] {
      AdmitWithinLargest(config, queue, jobs[..|jobs| - 1], inFlight, group, max);
    }
  }

  /** The largest limit of any tier: `Math.max(config.default, ...Object.values(config.tiers))`. */
  method LargestLimit(c: Config) returns (max: nat)
    ensures IsLargest(c, max) && exists tier :: Limit(c, tier) == max
  {
    max := c.default;
    ghost var at: Option<string> := None;
    var rest := c.tiers.Keys;
    while rest != {}
      invariant rest <= c.tiers.Keys && c.default <= max
      invariant forall tier | tier in c.tiers && tier !in rest :: c.tiers[tier] <= max
      invariant Limit(c, at) == max
      decreases rest
    {
      var tier :| tier in rest;
      if c.tiers[tier] > max {
        max := c.tiers[tier];
        at := Some(tier);
      }
      rest := rest - {tier};
    }
  }

  datatype Worker = Worker(name: string, stopping: bool, stopped: bool)

  predicate Serves(w: Worker, queue: string)
  {
    w.name == queue && !w.stopping && !w.stopped
  }

  class LocalGroupTracker {
    var active: map<string, map<string, nat>>
    var configs: map<string, Config>
    var maxLimits: map<string, nat>
    /** The slots of the jobs admitted and not ended. */
    ghost var inFlight: multiset<Slot>

    ghost predicate Valid()
      reads this
    {
      && (forall q | q in active :: active[q] != map[])
      && (forall q, g | q in active && g in active[q] :: active[q][g] > 0)
      && Agrees(active, inFlight)
      && maxLimits.Keys == configs.Keys
      && (forall q | q in configs :: IsLargest(configs[q], maxLimits[q]) && exists tier ::
          Limit(configs[q], tier) == maxLimits[q])
    }

    function ConfigOf(queue: string): Option<Config>
      reads this
    {
      if queue in configs then Some(configs[queue]) else None
    }

    /** No group of the queue has more jobs in flight than the largest limit allows. */
    ghost predicate Bounded(queue: string)
      reads this
    {
      queue in maxLimits ==> forall g :: inFlight[(queue, g)] <= maxLimits[queue]
    }

    constructor ()
      ensures Valid() && inFlight == multiset{} && configs == map[]
    {
      active, configs, maxLimits, inFlight := map[], map[], map[], multiset{};
    }

    method StoreConfig(queue: string, config: Config)
      requires Valid()
      modifies this`configs, this`maxLimits
      ensures Valid() && configs == old(configs)[queue := config]
    {
      var max := LargestLimit(config);
      configs := configs[queue := config];
      maxLimits := maxLimits[queue := max];
    }

    /** Only once no worker of the queue is left that runs: its limits go, and its counts stay until they end. */
    method Cleanup(queue: string, workers: seq<Worker>)
      requires Valid()
      modifies this`configs, this`maxLimits
      ensures Valid()
      ensures configs == if exists w :: w in workers && w.name == queue && !w.stopping && !w.stopped then old(configs)
          else old(configs) - {queue}
    {
      var hasWorkersForQueue := exists w | w in workers :: Serves(w, queue);
      if !hasWorkersForQueue {
        configs := configs - {queue};
        maxLimits := maxLimits - {queue};
      }
    }

    method Increment(queue: string, group: string)
      requires Valid()
      modifies this`active, this`inFlight
      ensures Valid() && inFlight == Taken(old(inFlight), (queue, group))
      ensures forall slot :: inFlight[slot] == old(inFlight)[slot] + if slot == (queue, group) then 1 else 0
    {
      var queueGroups: map<string, nat> := if queue in active then active[queue] else map[];
      var current := if group in queueGroups then queueGroups[group] else 0;
      active := active[queue := queueGroups[group := current + 1]];
      inFlight := Taken(inFlight, (queue, group));
    }

    /** A group that has no count stays without one. */
    method Decrement(queue: string, group: string)
      requires Valid()
      modifies this`active, this`inFlight
      ensures Valid() && inFlight == FreedOne(old(inFlight), (queue, group))
      ensures forall slot ::
        inFlight[slot] == old(inFlight)[slot] - if slot == (queue, group) && old(inFlight)[slot] > 0 then 1 else 0
    {
      assert inFlight[(queue, group)] == Stored(active, queue, group);
      if queue !in active {
        return;
      }
      var queueGroups := active[queue];
      var current := if group in queueGroups then queueGroups[group] else 0;
      if current <= 1 {
        queueGroups := queueGroups - {group};
        active := if queueGroups == map[] then active - {queue} else active[queue := queueGroups];
      } else {
        active := active[queue := queueGroups[group := current - 1]];
      }
      inFlight := FreedOne(inFlight, (queue, group));
      assert active == Dropped(old(active), queue, group);
      DroppedAgrees(old(active), old(inFlight), queue, group);
    }

    method TrackStart(queue: string, jobs: seq<Job>) returns (allowed: seq<Job>, excess: seq<Job>, grouped: seq<Job>)
      requires Valid()
      modifies this`active, this`inFlight
      ensures Valid()
      ensures Admission(allowed, excess, grouped, inFlight) == Admit(ConfigOf(queue), queue, jobs, old(inFlight))
      ensures old(Bounded(queue)) ==> Bounded(queue)
    {
      allowed, excess, grouped := [], [], [];
      for i := 0 to |jobs|
        invariant Valid()
        invariant Admission(allowed, excess, grouped, inFlight) ==
            Admit(ConfigOf(queue), queue, jobs[..i], old(inFlight))
      {
        var job := jobs[i];
        assert jobs[..i + 1][..i] == jobs[..i];
        if job.group == None {
          allowed := allowed + [job];
        } else {
          var currentCount := Stored(active, queue, job.group.value);
          if queue !in configs || currentCount < Limit(configs[queue], job.tier) {
            Increment(queue, job.group.value);
            allowed := allowed + [job];
            grouped := grouped + [job];
          } else {
            excess := excess + [job];
          }
        }
      }
      assert jobs[..|jobs|] == jobs;
      if queue in configs && old(Bounded(queue)) {
        forall g ensures inFlight[(queue, g)] <= maxLimits[queue] {
          AdmitWithinLargest(configs[queue], queue, jobs, old(inFlight), g, maxLimits[queue]);
        }
      }
    }

    method TrackEnd(queue: string, grouped: seq<Job>)
      requires Valid()
      modifies this`active, this`inFlight
      ensures Valid() && inFlight == Freed(old(inFlight), queue, grouped)
    {
      for i := 0 to |grouped|
        invariant Valid()
        invariant inFlight == Freed(old(inFlight), queue, grouped[..i])
      {
        assert grouped[..i + 1][..i] == grouped[..i];
        if grouped[i].group.Some? {
          Decrement(queue, grouped[i].group.value);
        }
      }
      assert grouped[..|grouped|] == grouped;
    }

    /** The groups left out of the next fetch: those with no room for a job of any tier. */
    method GroupsAtCapacity(queue: string) returns (atCapacity: set<string>)
      requires Valid()
      ensures queue !in configs ==> atCapacity == {}
      ensures queue in configs ==> forall g :: g in atCapacity <==>
        inFlight[(queue, g)] > 0 && forall tier :: Limit(configs[queue], tier) <= inFlight[(queue, g)]
    {
      if queue !in configs || queue !in active {
        return {};
      }
      var queueGroups, max := active[queue], maxLimits[queue];
      atCapacity := set g | g in queueGroups && queueGroups[g] >= max;
      forall g ensures g in atCapacity <==> inFlight[(queue, g)] > 0 && forall tier ::
          Limit(configs[queue], tier) <= inFlight[(queue, g)] {
        assert inFlight[(queue, g)] == Stored(active, queue, g);
        LargestDecides(configs[queue], max, inFlight[(queue, g)]);
      }
    }
  }

  ghost predicate Agrees(active: map<string, map<string, nat>>, inFlight: multiset<Slot>)
  {
    forall q, g :: inFlight[(q, g)] == Stored(active, q, g)
  }

  function Stored(active: map<string, map<string, nat>>, queue: string, group: string): nat
  {
    if queue in active && group in active[queue] then active[queue][group] else 0
  }

  /** One slot fewer: neither a count of zero nor a queue without counts is left. */
  function Dropped(active: map<string, map<string, nat>>, queue: string, group: string)
      : map<string, map<string, nat>>
    requires queue in active
  {
    var queueGroups := active[queue];
    var current := if group in queueGroups then queueGroups[group] else 0;
    if current > 1 then active[queue := queueGroups[group := current - 1]]
    else if queueGroups - {group} == map[] then active - {queue}
    else active[queue := queueGroups - {group}]
  }

  lemma DroppedStored(active: map<string, map<string, nat>>, queue: string, group: string, q: string, g: string)
    requires queue in active
    ensures Stored(Dropped(active, queue, group), q, g) ==
        if q == queue && g == group && Stored(active, q, g) > 0 then Stored(active, q, g) - 1 else Stored(active, q, g)
  {
    if q == queue && g in active[queue] && g != group {
      assert g in active[queue] - {group};
    }
  }

  lemma DroppedAgrees(active: map<string, map<string, nat>>, inFlight: multiset<Slot>, queue: string, group: string)
    requires queue in active && Agrees(active, inFlight)
    ensures Agrees(Dropped(active, queue, group), FreedOne(inFlight, (queue, group)))
  {
    forall q, g ensures FreedOne(inFlight, (queue, group))[(q, g)] == Stored(Dropped(active, queue, group), q, g) {
      DroppedStored(active, queue, group, q, g);
    }
  }

  /** No tier has room exactly when the largest limit is reached. */
  lemma LargestDecides(c: Config, max: nat, count: nat)
    requires IsLargest(c, max) && exists tier :: Limit(c, tier) == max
    ensures count >= max <==> forall tier :: Limit(c, tier) <= count
  {
    var tier :| Limit(c, tier) == max;
  }

  function FreedJob(inFlight: multiset<Slot>, queue: string, job: Job): multiset<Slot>
  {
    if job.group == None then inFlight else FreedOne(inFlight, (queue, job.group.value))
  }

  /** What is in flight once these jobs have ended, one after the other. */
  function Freed(inFlight: multiset<Slot>, queue: string, grouped: seq<Job>): multiset<Slot>
  {
    if grouped == [] then inFlight
    else FreedJob(Freed(inFlight, queue, grouped[..|grouped| - 1]), queue, grouped[|grouped| - 1])
  }

  /** A slot is taken once for every job of the list that is in its group. */
  lemma {:induction false} SlotsCount(queue: string, grouped: seq<Job>, slot: Slot)
    ensures Slots(queue, grouped, slot) ==
        if slot.0 == queue then |set i | 0 <= i < |grouped| && grouped[i].group == Some(slot.1)| else 0
  {
    if grouped != [] {
      var n := |grouped| - 1;
      SlotsCount(queue, grouped[..n], slot);
      var before := set i | 0 <= i < n && grouped[..n][i].group == Some(slot.1);
      var all := set i | 0 <= i < |grouped| && grouped[i].group == Some(slot.1);
      assert all == before + if grouped[n].group == Some(slot.1) then {n} else {};
    }
  }

  /** Ending a list of jobs frees each slot as often as the list takes it, down to none. */
  lemma {:induction false} FreedCount(inFlight: multiset<Slot>, queue: string, grouped: seq<Job>, slot: Slot)
    ensures Freed(inFlight, queue, grouped)[slot] ==
        if Slots(queue, grouped, slot) <= inFlight[slot] then inFlight[slot] - Slots(queue, grouped, slot) else 0
  {
    if grouped != [] {
      FreedCount(inFlight, queue, grouped[..|grouped| - 1], slot);
    }
  }

  /** Admitting a batch and then ending it leaves every count as it was. */
  lemma AdmitThenFree(config: Option<Config>, queue: string, jobs: seq<Job>, inFlight: multiset<Slot>, slot: Slot)
    ensures var a := Admit(config, queue, jobs, inFlight); Freed(a.inFlight, queue, a.grouped)[slot] == inFlight[slot]
  {
    AdmitTakesSlots(config, queue, jobs, inFlight, slot);
    var a := Admit(config, queue, jobs, inFlight);
    FreedCount(a.inFlight, queue, a.grouped, slot);
  }

  // ---- Over any interleaving of batches --------------------------------------------------------

  /** A batch that has started and not ended: its queue and the jobs of it that hold a slot. */
  datatype Batch = Batch(queue: string, grouped: seq<Job>)

  datatype Tracker = Tracker(inFlight: multiset<Slot>, running: seq<Batch>)

  /** A batch of any queue starts, under the limits its queue has at the time, or one that runs ends. */
  datatype Event = Start(config: Option<Config>, queue: string, jobs: seq<Job>) | End(i: nat)

  function Without(running: seq<Batch>, i: nat): seq<Batch>
    requires i < |running|
  {
    running[..i] + running[i + 1..]
  }

  predicate Enabled(t: Tracker, e: Event)
  {
    e.End? ==> e.i < |t.running|
  }

  function Apply(t: Tracker, e: Event): Tracker
    requires Enabled(t, e)
  {
    match e
    case Start(config, queue, jobs) =>
      var a := Admit(config, queue, jobs, t.inFlight);
      Tracker(a.inFlight, t.running + [Batch(queue, a.grouped)])
    case End(i) => Tracker(Freed(t.inFlight, t.running[i].queue, t.running[i].grouped), Without(t.running, i))
  }

  ghost predicate Runs(events: seq<Event>, t: Tracker)
    decreases |events|, 0
  {
    if events == [] then t == Tracker(multiset{}, []) else RunsThen(events[..|events| - 1], events[|events| - 1], t)
  }

  ghost predicate RunsThen(before: seq<Event>, e: Event, t: Tracker)
    decreases |before|, 1
  {
    exists p :: Runs(before, p) && Enabled(p, e) && t == Apply(p, e)
  }

  /** The slots that the batches running hold between them. */
  function Held(running: seq<Batch>, slot: Slot): nat
  {
    if running == [] then 0
    else
      Held(running[..|running| - 1], slot)
      + Slots(running[|running| - 1].queue, running[|running| - 1].grouped, slot)
  }

  lemma {:induction false} HeldWithout(running: seq<Batch>, i: nat, slot: Slot)
    requires i < |running|
    ensures Held(running, slot) == Held(Without(running, i), slot) + Slots(running[i].queue, running[i].grouped, slot)
  {
    var n := |running| - 1;
    if i == n {
      assert Without(running, i) == running[..n];
    } else {
      HeldWithout(running[..n], i, slot);
      assert Without(running, i)[..n - 1] == Without(running[..n], i);
    }
  }

  lemma StepHolds(t: Tracker, e: Event, slot: Slot)
    requires Enabled(t, e) && t.inFlight[slot] == Held(t.running, slot)
    ensures Apply(t, e).inFlight[slot] == Held(Apply(t, e).running, slot)
  {
    match e
    case Start(config, queue, jobs) =>
      AdmitTakesSlots(config, queue, jobs, t.inFlight, slot);
      var last := Batch(queue, Admit(config, queue, jobs, t.inFlight).grouped);
      assert (t.running + [last])[..|t.running|] == t.running;
    case End(i) =>
      HeldWithout(t.running, i, slot);
      FreedCount(t.inFlight, t.running[i].queue, t.running[i].grouped, slot);
  }

  /** However batches overlap, each count is the number of jobs that were admitted and have not ended. */
  lemma {:induction false} CountsAreHeld(events: seq<Event>, t: Tracker, slot: Slot)
    requires Runs(events, t)
    ensures t.inFlight[slot] == Held(t.running, slot)
    decreases |events|
  {
    if events != [] {
      var before, e := events[..|events| - 1], events[|events| - 1];
      var p :| Runs(before, p) && Enabled(p, e) && t == Apply(p, e);
      CountsAreHeld(before, p, slot);
      StepHolds(p, e, slot);
    }
  }

  /** The queue's limits stay as they are. */
  ghost predicate AllUnder(events: seq<Event>, queue: string, config: Config)
  {
    forall i | 0 <= i < |events| && events[i].Start? && events[i].queue == queue :: events[i].config == Some(config)
  }

  lemma StepWithin(t: Tracker, e: Event, queue: string, group: string, config: Config, max: nat)
    requires Enabled(t, e) && t.inFlight[(queue, group)] == Held(t.running, (queue, group)) <= max
        && IsLargest(config, max)
    requires e.Start? && e.queue == queue ==> e.config == Some(config)
    ensures Apply(t, e).inFlight[(queue, group)] <= max
  {
    match e
    case Start(_, q, jobs) =>
      if q == queue {
        AdmitWithinLargest(config, queue, jobs, t.inFlight, group, max);
      } else {
        AdmitTakesSlots(e.config, q, jobs, t.inFlight, (queue, group));
        OtherQueue(q, Admit(e.config, q, jobs, t.inFlight).grouped, (queue, group));
      }
    case End(i) =>
      HeldWithout(t.running, i, (queue, group));
      FreedCount(t.inFlight, t.running[i].queue, t.running[i].grouped, (queue, group));
  }

  lemma {:induction false} OtherQueue(queue: string, grouped: seq<Job>, slot: Slot)
    requires slot.0 != queue
    ensures Slots(queue, grouped, slot) == 0
  {
    if grouped != [] {
      OtherQueue(queue, grouped[..|grouped| - 1], slot);
    }
  }

  /** So no group ever has more jobs in flight than its queue's largest limit. */
  lemma {:induction false} WithinLargest(events: seq<Event>, t: Tracker, queue: string, group: string, config: Config,
      max: nat)
    requires Runs(events, t) && AllUnder(events, queue, config) && IsLargest(config, max)
    ensures t.inFlight[(queue, group)] <= max
    decreases |events|
  {
    if events != [] {
      var before, e := events[..|events| - 1], events[|events| - 1];
      var p :| Runs(before, p) && Enabled(p, e) && t == Apply(p, e);
      assert forall i | 0 <= i < |before| :: before[i] == events[i];
      WithinLargest(before, p, queue, group, config, max);
      CountsAreHeld(before, p, (queue, group));
      StepWithin(p, e, queue, group, config, max);
    }
  }
}
