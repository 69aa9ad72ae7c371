/**
 The overrun tally (`#recordOverrun`, `#closeOverrunWindow` and `#flushOverruns` in src/manager.ts): a
 queue's first overrun is written at once and opens a window, the window's end writes one row for
 the overruns it counted, and `stop()` writes what is still open.
 */
module Overruns {
  import opened Arithmetic

  /** A handler that ran on past its timeout of `expire` seconds. */
  datatype Overrun = Overrun(name: string, at: int, expire: nat)

  datatype Tally = Tally(since: int, count: nat, expire: nat)

  datatype Row = Row(name: string, since: int, until: int, count: nat, expire: nat)

  function Longest(window: seq<Overrun>): nat
  {
    if window == [] then 0 else Max(Longest(window[..|window| - 1]), window[|window| - 1].expire)
  }

  /** A row tells of exactly these overruns: how many, between when and when, and the longest timeout. */
  ghost predicate Tells(row: Row, window: seq<Overrun>)
  {
    && row.count == |window| > 0
    && row.expire == Longest(window)
    && forall i | 0 <= i < |window| :: window[i].name == row.name && row.since <= window[i].at <= row.until
  }

  ghost predicate Counts(name: string, tally: Tally, window: seq<Overrun>, now: int)
  {
    && tally.count == |window|
    && tally.expire == Longest(window)
    && tally.since <= now
    && forall i | 0 <= i < |window| :: window[i].name == name && tally.since <= window[i].at <= now
  }

  /** The overruns of one queue, in order. */
  function Of(log: seq<Overrun>, name: string): seq<Overrun>
  {
    if log == [] then []
    else Of(log[..|log| - 1], name) + if log[|log| - 1].name == name then [log[|log| - 1]] else []
  }

  /** The overruns one queue's rows tell of, in order. */
  function Told(rows: seq<Row>, windows: seq<seq<Overrun>>, name: string): seq<Overrun>
    requires |rows| == |windows|
  {
    if rows == [] then []
    else Told(rows[..|rows| - 1], windows[..|rows| - 1], name) + if rows[|rows| - 1].name == name
        then windows[|rows| - 1] else []
  }

  function Total(rows: seq<Row>, name: string): nat
  {
    if rows == [] then 0
    else Total(rows[..|rows| - 1], name) + if rows[|rows| - 1].name == name then rows[|rows| - 1].count else 0
  }

  function OpenCount(overruns: map<string, Tally>, name: string): nat
  {
    if name in overruns then overruns[name].count else 0
  }

  lemma OfOneMore(log: seq<Overrun>, o: Overrun, name: string)
    ensures Of(log + [o], name) == Of(log, name) + if o.name == name then [o] else []
  {
    assert (log + [o])[..|log|] == log;
  }

  lemma ToldOneMore(rows: seq<Row>, windows: seq<seq<Overrun>>, row: Row, window: seq<Overrun>, name: string)
    requires |rows| == |windows|
    ensures Told(rows + [row], windows + [window], name) == Told(rows, windows, name) + if row.name == name then window
        else []
  {
    assert (rows + [row])[..|rows|] == rows && (windows + [window])[..|rows|] == windows;
  }

  lemma LongestOneMore(window: seq<Overrun>, o: Overrun)
    ensures Longest(window + [o]) == Max(Longest(window), o.expire)
  {
    assert (window + [o])[..|window|] == window;
  }

  /** The rows' counts add up to the overruns they tell of. */
  lemma {:induction false} TotalTold(rows: seq<Row>, windows: seq<seq<Overrun>>, name: string)
    requires |rows| == |windows| && forall i | 0 <= i < |rows| :: Tells(rows[i], windows[i])
    ensures Total(rows, name) == |Told(rows, windows, name)|
  {
    if rows != [] {
      TotalTold(rows[..|rows| - 1], windows[..|rows| - 1], name);
    }
  }

  /** Every row tells of its window. */
  ghost predicate RowsTell(rows: seq<Row>, windows: seq<seq<Overrun>>)
  {
    |windows| == |rows| && forall i | 0 <= i < |rows| :: Tells(rows[i], windows[i])
  }

  /** Every open tally counts its pending overruns. */
  ghost predicate TalliesCount(now: int, overruns: map<string, Tally>, pending: map<string, seq<Overrun>>)
  {
    pending.Keys == overruns.Keys && forall name | name in overruns :: Counts(name, overruns[name], pending[name], now)
  }

  function Pending(pending: map<string, seq<Overrun>>, name: string): seq<Overrun>
  {
    if name in pending then pending[name] else []
  }

  /** A queue's overruns are the ones its rows tell of, in order, and then the ones its open window holds. */
  ghost predicate Accounted(log: seq<Overrun>, rows: seq<Row>, windows: seq<seq<Overrun>>, pending: map<string,
      seq<Overrun>>, name: string)
    requires |windows| == |rows|
  {
    Of(log, name) == Told(rows, windows, name) + Pending(pending, name)
  }

  ghost predicate AllAccounted(log: seq<Overrun>, rows: seq<Row>, windows: seq<seq<Overrun>>, pending: map<string,
      seq<Overrun>>)
  {
    |windows| == |rows| && forall name :: Accounted(log, rows, windows, pending, name)
  }

  /** A queue's rows, and then its open window, come one after the other: no two cover the same time. */
  ghost predicate InOrder(now: int, overruns: map<string, Tally>, rows: seq<Row>)
  {
    && (forall i, j | 0 <= i < j < |rows| && rows[i].name == rows[j].name :: rows[i].until <= rows[j].since)
    && (forall i | 0 <= i < |rows| :: rows[i].until <= now)
    && (forall i | 0 <= i < |rows| && rows[i].name in overruns :: rows[i].until <= overruns[rows[i].name].since)
  }

  lemma OpenedAccounted(log: seq<Overrun>, rows: seq<Row>, windows: seq<seq<Overrun>>, pending: map<string,
      seq<Overrun>>, row: Row, o: Overrun)
    requires AllAccounted(log, rows, windows, pending) && o.name !in pending && row.name == o.name
    ensures AllAccounted(log + [o], rows + [row], windows + [[o]], pending[o.name := []])
  {
    var log', rows', windows', pending' := log + [o], rows + [row], windows + [[o]], pending[o.name := []];
    forall n ensures Accounted(log', rows', windows', pending', n) {
      assert Accounted(log, rows, windows, pending, n);
      OfOneMore(log, o, n);
      ToldOneMore(rows, windows, row, [o], n);
    }
  }

  lemma CountedAccounted(log: seq<Overrun>, rows: seq<Row>, windows: seq<seq<Overrun>>, pending: map<string,
      seq<Overrun>>, o: Overrun)
    requires AllAccounted(log, rows, windows, pending) && o.name in pending
    ensures AllAccounted(log + [o], rows, windows, pending[o.name := pending[o.name] + [o]])
  {
    var log', pending' := log + [o], pending[o.name := pending[o.name] + [o]];
    forall n ensures Accounted(log', rows, windows, pending', n) {
      assert Accounted(log, rows, windows, pending, n);
      OfOneMore(log, o, n);
    }
  }

  /** A window's row takes over what the window held, whether the window is opened again or not. */
  lemma ClosedAccounted(log: seq<Overrun>, rows: seq<Row>, windows: seq<seq<Overrun>>, pending: map<string,
      seq<Overrun>>, row: Row, after: map<string, seq<Overrun>>)
    requires AllAccounted(log, rows, windows, pending) && row.name in pending
    requires Pending(after, row.name) == [] && forall n | n != row.name :: Pending(after, n) == Pending(pending, n)
    ensures AllAccounted(log, rows + [row], windows + [pending[row.name]], after)
  {
    forall n ensures Accounted(log, rows + [row], windows + [pending[row.name]], after, n) {
      assert Accounted(log, rows, windows, pending, n);
      ToldOneMore(rows, windows, row, pending[row.name], n);
    }
  }

  lemma QuietAccounted(log: seq<Overrun>, rows: seq<Row>, windows: seq<seq<Overrun>>, pending: map<string,
      seq<Overrun>>, name: string)
    requires AllAccounted(log, rows, windows, pending) && Pending(pending, name) == []
    ensures AllAccounted(log, rows, windows, pending - {name})
  {
    forall n ensures Accounted(log, rows, windows, pending - {name}, n) {
      assert Accounted(log, rows, windows, pending, n);
    }
  }

  ghost predicate Inv(now: int, overruns: map<string, Tally>, rows: seq<Row>, log: seq<Overrun>,
      windows: seq<seq<Overrun>>, pending: map<string, seq<Overrun>>)
  {
    && RowsTell(rows, windows)
    && TalliesCount(now, overruns, pending)
    && AllAccounted(log, rows, windows, pending)
    && InOrder(now, overruns, rows)
  }

  /** A row written now, whose queue has no window open from before, or the window it ends. */
  lemma RowInOrder(now: int, overruns: map<string, Tally>, rows: seq<Row>, row: Row, after: map<string, Tally>)
    requires InOrder(now, overruns, rows) && row.until == now && row.since <= now
    requires row.since == if row.name in overruns then overruns[row.name].since else now
    requires row.name in after ==> after[row.name].since == now
    requires forall n | n != row.name && n in after :: n in overruns && after[n] == overruns[n]
    ensures InOrder(now, after, rows + [row])
  {
  }

  lemma Opened(now: int, overruns: map<string, Tally>, rows: seq<Row>, log: seq<Overrun>, windows: seq<seq<Overrun>>,
      pending: map<string, seq<Overrun>>, o: Overrun)
    requires Inv(now, overruns, rows, log, windows, pending) && o.name !in overruns && o.at == now
    ensures Inv(now, overruns[o.name := Tally(now, 0, 0)], rows + [Row(o.name, now, now, 1, o.expire)],
                log + [o], windows + [[o]], pending[o.name := []])
  {
    var row := Row(o.name, now, now, 1, o.expire);
    OpenedAccounted(log, rows, windows, pending, row, o);
    RowInOrder(now, overruns, rows, row, overruns[o.name := Tally(now, 0, 0)]);
    LongestOneMore([], o);
    assert [] + [o] == [o];
    assert Tells(row, [o]);
  }

  lemma Counted(now: int, overruns: map<string, Tally>, rows: seq<Row>, log: seq<Overrun>, windows: seq<seq<Overrun>>,
      pending: map<string, seq<Overrun>>, o: Overrun)
    requires Inv(now, overruns, rows, log, windows, pending) && o.name in overruns && o.at == now
    ensures var tally := overruns[o.name];
      Inv(now, overruns[o.name := Tally(tally.since, tally.count + 1, Max(tally.expire, o.expire))], rows,
          log + [o], windows, pending[o.name := pending[o.name] + [o]])
  {
    CountedAccounted(log, rows, windows, pending, o);
    LongestOneMore(pending[o.name], o);
    assert Counts(o.name, overruns[o.name], pending[o.name], now);
  }

  /** The entry of a window that has ended: a new window's, or none. */
  function Ended<T>(entries: map<string, T>, name: string, next: T, reopen: bool): map<string, T>
  {
    if reopen then entries[name := next] else entries - {name}
  }

  function RowOf(name: string, tally: Tally, now: int): Row
  {
    Row(name, tally.since, now, tally.count, tally.expire)
  }

  lemma Closed(now: int, overruns: map<string, Tally>, rows: seq<Row>, log: seq<Overrun>, windows: seq<seq<Overrun>>,
      pending: map<string, seq<Overrun>>, name: string, reopen: bool)
    requires Inv(now, overruns, rows, log, windows, pending) && OpenCount(overruns, name) > 0
    ensures Inv(now, Ended(overruns, name, Tally(now, 0, 0), reopen), rows + [RowOf(name, overruns[name], now)],
                log, windows + [pending[name]], Ended(pending, name, [], reopen))
  {
    assert Counts(name, overruns[name], pending[name], now);
    var row := RowOf(name, overruns[name], now);
    assert Tells(row, pending[name]);
    ClosedAccounted(log, rows, windows, pending, row, Ended(pending, name, [], reopen));
    RowInOrder(now, overruns, rows, row, Ended(overruns, name, Tally(now, 0, 0), reopen));
  }

  lemma Quiet(now: int, overruns: map<string, Tally>, rows: seq<Row>, log: seq<Overrun>, windows: seq<seq<Overrun>>,
      pending: map<string, seq<Overrun>>, name: string)
    requires Inv(now, overruns, rows, log, windows, pending) && name in overruns && overruns[name].count == 0
    ensures Inv(now, overruns - {name}, rows, log, windows, pending - {name})
  {
    assert Counts(name, overruns[name], pending[name], now);
    QuietAccounted(log, rows, windows, pending, name);
  }

  class OverrunLog {
    const persistWarnings: bool
    var stopped: bool
    var now: int
    var overruns: map<string, Tally>
    var written: seq<Row>
    /** Every overrun counted so far, the ones each row tells of, and the ones each open window holds. */
    ghost var log: seq<Overrun>
    ghost var windows: seq<seq<Overrun>>
    ghost var pending: map<string, seq<Overrun>>

    ghost predicate Valid()
      reads this
    {
      Inv(now, overruns, written, log, windows, pending)
    }

    constructor (persistWarnings: bool, now: int)
      ensures Valid() && log == [] && written == [] && !stopped && this.persistWarnings == persistWarnings
    {
      this.persistWarnings, this.now, stopped := persistWarnings, now, false;
      overruns, written := map[], [];
      log, windows, pending := [], [], map[];
    }

    method WriteOverrun(name: string, since: int, count: nat, expire: nat)
      modifies this`written
      ensures written == old(written) + [Row(name, since, now, count, expire)]
    {
      written := written + [Row(name, since, now, count, expire)];
    }

    /** A queue's first overrun is written at once, and the ones that follow are counted. */
    method RecordOverrun(name: string, expire: nat)
      requires Valid()
      modifies this`overruns, this`written, this`log, this`windows, this`pending
      ensures Valid()
      ensures log == if persistWarnings && !stopped then old(log) + [Overrun(name, now, expire)] else old(log)
      ensures written == old(written) + if log == old(log) || name in old(overruns) then []
          else [Row(name, now, now, 1, expire)]
      ensures overruns.Keys == old(overruns).Keys + if log == old(log) then {} else {name}
    {
      if !persistWarnings || stopped {
        return;
      }
      ghost var o := Overrun(name, now, expire);
      if name in overruns {
        Counted(now, overruns, written, log, windows, pending, o);
        var tally := overruns[name];
        overruns := overruns[name := Tally(tally.since, tally.count + 1, Max(tally.expire, expire))];
        log, pending := log + [o], pending[name := pending[name] + [o]];
        return;
      }
      Opened(now, overruns, written, log, windows, pending, o);
      WriteOverrun(name, now, 1, expire);
      overruns := overruns[name := Tally(now, 0, 0)];
      log, windows, pending := log + [o], windows + [[o]], pending[name := []];
    }

    /** The end of a window, by its timer (`reopen`) or by the flush. */
    method CloseWindow(name: string, reopen: bool)
      requires Valid()
      modifies this`overruns, this`written, this`windows, this`pending
      ensures Valid()
      ensures overruns.Keys == old(overruns).Keys - (if reopen && OpenCount(old(overruns), name) > 0 then {}
          else {name})
      ensures OpenCount(overruns, name) == 0
      ensures forall n | n != name && n in old(overruns) :: overruns[n] == old(overruns)[n]
      ensures OpenCount(old(overruns), name) == 0 ==> written == old(written)
      ensures OpenCount(old(overruns), name) > 0 ==>
        var tally := old(overruns)[name];
        written == old(written) + [Row(name, tally.since, now, tally.count, tally.expire)]
      ensures name in overruns ==> overruns[name].since == now
    {
      if name !in overruns {
        return;
      }
      if overruns[name].count == 0 {
        Quiet(now, overruns, written, log, windows, pending, name);
        overruns, pending := overruns - {name}, pending - {name};
        return;
      }
      EndWindow(name, reopen);
    }

    /** A window that counted something: its row, and the next window if there is to be one. */
    method EndWindow(name: string, reopen: bool)
      requires Valid() && OpenCount(overruns, name) > 0
      modifies this`overruns, this`written, this`windows, this`pending
      ensures Valid()
      ensures overruns == Ended(old(overruns), name, Tally(now, 0, 0), reopen)
      ensures written == old(written) + [RowOf(name, old(overruns)[name], now)]
    {
      Closed(now, overruns, written, log, windows, pending, name, reopen);
      var tally := overruns[name];
      WriteOverrun(name, tally.since, tally.count, tally.expire);
      windows, pending := windows + [pending[name]], Ended(pending, name, [], reopen);
      overruns := if reopen then overruns[name := Tally(now, 0, 0)] else overruns - {name};
    }

    method Stop()
      requires Valid()
      modifies this`stopped
      ensures Valid() && stopped
    {
      stopped := true;
    }

    method Advance(to: int)
      requires Valid() && now <= to
      modifies this`now
      ensures Valid() && now == to
    {
      now := to;
    }

    /** Every overrun recorded is in exactly one row, and the rows' counts add up to the overruns. */
    method FlushOverruns()
      requires Valid()
      modifies this`overruns, this`written, this`windows, this`pending
      ensures Valid() && overruns == map[]
      ensures forall name :: Told(written, windows, name) == Of(log, name) && Total(written, name) == |Of(log, name)|
    {
      var names := overruns.Keys;
      while names != {}
        invariant Valid() && overruns.Keys == names
        decreases names
      {
        var name :| name in names;
        CloseWindow(name, false);
        names := names - {name};
      }
      forall name ensures Told(written, windows, name) == Of(log, name) && Total(written, name) == |Of(log, name)| {
        assert Accounted(log, written, windows, pending, name);
        TotalTold(written, windows, name);
      }
    }

    /** At any time: what is written, plus what is open, is what was recorded. */
    lemma WrittenAndOpen(name: string)
      requires Valid()
      ensures Total(written, name) + OpenCount(overruns, name) == |Of(log, name)|
    {
      assert Accounted(log, written, windows, pending, name);
      TotalTold(written, windows, name);
    }
  }
}
