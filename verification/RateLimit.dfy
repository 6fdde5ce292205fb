/** The fixed-window rate limiter with its periodic sweep. Times are milliseconds of a clock that never goes back. */
module RateLimit {
  import opened Options

  type Key = string

  datatype Window = Window(count: nat, resetAt: int)

  type Windows = map<Key, Window>

  datatype Config = Config(windowMs: int, max: int)

  /** The window a request at `now` is counted in: a new one if there is none or it is over. */
  function Current(c: Config, w: Option<Window>, now: int): Window {
    if w.None? || w.value.resetAt <= now then Window(0, now + c.windowMs) else w.value
  }

  function Find(ws: Windows, key: Key): Option<Window> { if key in ws then Some(ws[key]) else None }

  /** Counts a request and decides whether it passes. */
  function Request(c: Config, ws: Windows, key: Key, now: int): (Windows, bool) {
    var w := Current(c, Find(ws, key), now);
    (ws[key := Window(w.count + 1, w.resetAt)], w.count + 1 <= c.max)
  }

  function Sweep(ws: Windows, now: int): Windows { map k | k in ws && ws[k].resetAt > now :: ws[k] }

  /** The middleware's state. */
  class Limiter {
    const config: Config
    var windows: Windows

    constructor (config: Config)
      ensures this.config == config && windows == map[]
    {
      this.config, this.windows := config, map[];
    }

    method HandleRequest(key: Key, now: int) returns (accepted: bool)
      modifies this
      ensures (windows, accepted) == Request(config, old(windows), key, now)
    {
      var window := Find(windows, key);
      if window.None? || window.value.resetAt <= now {
        window := Some(Window(0, now + config.windowMs));
        windows := windows[key := window.value];
      }
      windows := windows[key := window.value.(count := window.value.count + 1)];
      accepted := !(windows[key].count > config.max);
      assert windows == Request(config, old(windows), key, now).0;
    }

    /** Deletes the windows that are over, one after the other. */
    method RunSweep(now: int)
      modifies this
      ensures windows == Sweep(old(windows), now)
    {
      var keys := windows.Keys;
      while keys != {}
        invariant keys <= old(windows).Keys
        invariant windows == map k | k in old(windows) && (k in keys || old(windows)[k].resetAt > now) :: old(windows)[k]
        decreases |keys|
      {
        var key :| key in keys;
        keys := keys - {key};
        if windows[key].resetAt <= now {
          windows := windows - {key};
        }
      }
    }
  }

  // ---- Runs ----

  datatype Event = Arrive(key: Key, at: int) | SweepAt(at: int)

  /** Times never decrease and start no earlier than `from`. */
  ghost predicate Ordered(es: seq<Event>, from: int) {
    es == [] || (from <= es[0].at && Ordered(es[1..], es[0].at))
  }

  /** The accept or reject decisions of the requests in a run, in order. */
  function Decisions(c: Config, ws: Windows, es: seq<Event>): seq<(Event, bool)>
    decreases |es|
  {
    if es == [] then []
    else if es[0].SweepAt? then Decisions(c, Sweep(ws, es[0].at), es[1..])
    else
      var (ws', ok) := Request(c, ws, es[0].key, es[0].at);
      [(es[0], ok)] + Decisions(c, ws', es[1..])
  }

  function WithoutSweeps(es: seq<Event>): (r: seq<Event>)
    ensures forall e :: e in r ==> e.Arrive?
  {
    if es == [] then [] else if es[0].SweepAt? then WithoutSweeps(es[1..]) else [es[0]] + WithoutSweeps(es[1..])
  }

  /** Two tables that differ only in windows that are over by `now`. */
  ghost predicate Alike(a: Windows, b: Windows, now: int) {
    && (forall k :: k in a && a[k].resetAt > now ==> k in b && b[k] == a[k])
    && (forall k :: k in b && b[k].resetAt > now ==> k in a && a[k] == b[k])
  }

  lemma AlikeRequest(c: Config, a: Windows, b: Windows, key: Key, now: int, from: int)
    requires Alike(a, b, from) && from <= now
    ensures Request(c, a, key, now).1 == Request(c, b, key, now).1
    ensures Alike(Request(c, a, key, now).0, Request(c, b, key, now).0, now)
  {
  }

  lemma {:induction false} AlikeDecide(c: Config, a: Windows, b: Windows, es: seq<Event>, from: int)
    requires Alike(a, b, from) && Ordered(es, from)
    ensures Decisions(c, a, es) == Decisions(c, b, WithoutSweeps(es))
    decreases |es|
  {
    if es == [] {
    } else if es[0].SweepAt? {
      AlikeDecide(c, Sweep(a, es[0].at), b, es[1..], es[0].at);
    } else {
      AlikeRequest(c, a, b, es[0].key, es[0].at, from);
      AlikeDecide(c, Request(c, a, es[0].key, es[0].at).0, Request(c, b, es[0].key, es[0].at).0, es[1..], es[0].at);
      var rest := WithoutSweeps(es[1..]);
      assert WithoutSweeps(es) == [es[0]] + rest && ([es[0]] + rest)[1..] == rest;
    }
  }

  /** The sweep, run at any moments, never changes a decision. */
  lemma SweepChangesNoDecision(c: Config, ws: Windows, es: seq<Event>, from: int)
    requires Ordered(es, from)
    ensures Decisions(c, ws, es) == Decisions(c, ws, WithoutSweeps(es))
  {
    AlikeDecide(c, ws, ws, es, from);
  }

  /** After a sweep the table holds the windows that are still open, and no others. */
  lemma SweepLeavesOpenWindows(ws: Windows, now: int)
    ensures forall k :: k in Sweep(ws, now) <==> k in ws && now < ws[k].resetAt
    ensures forall k :: k in Sweep(ws, now) ==> Sweep(ws, now)[k] == ws[k]
  {
  }

  // ---- How many requests an interval can admit ----

  /** The accepted requests of a key at a moment of [a, a + windowMs). */
  function Admitted(c: Config, ds: seq<(Event, bool)>, key: Key, a: int): nat {
    if ds == [] then 0
    else (if Counts(c, ds[0], key, a) then 1 else 0) + Admitted(c, ds[1..], key, a)
  }

  predicate Counts(c: Config, d: (Event, bool), key: Key, a: int) {
    d.1 && d.0.Arrive? && d.0.key == key && a <= d.0.at < a + c.windowMs
  }

  function Left(c: Config, count: nat): nat { if count >= c.max then 0 else c.max - count }

  /**
   * One less than twice the maximum: the request that opened an earlier window lies before the interval.
   * A window of one millisecond is an interval of its own.
   */
  function Most(c: Config): nat { if c.max <= 0 then 0 else if c.windowMs == 1 then c.max else 2 * c.max - 1 }

  /**
   * What the interval can still admit when the clock shows `from`. A window that starts inside the
   * interval lasts to its end; one that started before it can be followed by one more.
   */
  function Budget(c: Config, w: Option<Window>, from: int, a: int): nat {
    if from >= a + c.windowMs then 0
    else if from < a then Most(c)
    else if w.None? || w.value.resetAt <= from then Left(c, 0)
    else Left(c, w.value.count) + if w.value.resetAt - c.windowMs >= a then 0 else Left(c, 0)
  }

  /** Windows were opened by a request no later than now. */
  ghost predicate Started(c: Config, ws: Windows, now: int) {
    forall k :: k in ws ==> ws[k].resetAt - c.windowMs <= now && ws[k].count > 0
  }

  /** A request spends the budget it uses. */
  lemma BudgetStep(c: Config, ws: Windows, e: Event, key: Key, a: int, from: int)
    requires c.windowMs > 0 && e.Arrive? && from <= e.at && Started(c, ws, from)
    ensures var (ws', ok) := Request(c, ws, e.key, e.at);
            && Started(c, ws', e.at)
            && (if Counts(c, (e, ok), key, a) then 1 else 0) + Budget(c, Find(ws', key), e.at, a) <= Budget(c, Find(ws, key), from, a)
  {
  }

  lemma {:induction false} AdmittedWithinBudget(c: Config, ws: Windows, es: seq<Event>, key: Key, a: int, from: int)
    requires c.windowMs > 0 && Ordered(es, from) && Started(c, ws, from) && forall e :: e in es ==> e.Arrive?
    ensures Admitted(c, Decisions(c, ws, es), key, a) <= Budget(c, Find(ws, key), from, a)
    decreases |es|
  {
    if es != [] {
      var e := es[0];
      var (ws', ok) := Request(c, ws, e.key, e.at);
      assert e in es;
      BudgetStep(c, ws, e, key, a, from);
      AdmittedWithinBudget(c, ws', es[1..], key, a, e.at);
      var rest := Decisions(c, ws', es[1..]);
      assert Decisions(c, ws, es) == [(e, ok)] + rest && ([(e, ok)] + rest)[1..] == rest;
    }
  }

  lemma {:induction false} StillOrdered(es: seq<Event>, from: int)
    requires Ordered(es, from)
    ensures Ordered(WithoutSweeps(es), from)
    decreases |es|
  {
    if es != [] {
      StillOrdered(es[1..], es[0].at);
      var rest := WithoutSweeps(es[1..]);
      if es[0].Arrive? { assert ([es[0]] + rest)[1..] == rest; }
    }
  }

  /**
   * Whatever requests and sweeps happen, any interval of one window length admits fewer than two
   * windows' worth of requests of a key, and only one window's worth if windows last a millisecond.
   */
  lemma FewerThanTwoWindows(c: Config, es: seq<Event>, key: Key, a: int, from: int)
    requires c.windowMs > 0 && Ordered(es, from)
    ensures Admitted(c, Decisions(c, map[], es), key, a) <= Most(c)
  {
    SweepChangesNoDecision(c, map[], es, from);
    StillOrdered(es, from);
    AdmittedWithinBudget(c, map[], WithoutSweeps(es), key, a, from);
  }

  // ---- Nobody is rejected too early ----

  /** The accepted requests of a key since a moment. */
  function AcceptedSince(ds: seq<(Event, bool)>, key: Key, since: int): nat {
    if ds == [] then 0
    else
      var (e, ok) := ds[|ds| - 1];
      AcceptedSince(ds[..|ds| - 1], key, since) + if ok && e.Arrive? && e.key == key && since <= e.at then 1 else 0
  }

  lemma {:induction false} SinceEarlier(ds: seq<(Event, bool)>, key: Key, since: int, earlier: int)
    requires earlier <= since
    ensures AcceptedSince(ds, key, since) <= AcceptedSince(ds, key, earlier)
  {
    if ds != [] { SinceEarlier(ds[..|ds| - 1], key, since, earlier); }
  }

  /** A window's count is backed by requests accepted since it opened, up to the maximum. */
  ghost predicate Backed(c: Config, ws: Windows, past: seq<(Event, bool)>) {
    forall k :: k in ws ==>
      AcceptedSince(past, k, ws[k].resetAt - c.windowMs) >= if ws[k].count <= c.max then ws[k].count else c.max
  }

  lemma BackedRequest(c: Config, ws: Windows, past: seq<(Event, bool)>, e: Event)
    requires e.Arrive? && c.windowMs > 0 && Backed(c, ws, past) && Started(c, ws, e.at)
    ensures var (ws', ok) := Request(c, ws, e.key, e.at); Backed(c, ws', past + [(e, ok)]) && Started(c, ws', e.at)
    ensures !Request(c, ws, e.key, e.at).1 ==> AcceptedSince(past, e.key, e.at - c.windowMs + 1) >= c.max
  {
    var (ws', ok) := Request(c, ws, e.key, e.at);
    assert (past + [(e, ok)])[..|past|] == past;
    if !ok && e.key in ws && ws[e.key].resetAt > e.at {
      SinceEarlier(past, e.key, ws[e.key].resetAt - c.windowMs, e.at - c.windowMs + 1);
    }
  }

  ghost predicate Full(c: Config, past: seq<(Event, bool)>, e: Event) {
    e.Arrive? && AcceptedSince(past, e.key, e.at - c.windowMs + 1) >= c.max
  }

  /** Every rejection among the decisions found the key's allowance used up. */
  ghost predicate RejectionsFull(c: Config, past: seq<(Event, bool)>, ds: seq<(Event, bool)>)
    decreases |ds|
  {
    ds == [] || ((!ds[0].1 ==> Full(c, past, ds[0].0)) && RejectionsFull(c, past + [ds[0]], ds[1..]))
  }

  lemma {:induction false} RejectionsAreFull(c: Config, ws: Windows, past: seq<(Event, bool)>, es: seq<Event>, from: int)
    requires c.windowMs > 0 && Backed(c, ws, past) && Started(c, ws, from) && Ordered(es, from)
    ensures RejectionsFull(c, past, Decisions(c, ws, es))
    decreases |es|
  {
    if es == [] {
    } else if es[0].SweepAt? {
      RejectionsAreFull(c, Sweep(ws, es[0].at), past, es[1..], es[0].at);
    } else {
      var e := es[0];
      var (ws', ok) := Request(c, ws, e.key, e.at);
      var rest := Decisions(c, ws', es[1..]);
      BackedRequest(c, ws, past, e);
      RejectionsAreFull(c, ws', past + [(e, ok)], es[1..], e.at);
      assert ([(e, ok)] + rest)[1..] == rest;
    }
  }

  lemma {:induction false} RejectionAt(c: Config, past: seq<(Event, bool)>, ds: seq<(Event, bool)>, i: nat)
    requires RejectionsFull(c, past, ds) && i < |ds| && !ds[i].1
    ensures Full(c, past + ds[..i], ds[i].0)
    decreases |ds|
  {
    if i == 0 {
      assert past + ds[..0] == past;
    } else {
      RejectionAt(c, past + [ds[0]], ds[1..], i - 1);
      assert past + [ds[0]] + ds[1..][..i - 1] == past + ds[..i];
    }
  }

  /** A request is rejected only if the maximum was accepted from its key during the last window length. */
  lemma RejectedOnlyWhenFull(c: Config, es: seq<Event>, from: int, i: nat)
    requires c.windowMs > 0 && Ordered(es, from) && i < |Decisions(c, map[], es)| && !Decisions(c, map[], es)[i].1
    ensures var ds := Decisions(c, map[], es);
            ds[i].0.Arrive? && AcceptedSince(ds[..i], ds[i].0.key, ds[i].0.at - c.windowMs + 1) >= c.max
  {
    RejectionsAreFull(c, map[], [], es, from);
    RejectionAt(c, [], Decisions(c, map[], es), i);
    assert [] + Decisions(c, map[], es)[..i] == Decisions(c, map[], es)[..i];
  }

  // ---- The bound is reached ----

  /** n requests of a key at one moment. */
  function Repeat(key: Key, at: int, n: nat): (es: seq<Event>)
    ensures forall e :: e in es ==> e == Arrive(key, at)
  {
    if n == 0 then [] else [Arrive(key, at)] + Repeat(key, at, n - 1)
  }

  /** One request opens a window, the rest of it comes at its end, and all of the next at its start. */
  function Burst(c: Config, key: Key): seq<Event> {
    if c.max <= 0 then []
    else
      [Arrive(key, 0)] + (Repeat(key, c.windowMs - 1, c.max - 1) + ([Arrive(key, c.windowMs)] + Repeat(key, c.windowMs, c.max - 1)))
  }

  function Inside(c: Config, at: int, a: int): nat { if a <= at < a + c.windowMs then 1 else 0 }

  /** A request that is let through counts if it falls into the interval. */
  lemma FirstAdmitted(c: Config, ws: Windows, key: Key, at: int, rest: seq<Event>, a: int)
    requires Request(c, ws, key, at).1
    ensures Admitted(c, Decisions(c, ws, [Arrive(key, at)] + rest), key, a)
            == Inside(c, at, a) + Admitted(c, Decisions(c, Request(c, ws, key, at).0, rest), key, a)
  {
    var es := [Arrive(key, at)] + rest;
    var ds := Decisions(c, Request(c, ws, key, at).0, rest);
    assert es[0] == Arrive(key, at) && es[1..] == rest;
    assert ([(es[0], true)] + ds)[1..] == ds;
  }

  /** One request of the only key there is. */
  lemma OneKey(c: Config, key: Key, w: Window, at: int)
    ensures var next := Current(c, Some(w), at);
            Request(c, map[key := w], key, at) == (map[key := next.(count := next.count + 1)], next.count + 1 <= c.max)
  {
    var next := Current(c, Some(w), at);
    assert map[key := w][key := next.(count := next.count + 1)] == map[key := next.(count := next.count + 1)];
  }

  lemma {:induction false} RepeatAdmitted(c: Config, key: Key, w: Window, at: int, n: nat, rest: seq<Event>, a: int)
    requires at < w.resetAt && w.count + n <= c.max
    ensures Admitted(c, Decisions(c, map[key := w], Repeat(key, at, n) + rest), key, a)
            == n * Inside(c, at, a) + Admitted(c, Decisions(c, map[key := w.(count := w.count + n)], rest), key, a)
    decreases n
  {
    if n == 0 {
      assert [] + rest == rest;
    } else {
      var next := w.(count := w.count + 1);
      assert Repeat(key, at, n) + rest == [Arrive(key, at)] + (Repeat(key, at, n - 1) + rest);
      OneKey(c, key, w, at);
      FirstAdmitted(c, map[key := w], key, at, Repeat(key, at, n - 1) + rest, a);
      RepeatAdmitted(c, key, next, at, n - 1, rest, a);
    }
  }

  lemma {:induction false} RepeatOrdered(key: Key, at: int, n: nat, rest: seq<Event>, from: int)
    requires from <= at && Ordered(rest, at)
    ensures Ordered(Repeat(key, at, n) + rest, from)
    decreases n
  {
    if n == 0 {
      assert [] + rest == rest;
    } else {
      RepeatOrdered(key, at, n - 1, rest, at);
      assert (Repeat(key, at, n) + rest)[1..] == Repeat(key, at, n - 1) + rest;
    }
  }

  lemma BurstOrdered(c: Config, key: Key)
    requires c.windowMs > 0
    ensures Ordered(Burst(c, key), 0)
  {
    if c.max > 0 {
      var w, n := c.windowMs, c.max - 1;
      RepeatOrdered(key, w, n, [], w);
      var last := [Arrive(key, w)] + Repeat(key, w, n);
      assert last[1..] == Repeat(key, w, n) + [];
      assert Ordered(last, w - 1);
      RepeatOrdered(key, w - 1, n, last, 0);
      assert ([Arrive(key, 0)] + (Repeat(key, w - 1, n) + last))[1..] == Repeat(key, w - 1, n) + last;
    }
  }

  lemma FirstWindow(c: Config, key: Key, rest: seq<Event>)
    requires c.windowMs > 0 && c.max > 0
    ensures var w, n := c.windowMs, c.max - 1;
            Admitted(c, Decisions(c, map[], [Arrive(key, 0)] + (Repeat(key, w - 1, n) + rest)), key, w - 1)
            == Inside(c, 0, w - 1) + n * Inside(c, w - 1, w - 1)
               + Admitted(c, Decisions(c, map[key := Window(c.max, w)], rest), key, w - 1)
  {
    var w, n := c.windowMs, c.max - 1;
    assert Request(c, map[], key, 0) == (map[key := Window(1, w)], true);
    FirstAdmitted(c, map[], key, 0, Repeat(key, w - 1, n) + rest, w - 1);
    RepeatAdmitted(c, key, Window(1, w), w - 1, n, rest, w - 1);
  }

  lemma SecondWindow(c: Config, key: Key)
    requires c.windowMs > 0 && c.max > 0
    ensures var w := c.windowMs;
            Admitted(c, Decisions(c, map[key := Window(c.max, w)], [Arrive(key, w)] + Repeat(key, w, c.max - 1)), key, w - 1)
            == c.max * Inside(c, w, w - 1)
  {
    var w, more := c.windowMs, Repeat(key, c.windowMs, c.max - 1);
    OneKey(c, key, Window(c.max, w), w);
    FirstAdmitted(c, map[key := Window(c.max, w)], key, w, more, w - 1);
    assert more + [] == more;
    RepeatAdmitted(c, key, Window(1, w + w), w, c.max - 1, [], w - 1);
  }

  /** Whatever the configuration, some run admits that many requests in one interval. */
  lemma BoundReached(c: Config, key: Key)
    requires c.windowMs > 0
    ensures Ordered(Burst(c, key), 0)
    ensures Admitted(c, Decisions(c, map[], Burst(c, key)), key, c.windowMs - 1) == Most(c)
  {
    BurstOrdered(c, key);
    if c.max > 0 {
      SecondWindow(c, key);
      FirstWindow(c, key, [Arrive(key, c.windowMs)] + Repeat(key, c.windowMs, c.max - 1));
    }
  }
}
