/**
  The agent's capture runner: one window per observed session, an interval timer behind each, a
  capture in flight that may outlive its window, and a deadline every window enforces itself.
  Window objects are named by ids that are never reused, so object identity is id equality.
 */
module ObservationRunner {
  import opened Wrappers

  const DEFAULT_INTERVAL_MS := 5_000
  const MIN_INTERVAL_MS := 500
  const MAX_INTERVAL_MS := 60_000
  const DEFAULT_TTL_MS := 60_000
  const MIN_TTL_MS := 5_000
  const MAX_TTL_MS := 600_000
  const DEFAULT_THUMB_WIDTH := 320
  const MIN_THUMB_WIDTH := 160
  const MAX_THUMB_WIDTH := 1280

  type Session = string
  type Id = nat

  /** A number on the wire: left out, or not finite, or a value. */
  datatype Amount = Missing | NotFinite | Finite(value: real)

  /** `Math.round` rounds halves up. */
  function Bounded(a: Amount, fallback: int, min: int, max: int): (n: int)
    requires min <= fallback <= max
    ensures min <= n <= max
    ensures a.Finite? && min as real <= a.value <= max as real ==>
              n as real - 0.5 <= a.value < n as real + 0.5
  {
    if !a.Finite? then fallback
    else
      var rounded := (a.value + 0.5).Floor;
      if rounded < min then min else if rounded > max then max else rounded
  }

  datatype Window = Window(
    kasmId: string,
    container: string,
    intervalMs: int,
    thumbWidth: int,
    expiresAt: int,
    timer: Id,
    busy: bool)

  datatype Timer = Timer(session: Session, intervalMs: int)

  /** One run of `tick` suspended in a capture, or in the publish behind it. */
  datatype Flight = Flight(session: Session, window: Id, publishing: bool)

  datatype Command = Command(
    session: Session,
    kasmId: string,
    intervalMs: Amount,
    thumbWidth: Amount,
    ttlMs: Amount,
    container: string)

  /** What the outside can observe, in order. */
  datatype Entry =
    | Started(command: Command, at: int)
    | Stopped(session: Session)
    | CaptureBegun(session: Session, window: Id, flight: Id, at: int, container: string, thumbWidth: int)
    | PublishBegun(session: Session, window: Id, flight: Id, at: int, kasmId: string)

  datatype Runner = Runner(
    windows: map<Session, Id>,
    heap: map<Id, Window>,
    timers: map<Id, Timer>,
    flights: map<Id, Flight>,
    nextId: Id,
    log: seq<Entry>)

  const IDLE := Runner(map[], map[], map[], map[], 0, [])

  datatype Event =
    | Start(command: Command, now: int)
    | Stop(session: Session)
    | TimerFired(timer: Id, now: int)
    | CaptureDone(flight: Id, ok: bool, now: int)
    | PublishDone(flight: Id)

  // ---------- Steps ----------

  /** References that name something; the rest of the invariant is below. */
  ghost predicate Linked(r: Runner) {
    && (forall s :: s in r.windows ==> r.windows[s] in r.heap)
    && (forall f :: f in r.flights ==> r.flights[f].window in r.heap)
  }

  function StopWindow(r: Runner, s: Session): Runner
    requires s in r.windows ==> r.windows[s] in r.heap
  {
    if s !in r.windows then r
    else
      r.(windows := r.windows - {s},
         timers := r.timers - {r.heap[r.windows[s]].timer},
         log := r.log + [Stopped(s)])
  }

  /** `tick` up to its first await. */
  function BeginTick(r: Runner, s: Session, now: int): Runner
    requires s in r.windows ==> r.windows[s] in r.heap
  {
    if s !in r.windows then r
    else
      var w := r.windows[s];
      if now >= r.heap[w].expiresAt then StopWindow(r, s)
      else if r.heap[w].busy then r
      else
        r.(heap := r.heap[w := r.heap[w].(busy := true)],
           flights := r.flights[r.nextId := Flight(s, w, false)],
           nextId := r.nextId + 1,
           log := r.log + [CaptureBegun(s, w, r.nextId, now, r.heap[w].container, r.heap[w].thumbWidth)])
  }

  function RenewWindow(r: Runner, w: Id, c: Command, interval: int, thumb: int, expiresAt: int): Runner
    requires w in r.heap
  {
    var window := r.heap[w].(
      expiresAt := expiresAt, thumbWidth := thumb, container := c.container, kasmId := c.kasmId);
    if window.intervalMs == interval then r.(heap := r.heap[w := window])
    else
      r.(heap := r.heap[w := window.(intervalMs := interval, timer := r.nextId)],
         timers := (r.timers - {window.timer})[r.nextId := Timer(c.session, interval)],
         nextId := r.nextId + 1)
  }

  function OpenWindow(r: Runner, c: Command, interval: int, thumb: int, expiresAt: int): Runner {
    var w, t := r.nextId, r.nextId + 1;
    r.(windows := r.windows[c.session := w],
       heap := r.heap[w := Window(c.kasmId, c.container, interval, thumb, expiresAt, t, false)],
       timers := r.timers[t := Timer(c.session, interval)],
       nextId := r.nextId + 2)
  }

  function Interval(c: Command): int {
    Bounded(c.intervalMs, DEFAULT_INTERVAL_MS, MIN_INTERVAL_MS, MAX_INTERVAL_MS)
  }

  function Thumb(c: Command): int {
    Bounded(c.thumbWidth, DEFAULT_THUMB_WIDTH, MIN_THUMB_WIDTH, MAX_THUMB_WIDTH)
  }

  function Deadline(c: Command, now: int): int {
    now + Bounded(c.ttlMs, DEFAULT_TTL_MS, MIN_TTL_MS, MAX_TTL_MS)
  }

  /** The new state, and whether a window was opened. */
  function StartWindow(r: Runner, c: Command, now: int): (Runner, bool)
    requires c.session in r.windows ==> r.windows[c.session] in r.heap
  {
    if c.kasmId == "" then (r, false)
    else if c.intervalMs == Finite(0.0) then (StopWindow(r, c.session), false)
    else
      var noted := r.(log := r.log + [Started(c, now)]);
      if c.session in r.windows then
        (RenewWindow(noted, r.windows[c.session], c, Interval(c), Thumb(c), Deadline(c, now)), false)
      else
        (BeginTick(OpenWindow(noted, c, Interval(c), Thumb(c), Deadline(c, now)), c.session, now), true)
  }

  /** The rest of `tick` once its capture has settled, up to the publish. */
  function AfterCapture(r: Runner, f: Id, ok: bool, now: int): Runner
    requires f in r.flights && r.flights[f].window in r.heap
  {
    var flight := r.flights[f];
    if !ok || !(flight.session in r.windows && r.windows[flight.session] == flight.window)
       || now >= r.heap[flight.window].expiresAt then Finish(r, f)
    else
      r.(flights := r.flights[f := flight.(publishing := true)],
         log := r.log + [PublishBegun(flight.session, flight.window, f, now, r.heap[flight.window].kasmId)])
  }

  function Finish(r: Runner, f: Id): Runner
    requires f in r.flights && r.flights[f].window in r.heap
  {
    var w := r.flights[f].window;
    r.(heap := r.heap[w := r.heap[w].(busy := false)], flights := r.flights - {f})
  }

  /** Timers that were cleared and flights that have landed raise no event. */
  ghost predicate Possible(r: Runner, e: Event) {
    && (e.TimerFired? ==> e.timer in r.timers)
    && (e.CaptureDone? ==> e.flight in r.flights && !r.flights[e.flight].publishing)
    && (e.PublishDone? ==> e.flight in r.flights && r.flights[e.flight].publishing)
  }

  ghost function Step(r: Runner, e: Event): Runner
    requires Linked(r) && Possible(r, e)
  {
    match e
    case Start(command, now) => StartWindow(r, command, now).0
    case Stop(session) => StopWindow(r, session)
    case TimerFired(timer, now) => BeginTick(r, r.timers[timer].session, now)
    case CaptureDone(flight, ok, now) => AfterCapture(r, flight, ok, now)
    case PublishDone(flight) => Finish(r, flight)
  }

  // ---------- The runner object ----------

  class CaptureRunner {
    var windows: map<Session, Id>
    var heap: map<Id, Window>
    var timers: map<Id, Timer>
    var flights: map<Id, Flight>
    var nextId: Id
    var log: seq<Entry>

    function View(): Runner
      reads this
    {
      Runner(windows, heap, timers, flights, nextId, log)
    }

    constructor ()
      ensures View() == IDLE
    {
      windows, heap, timers, flights, nextId, log := map[], map[], map[], map[], 0, [];
    }

    method StopSession(s: Session)
      requires Linked(View())
      modifies this
      ensures View() == StopWindow(old(View()), s)
    {
      if s !in windows {
        return;
      }
      timers := timers - {heap[windows[s]].timer};
      windows := windows - {s};
      log := log + [Stopped(s)];
    }

    method Tick(s: Session, now: int)
      requires Linked(View())
      modifies this
      ensures View() == BeginTick(old(View()), s, now)
    {
      if s !in windows {
        return;
      }
      var w := windows[s];
      if now >= heap[w].expiresAt {
        StopSession(s);
        return;
      }
      if heap[w].busy {
        return;
      }
      heap := heap[w := heap[w].(busy := true)];
      flights := flights[nextId := Flight(s, w, false)];
      log := log + [CaptureBegun(s, w, nextId, now, heap[w].container, heap[w].thumbWidth)];
      nextId := nextId + 1;
    }

    method StartSession(c: Command, now: int) returns (isNew: bool)
      requires Linked(View())
      modifies this
      ensures (View(), isNew) == StartWindow(old(View()), c, now)
    {
      if c.kasmId == "" {
        return false;
      }
      if c.intervalMs == Finite(0.0) {
        StopSession(c.session);
        return false;
      }
      var interval, thumb, expiresAt := Interval(c), Thumb(c), Deadline(c, now);
      log := log + [Started(c, now)];
      if c.session in windows {
        var w := windows[c.session];
        var existing := heap[w].(
          expiresAt := expiresAt, thumbWidth := thumb, container := c.container, kasmId := c.kasmId);
        if existing.intervalMs != interval {
          timers := (timers - {existing.timer})[nextId := Timer(c.session, interval)];
          existing := existing.(intervalMs := interval, timer := nextId);
          nextId := nextId + 1;
        }
        heap := heap[w := existing];
        return false;
      }
      var w, timer := nextId, nextId + 1;
      nextId := nextId + 2;
      timers := timers[timer := Timer(c.session, interval)];
      heap := heap[w := Window(c.kasmId, c.container, interval, thumb, expiresAt, timer, false)];
      windows := windows[c.session := w];
      Tick(c.session, now);
      return true;
    }

    method CaptureSettled(f: Id, ok: bool, now: int)
      requires Linked(View()) && f in flights
      modifies this
      ensures View() == AfterCapture(old(View()), f, ok, now)
    {
      var flight := flights[f];
      if ok {
        if flight.session in windows && windows[flight.session] == flight.window && now < heap[flight.window].expiresAt {
          flights := flights[f := flight.(publishing := true)];
          log := log + [PublishBegun(flight.session, flight.window, f, now, heap[flight.window].kasmId)];
          return;
        }
      }
      Land(f);
    }

    /** The `finally` of `tick`, after a publish or without one. */
    method Land(f: Id)
      requires Linked(View()) && f in flights
      modifies this
      ensures View() == Finish(old(View()), f)
    {
      var w := flights[f].window;
      heap := heap[w := heap[w].(busy := false)];
      flights := flights - {f};
    }

    /** Over a whole run the runner does what the step functions say. */
    method Serve(events: seq<Event>)
      requires Feasible(View(), events)
      modifies this
      ensures View() == Run(old(View()), events)
      decreases |events|
    {
      hide StartWindow;
      hide BeginTick;
      hide AfterCapture;
      hide StopWindow;
      hide Finish;
      if events != [] {
        ghost var before := View();
        match events[0] {
          case Start(command, now) => var isNew := StartSession(command, now);
          case Stop(session) => StopSession(session);
          case TimerFired(timer, now) => Tick(timers[timer].session, now);
          case CaptureDone(flight, ok, now) => CaptureSettled(flight, ok, now);
          case PublishDone(flight) => Land(flight);
        }
        assert View() == Step(before, events[0]);
        Serve(events[1..]);
      }
    }
  }

  // ---------- What the log says ----------

  /** The last accepted start of a session, if no stop has come since. */
  function LastStart(log: seq<Entry>, s: Session): (r: Option<Entry>)
    ensures r.Some? ==> r.value.Started? && r.value.command.session == s
  {
    if log == [] then None
    else
      var e := log[|log| - 1];
      if e == Stopped(s) then None
      else if e.Started? && e.command.session == s then Some(e)
      else LastStart(log[..|log| - 1], s)
  }

  /** Was this capture begun with no stop of its session since? */
  predicate BegunSinceStop(log: seq<Entry>, s: Session, w: Id, f: Id) {
    log != [] &&
    var e := log[|log| - 1];
    e != Stopped(s) &&
    ((e.CaptureBegun? && e.session == s && e.window == w && e.flight == f) ||
     BegunSinceStop(log[..|log| - 1], s, w, f))
  }

  lemma {:induction false} LogGrows(log: seq<Entry>, e: Entry)
    ensures (log + [e])[..|log|] == log && (log + [e])[|log|] == e
    ensures forall s :: LastStart(log + [e], s) ==
              if e == Stopped(s) then None
              else if e.Started? && e.command.session == s then Some(e)
              else LastStart(log, s)
    ensures forall s, w, f :: BegunSinceStop(log, s, w, f) && e != Stopped(s) ==> BegunSinceStop(log + [e], s, w, f)
    ensures e.CaptureBegun? ==> BegunSinceStop(log + [e], e.session, e.window, e.flight)
  {
    assert (log + [e])[..|log|] == log;
  }

  /** Does a window at work at `at` act on the last accepted start, before that start's deadline? */
  predicate OnDemand(log: seq<Entry>, s: Session, at: int) {
    var start := LastStart(log, s);
    start.Some? && at < Deadline(start.value.command, start.value.at)
  }

  /** Is this entry allowed behind the log before it? */
  predicate Justified(log: seq<Entry>, e: Entry) {
    && (e.CaptureBegun? ==>
          && OnDemand(log, e.session, e.at)
          && e.container == LastStart(log, e.session).value.command.container
          && e.thumbWidth == Thumb(LastStart(log, e.session).value.command))
    && (e.PublishBegun? ==>
          && OnDemand(log, e.session, e.at)
          && e.kasmId == LastStart(log, e.session).value.command.kasmId
          && BegunSinceStop(log, e.session, e.window, e.flight))
  }

  predicate Sound(log: seq<Entry>) {
    forall i :: 0 <= i < |log| ==> Justified(log[..i], log[i])
  }

  lemma {:induction false} SoundGrows(log: seq<Entry>, e: Entry)
    requires Sound(log) && Justified(log, e)
    ensures Sound(log + [e])
  {
    hide Justified;
    var longer := log + [e];
    forall i | 0 <= i < |longer|
      ensures Justified(longer[..i], longer[i])
    {
      if i < |log| {
        assert longer[..i] == log[..i];
      } else {
        assert longer[..i] == log;
      }
    }
  }

  // ---------- The invariant ----------

  ghost predicate IdsFresh(r: Runner) {
    && (forall w :: w in r.heap ==> w < r.nextId)
    && (forall t :: t in r.timers ==> t < r.nextId)
    && (forall f :: f in r.flights ==> f < r.nextId)
  }

  /** A window object belongs to one session, in the map and in flight. */
  ghost predicate OneOwner(r: Runner) {
    && (forall s, s' :: s in r.windows && s' in r.windows && r.windows[s] == r.windows[s'] ==> s == s')
    && (forall s, f :: s in r.windows && f in r.flights && r.windows[s] == r.flights[f].window ==> s == r.flights[f].session)
  }

  /** Live timers and windows in the map are one to one, at the window's own interval. */
  ghost predicate TimersMatch(r: Runner) {
    && (forall s :: s in r.windows ==>
          r.windows[s] in r.heap &&
          r.heap[r.windows[s]].timer in r.timers &&
          r.timers[r.heap[r.windows[s]].timer] == Timer(s, r.heap[r.windows[s]].intervalMs))
    && (forall t :: t in r.timers ==>
          r.timers[t].session in r.windows &&
          r.windows[r.timers[t].session] in r.heap &&
          r.heap[r.windows[r.timers[t].session]].timer == t)
  }

  /** A window object is busy exactly while one capture or publish of it is in flight. */
  ghost predicate OneFlightEach(r: Runner) {
    && (forall f :: f in r.flights ==> r.flights[f].window in r.heap && r.heap[r.flights[f].window].busy)
    && (forall f, g :: f in r.flights && g in r.flights && r.flights[f].window == r.flights[g].window ==> f == g)
    && (forall w :: w in r.heap && r.heap[w].busy ==> exists f :: f in r.flights && r.flights[f].window == w)
  }

  /** The window is as this start asked for it. */
  predicate AsAsked(w: Window, start: Entry)
    requires start.Started?
  {
    var c := start.command;
    && w.kasmId == c.kasmId && w.container == c.container
    && w.intervalMs == Interval(c) && w.thumbWidth == Thumb(c) && w.expiresAt == Deadline(c, start.at)
  }

  /** A window in the map is as the last start asked for it, and its captures are new enough. */
  ghost predicate LogMatches(r: Runner) {
    && (forall s :: s in r.windows <==> LastStart(r.log, s).Some?)
    && (forall s :: s in r.windows ==>
          r.windows[s] in r.heap && AsAsked(r.heap[r.windows[s]], LastStart(r.log, s).value))
    && (forall f :: f in r.flights && r.flights[f].session in r.windows
                    && r.windows[r.flights[f].session] == r.flights[f].window ==>
          BegunSinceStop(r.log, r.flights[f].session, r.flights[f].window, f))
    && Sound(r.log)
  }

  ghost predicate InRange(r: Runner) {
    forall w :: w in r.heap ==>
      MIN_INTERVAL_MS <= r.heap[w].intervalMs <= MAX_INTERVAL_MS && MIN_THUMB_WIDTH <= r.heap[w].thumbWidth <= MAX_THUMB_WIDTH
  }

  ghost predicate Shape(r: Runner) {
    Linked(r) && IdsFresh(r) && OneOwner(r) && TimersMatch(r) && InRange(r)
  }

  ghost predicate Inv(r: Runner) {
    Shape(r) && OneFlightEach(r) && LogMatches(r)
  }

  lemma {:induction false} StopKeepsInv(r: Runner, s: Session)
    requires Inv(r)
    ensures Inv(StopWindow(r, s))
  {
    if s in r.windows {
      StopKeepsShape(r, s);
      StopKeepsLog(r, s);
    }
  }

  lemma {:induction false} StopKeepsShape(r: Runner, s: Session)
    requires Shape(r) && s in r.windows
    ensures Shape(StopWindow(r, s))
  {
  }

  lemma {:induction false} StopKeepsLog(r: Runner, s: Session)
    requires Linked(r) && LogMatches(r) && s in r.windows
    ensures LogMatches(StopWindow(r, s))
  {
    hide Sound;
    hide LastStart;
    hide BegunSinceStop;
    LogGrows(r.log, Stopped(s));
    SoundGrows(r.log, Stopped(s));
  }

  lemma {:induction false} TickKeepsInv(r: Runner, s: Session, now: int)
    requires Inv(r)
    ensures Inv(BeginTick(r, s, now))
  {
    if s in r.windows {
      if now >= r.heap[r.windows[s]].expiresAt {
        StopKeepsInv(r, s);
      } else if !r.heap[r.windows[s]].busy {
        CaptureBeginsShape(r, s, now);
        CaptureBeginsFlights(r, s, now);
        CaptureBeginsLog(r, s, now);
      }
    }
  }

  ghost predicate MayCapture(r: Runner, s: Session, now: int)
    requires Linked(r)
  {
    s in r.windows && now < r.heap[r.windows[s]].expiresAt && !r.heap[r.windows[s]].busy
  }

  lemma {:induction false} CaptureBeginsShape(r: Runner, s: Session, now: int)
    requires Shape(r) && MayCapture(r, s, now)
    ensures Shape(BeginTick(r, s, now))
  {
    CaptureBeginsRest(r, s, now);
    hide Linked;
    hide IdsFresh;
    hide OneOwner;
  }

  lemma {:induction false} CaptureBeginsRest(r: Runner, s: Session, now: int)
    requires Linked(r) && IdsFresh(r) && OneOwner(r) && MayCapture(r, s, now)
    ensures var r' := BeginTick(r, s, now);
            Linked(r') && IdsFresh(r') && OneOwner(r')
  {
  }

  lemma {:induction false} CaptureBeginsFlights(r: Runner, s: Session, now: int)
    requires Linked(r) && IdsFresh(r) && OneFlightEach(r) && MayCapture(r, s, now)
    ensures OneFlightEach(BeginTick(r, s, now))
  {
    var r' := BeginTick(r, s, now);
    forall v | v in r'.heap && r'.heap[v].busy
      ensures exists f :: f in r'.flights && r'.flights[f].window == v
    {
      if v == r.windows[s] {
        assert r'.flights[r.nextId].window == v;
      } else {
        var f :| f in r.flights && r.flights[f].window == v;
        assert r'.flights[f].window == v;
      }
    }
  }

  lemma {:induction false} CaptureBeginsLog(r: Runner, s: Session, now: int)
    requires Linked(r) && IdsFresh(r) && LogMatches(r) && MayCapture(r, s, now)
    ensures LogMatches(BeginTick(r, s, now))
  {
    hide Sound;
    hide LastStart;
    hide BegunSinceStop;
    var w := r.windows[s];
    var e := CaptureBegun(s, w, r.nextId, now, r.heap[w].container, r.heap[w].thumbWidth);
    LogGrows(r.log, e);
    SoundGrows(r.log, e);
  }

  lemma {:induction false} StartKeepsInv(r: Runner, c: Command, now: int)
    requires Inv(r)
    ensures Inv(StartWindow(r, c, now).0)
  {
    if c.kasmId == "" {
    } else if c.intervalMs == Finite(0.0) {
      StopKeepsInv(r, c.session);
    } else {
      var noted := r.(log := r.log + [Started(c, now)]);
      NotedKeeps(r, noted);
      hide Shape;
      hide OneFlightEach;
      hide LogMatches;
      hide RenewWindow;
      hide OpenWindow;
      hide BeginTick;
      if c.session in r.windows {
        var w := r.windows[c.session];
        RenewShape(noted, w, c, Interval(c), Thumb(c), Deadline(c, now));
        RenewFlights(noted, w, c, Interval(c), Thumb(c), Deadline(c, now));
        RenewLog(r, w, c, now);
      } else {
        OpenShape(noted, c, Interval(c), Thumb(c), Deadline(c, now));
        OpenFlights(noted, c, Interval(c), Thumb(c), Deadline(c, now));
        OpenLog(r, c, now);
        TickKeepsInv(OpenWindow(noted, c, Interval(c), Thumb(c), Deadline(c, now)), c.session, now);
      }
    }
  }

  lemma {:induction false} NotedKeeps(r: Runner, noted: Runner)
    requires Shape(r) && OneFlightEach(r) && noted == r.(log := noted.log)
    ensures Shape(noted) && OneFlightEach(noted) && IdsFresh(noted) && IdsFresh(r) && Linked(r) && Linked(noted) && OneOwner(r)
    ensures forall s :: s in noted.windows ==> noted.windows[s] in noted.heap
  {
  }

  lemma {:induction false} StartNoted(log: seq<Entry>, c: Command, now: int)
    requires Sound(log)
    ensures Sound(log + [Started(c, now)])
  {
    SoundGrows(log, Started(c, now));
  }

  lemma {:induction false} RenewShape(r: Runner, w: Id, c: Command, interval: int, thumb: int, expiresAt: int)
    requires Shape(r) && c.session in r.windows && r.windows[c.session] == w
    requires MIN_INTERVAL_MS <= interval <= MAX_INTERVAL_MS && MIN_THUMB_WIDTH <= thumb <= MAX_THUMB_WIDTH
    ensures Shape(RenewWindow(r, w, c, interval, thumb, expiresAt))
  {
    RenewTimers(r, w, c, interval, thumb, expiresAt);
    RenewRest(r, w, c, interval, thumb, expiresAt);
    hide TimersMatch;
    hide OneOwner;
    hide Linked;
    hide IdsFresh;
  }

  lemma {:induction false} RenewRest(r: Runner, w: Id, c: Command, interval: int, thumb: int, expiresAt: int)
    requires Linked(r) && OneOwner(r) && IdsFresh(r) && c.session in r.windows && r.windows[c.session] == w
    ensures var r' := RenewWindow(r, w, c, interval, thumb, expiresAt);
            Linked(r') && OneOwner(r') && IdsFresh(r')
  {
    var r' := RenewWindow(r, w, c, interval, thumb, expiresAt);
    assert r'.windows == r.windows && r'.flights == r.flights && r'.heap.Keys == r.heap.Keys;
    assert r'.timers.Keys <= r.timers.Keys + {r.nextId} && r'.nextId <= r.nextId + 1;
  }

  lemma {:induction false} RenewTimers(r: Runner, w: Id, c: Command, interval: int, thumb: int, expiresAt: int)
    requires IdsFresh(r) && OneOwner(r) && TimersMatch(r) && c.session in r.windows && r.windows[c.session] == w
    ensures TimersMatch(RenewWindow(r, w, c, interval, thumb, expiresAt))
  {
    if r.heap[w].intervalMs == interval {
      hide IdsFresh;
    } else {
      RetimeWindows(r, w, c, interval, thumb, expiresAt);
      RetimeTimers(r, w, c, interval, thumb, expiresAt);
      hide TimersMatch;
      hide IdsFresh;
      hide OneOwner;
      TimersMatchUnfold(RenewWindow(r, w, c, interval, thumb, expiresAt));
    }
  }

  lemma {:induction false} TimersMatchUnfold(r: Runner)
    ensures TimersMatch(r) <==>
              && (forall s :: s in r.windows ==>
                    r.windows[s] in r.heap &&
                    r.heap[r.windows[s]].timer in r.timers &&
                    r.timers[r.heap[r.windows[s]].timer] == Timer(s, r.heap[r.windows[s]].intervalMs))
              && (forall t :: t in r.timers ==>
                    r.timers[t].session in r.windows &&
                    r.windows[r.timers[t].session] in r.heap &&
                    r.heap[r.windows[r.timers[t].session]].timer == t)
  {
  }

  /** With a new timer for one window, every window still has its own. */
  lemma {:induction false} RetimeWindows(r: Runner, w: Id, c: Command, interval: int, thumb: int, expiresAt: int)
    requires IdsFresh(r) && OneOwner(r) && TimersMatch(r) && c.session in r.windows && r.windows[c.session] == w
    requires r.heap[w].intervalMs != interval
    ensures var r' := RenewWindow(r, w, c, interval, thumb, expiresAt);
            forall s :: s in r'.windows ==>
              r'.windows[s] in r'.heap &&
              r'.heap[r'.windows[s]].timer in r'.timers &&
              r'.timers[r'.heap[r'.windows[s]].timer] == Timer(s, r'.heap[r'.windows[s]].intervalMs)
  {
    forall s | s in r.windows && s != c.session
      ensures r.windows[s] != w && r.heap[r.windows[s]].timer != r.heap[w].timer
    {
      assert r.timers[r.heap[w].timer].session == c.session;
    }
  }

  /** And every timer its own window. */
  lemma {:induction false} RetimeTimers(r: Runner, w: Id, c: Command, interval: int, thumb: int, expiresAt: int)
    requires OneOwner(r) && TimersMatch(r) && c.session in r.windows && r.windows[c.session] == w
    requires r.heap[w].intervalMs != interval
    ensures var r' := RenewWindow(r, w, c, interval, thumb, expiresAt);
            forall t :: t in r'.timers ==>
              r'.timers[t].session in r'.windows &&
              r'.windows[r'.timers[t].session] in r'.heap &&
              r'.heap[r'.windows[r'.timers[t].session]].timer == t
  {
    forall t | t in r.timers && t != r.heap[w].timer
      ensures r.timers[t].session != c.session && r.windows[r.timers[t].session] != w
    {
      assert r.heap[r.windows[r.timers[t].session]].timer == t;
    }
  }

  lemma {:induction false} RenewFlights(r: Runner, w: Id, c: Command, interval: int, thumb: int, expiresAt: int)
    requires OneFlightEach(r) && w in r.heap
    ensures OneFlightEach(RenewWindow(r, w, c, interval, thumb, expiresAt))
  {
    var r' := RenewWindow(r, w, c, interval, thumb, expiresAt);
    assert r'.flights == r.flights;
    assert forall v :: v in r'.heap ==> v in r.heap && r'.heap[v].busy == r.heap[v].busy;
  }

  lemma {:induction false} RenewLog(r: Runner, w: Id, c: Command, now: int)
    requires Linked(r) && OneOwner(r) && LogMatches(r) && c.session in r.windows && r.windows[c.session] == w
    ensures LogMatches(RenewWindow(r.(log := r.log + [Started(c, now)]), w, c, Interval(c), Thumb(c), Deadline(c, now)))
  {
    hide Interval;
    hide Thumb;
    hide Deadline;
    hide Sound;
    hide LastStart;
    hide BegunSinceStop;
    LogGrows(r.log, Started(c, now));
    StartNoted(r.log, c, now);
  }

  lemma {:induction false} OpenShape(r: Runner, c: Command, interval: int, thumb: int, expiresAt: int)
    requires Shape(r) && c.session !in r.windows
    requires MIN_INTERVAL_MS <= interval <= MAX_INTERVAL_MS && MIN_THUMB_WIDTH <= thumb <= MAX_THUMB_WIDTH
    ensures Shape(OpenWindow(r, c, interval, thumb, expiresAt))
  {
    OpenRest(r, c, interval, thumb, expiresAt);
    OpenTimers(r, c, interval, thumb, expiresAt);
    hide Linked;
    hide OneOwner;
    hide TimersMatch;
    hide IdsFresh;
  }

  lemma {:induction false} OpenTimers(r: Runner, c: Command, interval: int, thumb: int, expiresAt: int)
    requires IdsFresh(r) && TimersMatch(r) && c.session !in r.windows
    ensures TimersMatch(OpenWindow(r, c, interval, thumb, expiresAt))
  {
  }

  lemma {:induction false} OpenRest(r: Runner, c: Command, interval: int, thumb: int, expiresAt: int)
    requires Linked(r) && IdsFresh(r) && OneOwner(r) && c.session !in r.windows
    ensures var r' := OpenWindow(r, c, interval, thumb, expiresAt);
            Linked(r') && OneOwner(r') && IdsFresh(r')
  {
  }

  lemma {:induction false} OpenFlights(r: Runner, c: Command, interval: int, thumb: int, expiresAt: int)
    requires IdsFresh(r) && OneFlightEach(r)
    ensures OneFlightEach(OpenWindow(r, c, interval, thumb, expiresAt))
  {
    var r' := OpenWindow(r, c, interval, thumb, expiresAt);
    assert r'.flights == r.flights;
    assert forall v :: v in r'.heap && r'.heap[v].busy ==> v in r.heap && r.heap[v].busy;
  }

  lemma {:induction false} OpenLog(r: Runner, c: Command, now: int)
    requires Linked(r) && IdsFresh(r) && LogMatches(r) && c.session !in r.windows
    ensures LogMatches(OpenWindow(r.(log := r.log + [Started(c, now)]), c, Interval(c), Thumb(c), Deadline(c, now)))
  {
    hide Interval;
    hide Thumb;
    hide Deadline;
    hide Sound;
    hide LastStart;
    hide BegunSinceStop;
    LogGrows(r.log, Started(c, now));
    StartNoted(r.log, c, now);
  }

  lemma {:induction false} FinishKeepsInv(r: Runner, f: Id)
    requires Inv(r) && f in r.flights
    ensures Inv(Finish(r, f))
  {
    FinishShape(r, f);
    FinishFlights(r, f);
    FinishLog(r, f);
  }

  lemma {:induction false} FinishShape(r: Runner, f: Id)
    requires Shape(r) && f in r.flights
    ensures Shape(Finish(r, f))
  {
  }

  lemma {:induction false} FinishFlights(r: Runner, f: Id)
    requires Linked(r) && OneFlightEach(r) && f in r.flights
    ensures OneFlightEach(Finish(r, f))
  {
    var r' := Finish(r, f);
    forall v | v in r'.heap && r'.heap[v].busy
      ensures exists g :: g in r'.flights && r'.flights[g].window == v
    {
      var g :| g in r.flights && r.flights[g].window == v;
      assert g in r'.flights;
    }
  }

  lemma {:induction false} FinishLog(r: Runner, f: Id)
    requires Linked(r) && LogMatches(r) && f in r.flights
    ensures LogMatches(Finish(r, f))
  {
    hide Sound;
    hide LastStart;
    hide BegunSinceStop;
  }

  lemma {:induction false} CaptureKeepsInv(r: Runner, f: Id, ok: bool, now: int)
    requires Inv(r) && f in r.flights
    ensures Inv(AfterCapture(r, f, ok, now))
  {
    if Publishes(r, f, ok, now) {
      PublishShape(r, f, ok, now);
      PublishFlights(r, f, ok, now);
      PublishLog(r, f, ok, now);
    } else {
      FinishKeepsInv(r, f);
    }
  }

  /** A capture is published only into the very window it was begun for, still open and unexpired. */
  predicate Publishes(r: Runner, f: Id, ok: bool, now: int)
    requires f in r.flights && r.flights[f].window in r.heap
  {
    var flight := r.flights[f];
    && ok
    && flight.session in r.windows && r.windows[flight.session] == flight.window
    && now < r.heap[flight.window].expiresAt
  }

  lemma {:induction false} PublishShape(r: Runner, f: Id, ok: bool, now: int)
    requires Shape(r) && f in r.flights && Publishes(r, f, ok, now)
    ensures Shape(AfterCapture(r, f, ok, now))
  {
  }

  lemma {:induction false} PublishFlights(r: Runner, f: Id, ok: bool, now: int)
    requires Linked(r) && OneFlightEach(r) && f in r.flights && Publishes(r, f, ok, now)
    ensures OneFlightEach(AfterCapture(r, f, ok, now))
  {
    var r' := AfterCapture(r, f, ok, now);
    assert forall g :: g in r'.flights <==> g in r.flights;
    assert forall g :: g in r.flights ==> r'.flights[g].window == r.flights[g].window;
    forall v | v in r'.heap && r'.heap[v].busy
      ensures exists g :: g in r'.flights && r'.flights[g].window == v
    {
      var g :| g in r.flights && r.flights[g].window == v;
      assert g in r'.flights;
    }
  }

  lemma {:induction false} PublishLog(r: Runner, f: Id, ok: bool, now: int)
    requires Linked(r) && LogMatches(r) && f in r.flights && Publishes(r, f, ok, now)
    ensures LogMatches(AfterCapture(r, f, ok, now))
  {
    hide Sound;
    hide LastStart;
    hide BegunSinceStop;
    var flight := r.flights[f];
    var e := PublishBegun(flight.session, flight.window, f, now, r.heap[flight.window].kasmId);
    LogGrows(r.log, e);
    SoundGrows(r.log, e);
  }

  /** Every step, in any order, keeps the invariant. */
  lemma {:induction false} StepKeepsInv(r: Runner, e: Event)
    requires Inv(r) && Possible(r, e)
    ensures Inv(Step(r, e))
  {
    hide Inv;
    match e
    case Start(c, now) => StartKeepsInv(r, c, now);
    case Stop(s) => StopKeepsInv(r, s);
    case TimerFired(t, now) => TickKeepsInv(r, r.timers[t].session, now);
    case CaptureDone(f, ok, now) => CaptureKeepsInv(r, f, ok, now);
    case PublishDone(f) => FinishKeepsInv(r, f);
  }

  // ---------- Whole runs ----------

  /** Every event of the run could happen when it did. */
  ghost predicate Feasible(r: Runner, events: seq<Event>)
    decreases |events|
  {
    events == [] ||
    (Linked(r) && Possible(r, events[0]) && Feasible(Step(r, events[0]), events[1..]))
  }

  ghost function Run(r: Runner, events: seq<Event>): Runner
    requires Feasible(r, events)
    decreases |events|
  {
    if events == [] then r else Run(Step(r, events[0]), events[1..])
  }

  lemma {:induction false} RunKeepsInv(r: Runner, events: seq<Event>)
    requires Inv(r) && Feasible(r, events)
    ensures Inv(Run(r, events))
    decreases |events|
  {
    hide Inv;
    hide Step;
    hide Linked;
    if events != [] {
      StepKeepsInv(r, events[0]);
      RunKeepsInv(Step(r, events[0]), events[1..]);
    }
  }

  lemma {:induction false} IdleIsFine()
    ensures Inv(IDLE)
  {
  }

  /** No stop of `s` strictly between the two places. */
  predicate NoStopBetween(log: seq<Entry>, s: Session, from: int, to: int) {
    forall k :: from < k < to && 0 <= k < |log| ==> log[k] != Stopped(s)
  }

  lemma {:induction false} LastStartIsAStart(log: seq<Entry>, s: Session) returns (j: nat)
    requires LastStart(log, s).Some?
    ensures j < |log| && log[j] == LastStart(log, s).value && NoStopBetween(log, s, j, |log|)
  {
    var n := |log| - 1;
    if log[n].Started? && log[n].command.session == s {
      j := n;
    } else {
      j := LastStartIsAStart(log[..n], s);
      assert forall k :: j < k < n ==> log[k] == log[..n][k];
    }
  }

  lemma {:induction false} BegunIsACapture(log: seq<Entry>, s: Session, w: Id, f: Id) returns (k: nat)
    requires BegunSinceStop(log, s, w, f)
    ensures k < |log| && NoStopBetween(log, s, k, |log|)
    ensures log[k].CaptureBegun? && log[k].session == s && log[k].window == w && log[k].flight == f
  {
    var n := |log| - 1;
    if log[n].CaptureBegun? && log[n].session == s && log[n].window == w && log[n].flight == f {
      k := n;
    } else {
      k := BegunIsACapture(log[..n], s, w, f);
      assert forall m :: k < m < n ==> log[m] == log[..n][m];
    }
  }

  /** An accepted start before the entry asked for just this, its deadline not passed and no stop in between. */
  ghost predicate AskedFor(log: seq<Entry>, i: nat)
    requires i < |log| && (log[i].CaptureBegun? || log[i].PublishBegun?)
  {
    exists j :: 0 <= j < i && log[j].Started? && log[j].command.session == log[i].session &&
                log[i].at < Deadline(log[j].command, log[j].at) && NoStopBetween(log, log[i].session, j, i) &&
                (log[i].CaptureBegun? ==>
                   log[i].container == log[j].command.container && log[i].thumbWidth == Thumb(log[j].command)) &&
                (log[i].PublishBegun? ==> log[i].kasmId == log[j].command.kasmId)
  }

  /** The capture behind a publish: same window object, with no stop in between. */
  ghost predicate StillWatched(log: seq<Entry>, i: nat)
    requires i < |log| && log[i].PublishBegun?
  {
    exists k :: 0 <= k < i && log[k].CaptureBegun? && log[k].session == log[i].session &&
                log[k].window == log[i].window && log[k].flight == log[i].flight &&
                NoStopBetween(log, log[i].session, k, i)
  }

  lemma {:induction false} SoundIsAskedFor(log: seq<Entry>, i: nat)
    requires Sound(log) && i < |log| && (log[i].CaptureBegun? || log[i].PublishBegun?)
    ensures AskedFor(log, i)
  {
    assert Justified(log[..i], log[i]);
    hide Sound;
    hide Justified;
    hide LastStart;
    var j := LastStartIsAStart(log[..i], log[i].session);
    assert forall k :: j < k < i ==> log[k] == log[..i][k];
    assert log[j] == log[..i][j];
  }

  lemma {:induction false} SoundIsStillWatched(log: seq<Entry>, i: nat)
    requires Sound(log) && i < |log| && log[i].PublishBegun?
    ensures StillWatched(log, i)
  {
    assert Justified(log[..i], log[i]);
    hide Sound;
    hide Justified;
    hide BegunSinceStop;
    var k := BegunIsACapture(log[..i], log[i].session, log[i].window, log[i].flight);
    assert forall m :: k < m < i ==> log[m] == log[..i][m];
    assert log[k] == log[..i][k];
  }

  lemma {:induction false} DeadlinesAreNear()
    ensures forall c, at :: Deadline(c, at) <= at + MAX_TTL_MS
  {
  }

  lemma {:induction false} RunIsSound(events: seq<Event>)
    requires Feasible(IDLE, events)
    ensures Sound(Run(IDLE, events).log)
  {
    hide Shape;
    hide OneFlightEach;
    hide Run;
    hide Feasible;
    IdleIsFine();
    RunKeepsInv(IDLE, events);
  }

  /**
    The dead man's switch, over every run: before a capture or a publish there is an accepted
    start of its session that asked for it, with no stop in between and its deadline not passed,
    so less than ten minutes earlier.
   */
  lemma {:induction false} OnlyWhileAskedFor(events: seq<Event>)
    requires Feasible(IDLE, events)
    ensures var log := Run(IDLE, events).log;
            && (forall i :: 0 <= i < |log| && (log[i].CaptureBegun? || log[i].PublishBegun?) ==> AskedFor(log, i))
            && (forall c, at :: Deadline(c, at) <= at + MAX_TTL_MS)
  {
    DeadlinesAreNear();
    hide *;
    RunIsSound(events);
    var log := Run(IDLE, events).log;
    forall i | 0 <= i < |log| && (log[i].CaptureBegun? || log[i].PublishBegun?)
      ensures AskedFor(log, i)
    {
      SoundIsAskedFor(log, i);
    }
  }

  /**
    Nothing is published after the notice said that observation ended: the capture behind a
    publish was begun for the same window object with no stop of the session in between, whether
    or not the session was started again.
   */
  lemma {:induction false} NeverPublishedAfterAStop(events: seq<Event>)
    requires Feasible(IDLE, events)
    ensures var log := Run(IDLE, events).log;
            forall i :: 0 <= i < |log| && log[i].PublishBegun? ==> StillWatched(log, i)
  {
    hide *;
    RunIsSound(events);
    var log := Run(IDLE, events).log;
    forall i | 0 <= i < |log| && log[i].PublishBegun?
      ensures StillWatched(log, i)
    {
      SoundIsStillWatched(log, i);
    }
  }

  // ---------- What a start, a tick and the end of a window do ----------

  /** A capture or a publish of the session begins. */
  predicate Watches(e: Entry, s: Session) {
    (e.CaptureBegun? || e.PublishBegun?) && e.session == s
  }

  /** A stop, a start with interval zero, and a tick at or past the deadline end the session's window. */
  predicate Ends(r: Runner, e: Event, s: Session)
    requires s in r.windows ==> r.windows[s] in r.heap
  {
    || e == Stop(s)
    || (e.Start? && e.command.session == s && e.command.kasmId != "" && e.command.intervalMs == Finite(0.0))
    || (&& e.TimerFired? && e.timer in r.timers && r.timers[e.timer].session == s
        && s in r.windows && e.now >= r.heap[r.windows[s]].expiresAt)
  }

  /** Nothing in the runner would look at this session. */
  ghost predicate Unwatched(r: Runner, s: Session) {
    s !in r.windows && forall t :: t in r.timers ==> r.timers[t].session != s
  }

  lemma {:induction false} EndUnwatches(r: Runner, e: Event, s: Session)
    requires Shape(r) && Possible(r, e) && Ends(r, e, s)
    ensures Unwatched(Step(r, e), s)
    ensures r.log <= Step(r, e).log && forall i :: |r.log| <= i < |Step(r, e).log| ==> !Watches(Step(r, e).log[i], s)
  {
    hide IdsFresh;
    hide InRange;
  }

  lemma {:induction false} StepStaysUnwatched(r: Runner, e: Event, s: Session)
    requires Linked(r) && Possible(r, e) && Unwatched(r, s) && !(e.Start? && e.command.session == s)
    ensures Unwatched(Step(r, e), s)
    ensures r.log <= Step(r, e).log && forall i :: |r.log| <= i < |Step(r, e).log| ==> !Watches(Step(r, e).log[i], s)
  {
    hide Interval;
    hide Thumb;
    hide Deadline;
    match e
    case Start(c, now) => StartElsewhere(r, c, now, s);
    case Stop(other) => hide BeginTick; hide StartWindow; hide AfterCapture;
    case TimerFired(t, now) => hide StartWindow; hide AfterCapture;
    case CaptureDone(f, ok, now) => hide BeginTick; hide StartWindow; hide StopWindow;
    case PublishDone(f) => hide BeginTick; hide StartWindow; hide AfterCapture;
  }

  lemma {:induction false} StartElsewhere(r: Runner, c: Command, now: int, s: Session)
    requires Linked(r) && Unwatched(r, s) && c.session != s
    ensures var r' := StartWindow(r, c, now).0;
            && Unwatched(r', s)
            && r.log <= r'.log && forall i :: |r.log| <= i < |r'.log| ==> !Watches(r'.log[i], s)
  {
    hide Interval;
    hide Thumb;
    hide Deadline;
    if c.session in r.windows {
      hide BeginTick;
      hide OpenWindow;
    } else {
      hide RenewWindow;
    }
  }

  lemma {:induction false} StaysUnwatched(r: Runner, events: seq<Event>, s: Session)
    requires Feasible(r, events) && Unwatched(r, s)
    requires forall i :: 0 <= i < |events| ==> !(events[i].Start? && events[i].command.session == s)
    ensures var r' := Run(r, events);
            && Unwatched(r', s)
            && r.log <= r'.log && forall i :: |r.log| <= i < |r'.log| ==> !Watches(r'.log[i], s)
    decreases |events|
  {
    hide Step;
    hide Linked;
    hide Possible;
    hide Unwatched;
    if events != [] {
      StepStaysUnwatched(r, events[0], s);
      StaysUnwatched(Step(r, events[0]), events[1..], s);
      var r1, r' := Step(r, events[0]), Run(r, events);
      assert forall i :: |r.log| <= i < |r1.log| ==> r'.log[i] == r1.log[i];
    }
  }

  /**
    From the event that ends a session's window on, whatever came before it and whatever captures
    are in flight: until the session is started again it has no window and no timer, and nothing
    of it is captured or published.
   */
  lemma {:induction false} NothingAfterTheEnd(before: seq<Event>, e: Event, after: seq<Event>, s: Session)
    requires Feasible(IDLE, before)
    requires var r := Run(IDLE, before);
             Linked(r) && Possible(r, e) && Ends(r, e, s) && Feasible(Step(r, e), after)
    requires forall i :: 0 <= i < |after| ==> !(after[i].Start? && after[i].command.session == s)
    ensures var r := Run(IDLE, before);
            var r' := Run(Step(r, e), after);
            && Unwatched(r', s)
            && r.log <= r'.log && forall i :: |r.log| <= i < |r'.log| ==> !Watches(r'.log[i], s)
  {
    IdleIsFine();
    RunKeepsInv(IDLE, before);
    hide Feasible;
    hide Run;
    hide Step;
    hide Possible;
    hide Ends;
    var r := Run(IDLE, before);
    EndUnwatches(r, e, s);
    StaysUnwatched(Step(r, e), after, s);
    var r1, r' := Step(r, e), Run(Step(r, e), after);
    assert forall i :: |r.log| <= i < |r1.log| ==> r'.log[i] == r1.log[i];
  }

  /** What an accepted start leaves: the session's one window, with what was asked for, and its timer. */
  ghost predicate OpenAsAsked(r: Runner, c: Command, now: int) {
    && c.session in r.windows && r.windows[c.session] in r.heap
    && var window := r.heap[r.windows[c.session]];
    && window.kasmId == c.kasmId && window.container == c.container
    && window.intervalMs == Interval(c) && window.thumbWidth == Thumb(c) && window.expiresAt == Deadline(c, now)
    && window.timer in r.timers && r.timers[window.timer] == Timer(c.session, Interval(c))
  }

  /**
    Every start with a kasmId and an interval is accepted. The first opens a window and captures
    at once; a renewal keeps the window object, its flight, and its timer if the interval is the
    same, and captures nothing by itself.
   */
  lemma {:induction false} StartOpens(events: seq<Event>, c: Command, now: int)
    requires Feasible(IDLE, events) && c.kasmId != "" && c.intervalMs != Finite(0.0)
    ensures Linked(Run(IDLE, events))
    ensures var r := Run(IDLE, events);
            var (r', isNew) := StartWindow(r, c, now);
            && OpenAsAsked(r', c, now)
            && (isNew <==> c.session !in r.windows)
            && (if isNew then OpensAfresh(r, r', c, now) else Renews(r, r', c, now))
  {
    IdleIsFine();
    hide LogMatches;
    hide OneFlightEach;
    hide Feasible;
    hide Run;
    RunKeepsInv(IDLE, events);
    var r := Run(IDLE, events);
    if c.session in r.windows {
      StartRenews(r, c, now);
    } else {
      StartsAfresh(r, c, now);
    }
    hide StartWindow;
    hide OpenAsAsked;
    hide OpensAfresh;
    hide Renews;
  }

  /** A window object that was not there before, with a capture begun at once. */
  ghost predicate OpensAfresh(r: Runner, r': Runner, c: Command, now: int) {
    && c.session in r'.windows && r'.nextId > 0
    && var w := r'.windows[c.session];
    && w !in r.heap
    && r'.log == r.log + [Started(c, now), CaptureBegun(c.session, w, r'.nextId - 1, now, c.container, Thumb(c))]
  }

  /** The window object as it was in the map, with its flight, and its timer if the interval is the same. */
  ghost predicate Renews(r: Runner, r': Runner, c: Command, now: int) {
    && r'.windows == r.windows && r'.flights == r.flights && r'.log == r.log + [Started(c, now)]
    && c.session in r.windows
    && var w := r.windows[c.session];
    && w in r.heap && w in r'.heap
    && r'.heap[w].busy == r.heap[w].busy
    && (r'.heap[w].timer == r.heap[w].timer <==> r.heap[w].intervalMs == Interval(c))
  }

  lemma {:induction false} StartsAfresh(r: Runner, c: Command, now: int)
    requires Linked(r) && IdsFresh(r) && c.kasmId != "" && c.intervalMs != Finite(0.0) && c.session !in r.windows
    ensures var (r', isNew) := StartWindow(r, c, now); isNew && OpenAsAsked(r', c, now) && OpensAfresh(r, r', c, now)
  {
    DeadlinesAreAhead(c, now);
    hide Bounded;
    hide Interval;
    hide Thumb;
    hide Deadline;
  }

  lemma {:induction false} StartRenews(r: Runner, c: Command, now: int)
    requires Linked(r) && IdsFresh(r) && TimersMatch(r)
    requires c.kasmId != "" && c.intervalMs != Finite(0.0) && c.session in r.windows
    ensures var (r', isNew) := StartWindow(r, c, now); !isNew && OpenAsAsked(r', c, now) && Renews(r, r', c, now)
  {
    hide Bounded;
    hide Interval;
    hide Thumb;
    hide Deadline;
    assert r.heap[r.windows[c.session]].timer in r.timers;
  }

  lemma {:induction false} DeadlinesAreAhead(c: Command, now: int)
    ensures now < Deadline(c, now)
  {
  }

  /** A start that names no kasmId changes nothing at all, and none with interval zero opens a window. */
  lemma {:induction false} StartRefused(r: Runner, c: Command, now: int)
    requires Linked(r)
    ensures c.kasmId == "" ==> StartWindow(r, c, now) == (r, false)
    ensures c.intervalMs == Finite(0.0) ==> !StartWindow(r, c, now).1
    ensures c.intervalMs == Finite(0.0) ==> StartWindow(r, c, now).0.windows.Keys <= r.windows.Keys
  {
  }

  /** A tick captures exactly if nothing of its window is in flight and the last start still holds. */
  lemma {:induction false} TickCapturesExactly(events: seq<Event>, t: Id, now: int)
    requires Feasible(IDLE, events) && t in Run(IDLE, events).timers
    ensures Linked(Run(IDLE, events))
    ensures var r := Run(IDLE, events);
            var s := r.timers[t].session;
            var start := LastStart(r.log, s);
            && start.Some? && s in r.windows
            && var w := r.windows[s];
            && (now < Deadline(start.value.command, start.value.at) && !(exists f :: f in r.flights && r.flights[f].window == w)
                <==> (exists f :: f in BeginTick(r, s, now).flights && f !in r.flights))
            && (forall f :: f in BeginTick(r, s, now).flights && f !in r.flights ==>
                  && BeginTick(r, s, now).flights[f] == Flight(s, w, false)
                  && BeginTick(r, s, now).log == r.log +
                     [CaptureBegun(s, w, f, now, start.value.command.container, Thumb(start.value.command))])
  {
    hide Sound;
    hide Feasible;
    hide Run;
    hide LastStart;
    hide BegunSinceStop;
    IdleIsFine();
    RunKeepsInv(IDLE, events);
    var r := Run(IDLE, events);
    var s := r.timers[t].session;
    var r' := BeginTick(r, s, now);
    if now < r.heap[r.windows[s]].expiresAt && !r.heap[r.windows[s]].busy {
      assert r.nextId in r'.flights && r.nextId !in r.flights;
    }
  }

  /**
    A settled capture is published exactly if it succeeded, its window is still the session's
    own, and the last start still holds; otherwise it lands.
   */
  lemma {:induction false} CapturePublishesExactly(events: seq<Event>, f: Id, ok: bool, now: int)
    requires Feasible(IDLE, events) && f in Run(IDLE, events).flights
    ensures Linked(Run(IDLE, events))
    ensures var r := Run(IDLE, events);
            var flight := r.flights[f];
            var start := LastStart(r.log, flight.session);
            var r' := AfterCapture(r, f, ok, now);
            && (ok && start.Some? && now < Deadline(start.value.command, start.value.at)
                && flight.session in r.windows && r.windows[flight.session] == flight.window
                <==> f in r'.flights)
            && (f in r'.flights ==>
                  && r'.flights == r.flights[f := flight.(publishing := true)]
                  && r'.log == r.log + [PublishBegun(flight.session, flight.window, f, now, start.value.command.kasmId)])
            && (f !in r'.flights ==> r'.log == r.log && flight.window in r'.heap && !r'.heap[flight.window].busy)
            && r'.windows == r.windows && r'.timers == r.timers
  {
    hide Sound;
    hide Feasible;
    hide Run;
    hide LastStart;
    hide BegunSinceStop;
    hide OneFlightEach;
    IdleIsFine();
    RunKeepsInv(IDLE, events);
  }

  /** In every reachable state: one flight per window object, and timers one to one with open windows. */
  lemma {:induction false} OneFlightAndOneTimer(events: seq<Event>)
    requires Feasible(IDLE, events)
    ensures var r := Run(IDLE, events);
            && (forall f, g :: f in r.flights && g in r.flights && r.flights[f].window == r.flights[g].window ==> f == g)
            && (forall w :: w in r.heap ==> (r.heap[w].busy <==> exists f :: f in r.flights && r.flights[f].window == w))
            && (forall t :: t in r.timers <==> exists s :: s in r.windows && r.windows[s] in r.heap && r.heap[r.windows[s]].timer == t)
            && |r.timers| == |r.windows|
  {
    hide LogMatches;
    hide Run;
    hide Feasible;
    IdleIsFine();
    RunKeepsInv(IDLE, events);
    var r := Run(IDLE, events);
    forall t | t in r.timers
      ensures exists s :: s in r.windows && r.windows[s] in r.heap && r.heap[r.windows[s]].timer == t
    {
      assert r.heap[r.windows[r.timers[t].session]].timer == t;
    }
    SameSize(r);
  }

  lemma {:induction false} SameSize(r: Runner)
    requires TimersMatch(r)
    ensures |r.timers| == |r.windows|
  {
    var sessions := set t | t in r.timers :: r.timers[t].session;
    assert sessions == r.windows.Keys by {
      forall s | s in r.windows
        ensures s in sessions
      {
        assert r.timers[r.heap[r.windows[s]].timer].session == s;
      }
    }
    InjectiveImage(r.timers.Keys, t requires t in r.timers => r.timers[t].session, sessions);
    assert |r.timers| == |r.timers.Keys| && |r.windows| == |r.windows.Keys|;
  }

  lemma {:induction false} InjectiveImage(keys: set<Id>, f: Id --> Session, image: set<Session>)
    requires forall t :: t in keys ==> f.requires(t)
    requires forall t, u :: t in keys && u in keys && f(t) == f(u) ==> t == u
    requires image == set t | t in keys :: f(t)
    ensures |image| == |keys|
    decreases |keys|
  {
    if keys != {} {
      var t :| t in keys;
      var rest := keys - {t};
      var smaller := set u | u in rest :: f(u);
      assert image == smaller + {f(t)};
      InjectiveImage(rest, f, smaller);
    }
  }
}
