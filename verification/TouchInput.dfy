/**
  Touches turned into mouse states: one finger clicks, right-clicks or drags, two fingers zoom,
  pan or drive the wheel. Distances are compared through their squares; where a point lands on the
  remote desktop, zooming and panning are left to the page.
 */
module TouchInput {
  const TAP_SLOP := 12.0
  const WHEEL_NOTCH_PX := 44.0
  const PINCH_THRESHOLD := 0.12

  datatype Point = Point(x: real, y: real)

  datatype Mouse = Mouse(at: Point, left: bool, middle: bool, right: bool, up: bool, down: bool)

  datatype Committed = Nothing | Drag | LongPress

  datatype Gesture = Undecided | Zoom | Pan | Wheel

  datatype Input = Input(
    start: Point,
    last: Point,
    pointerActive: bool,
    committed: Committed,
    timerArmed: bool,
    gesture: Gesture,
    gestureStarted: bool,
    startSpread: real,
    lastCentre: Point,
    wheelAccum: real,
    sent: seq<Mouse>)

  const ATTACHED :=
    Input(Point(0.0, 0.0), Point(0.0, 0.0), false, Nothing, false, Undecided, false, 0.0, Point(0.0, 0.0), 0.0, [])

  /**
    The lists name every finger on the glass, also those on other elements, which raise no event
    here: `Elsewhere` says how many those are from now on. `canPan`: does the page have anything
    to scroll at that moment?
   */
  datatype Event =
    | TouchStart(fingers: seq<Point>)
    | TouchMove(fingers: seq<Point>, canPan: bool)
    | TouchEnd(fingers: seq<Point>)
    | Elsewhere(others: nat)
    | TimerFired

  // ---------- Geometry ----------

  function Product(x: real, y: real): real {
    x * y
  }

  function Square(x: real): real {
    Product(x, x)
  }

  /** The square of the distance. */
  function Spread(a: Point, b: Point): real {
    Square(a.x - b.x) + Square(a.y - b.y)
  }

  /** The square of `dist(a, b) || 1`. */
  function FingerSpread(a: Point, b: Point): real {
    if Spread(a, b) == 0.0 then 1.0 else Spread(a, b)
  }

  function Centre(a: Point, b: Point): Point {
    Point((a.x + b.x) / 2.0, (a.y + b.y) / 2.0)
  }

  /** A point `r` away, in whatever direction, is at spread `r * r`. */
  lemma {:induction false} SpreadOfDistance(a: Point, r: real, cos: real, sin: real)
    requires cos * cos + sin * sin == 1.0
    ensures Spread(a, Point(a.x + r * cos, a.y + r * sin)) == r * r
    ensures Spread(Point(a.x + r * cos, a.y + r * sin), a) == r * r
  {
    var (dx, dy) := (r * cos, r * sin);
    assert dx * dx + dy * dy == r * r * (cos * cos + sin * sin);
  }

  /** Fingers on one spot count as one pixel apart, so that there is always a ratio to compare with. */
  lemma {:induction false} FingersAreApart(a: Point, b: Point)
    ensures FingerSpread(a, b) == if a == b then 1.0 else Spread(a, b)
    ensures FingerSpread(a, b) > 0.0
  {
    hide Square;
    SquareOfNonZero(a.x - b.x);
    SquareOfNonZero(a.y - b.y);
  }

  lemma {:induction false} ProductPositive(x: real, y: real)
    requires x > 0.0 && y > 0.0
    ensures Product(x, y) > 0.0
  {
  }

  lemma {:induction false} SquareOfNonZero(x: real)
    ensures if x == 0.0 then Square(x) == 0.0 else Square(x) > 0.0
  {
    if x > 0.0 {
      ProductPositive(x, x);
    } else if x < 0.0 {
      ProductPositive(0.0 - x, 0.0 - x);
      assert Product(0.0 - x, 0.0 - x) == Product(x, x);
    }
  }

  /** The centre is as far from one finger as from the other, and between them. */
  lemma {:induction false} CentreIsBetween(a: Point, b: Point)
    ensures var c := Centre(a, b); c.x - a.x == b.x - c.x && c.y - a.y == b.y - c.y
  {
  }

  /** |ratio - 1| > PINCH_THRESHOLD, for the ratio of two distances given by their squares. */
  predicate Pinched(spread: real, startSpread: real) {
    || spread > (1.0 + PINCH_THRESHOLD) * (1.0 + PINCH_THRESHOLD) * startSpread
    || spread < (1.0 - PINCH_THRESHOLD) * (1.0 - PINCH_THRESHOLD) * startSpread
  }

  function Abs(r: real): real {
    if r < 0.0 then -r else r
  }

  // ---------- Mouse states ----------

  function Idle(p: Point): Mouse {
    Mouse(p, false, false, false, false, false)
  }

  function Held(p: Point): Mouse {
    Idle(p).(left := true)
  }

  function LeftClickAt(p: Point): seq<Mouse> {
    [Idle(p), Held(p), Idle(p)]
  }

  function RightClickAt(p: Point): seq<Mouse> {
    [Idle(p), Idle(p).(right := true), Idle(p)]
  }

  /** One notch: dragging the content down scrolls up. */
  function NotchAt(p: Point, down: bool): seq<Mouse> {
    [if down then Idle(p).(down := true) else Idle(p).(up := true), Idle(p)]
  }

  // ---------- The wheel ----------

  function NotchesLeft(accum: real): nat {
    (Abs(accum) / WHEEL_NOTCH_PX).Floor
  }

  lemma {:induction false} NotchTaken(accum: real)
    requires Abs(accum) >= WHEEL_NOTCH_PX
    ensures var rest := if accum < 0.0 then accum + WHEEL_NOTCH_PX else accum - WHEEL_NOTCH_PX;
            NotchesLeft(rest) < NotchesLeft(accum)
  {
    var rest := if accum < 0.0 then accum + WHEEL_NOTCH_PX else accum - WHEEL_NOTCH_PX;
    assert Abs(rest) == Abs(accum) - WHEEL_NOTCH_PX;
    assert Abs(rest) / WHEEL_NOTCH_PX == Abs(accum) / WHEEL_NOTCH_PX - 1.0;
  }

  function WheelSends(accum: real, at: Point): seq<Mouse>
    decreases NotchesLeft(accum)
  {
    if Abs(accum) < WHEEL_NOTCH_PX then []
    else
      NotchTaken(accum);
      NotchAt(at, accum < 0.0) + WheelSends(if accum < 0.0 then accum + WHEEL_NOTCH_PX else accum - WHEEL_NOTCH_PX, at)
  }

  function WheelRest(accum: real): real
    decreases NotchesLeft(accum)
  {
    if Abs(accum) < WHEEL_NOTCH_PX then accum
    else
      NotchTaken(accum);
      WheelRest(if accum < 0.0 then accum + WHEEL_NOTCH_PX else accum - WHEEL_NOTCH_PX)
  }

  /** Notches up minus notches down. */
  function Scrolled(sent: seq<Mouse>): int {
    if sent == [] then 0
    else (if sent[0].up then 1 else 0) - (if sent[0].down then 1 else 0) + Scrolled(sent[1..])
  }

  lemma {:induction false} ScrolledAppend(a: seq<Mouse>, b: seq<Mouse>)
    ensures Scrolled(a + b) == Scrolled(a) + Scrolled(b)
  {
    if a == [] {
      assert a + b == b;
    } else {
      assert (a + b)[1..] == a[1..] + b;
      ScrolledAppend(a[1..], b);
    }
  }

  lemma {:induction false} ScrolledNotch(p: Point, down: bool)
    ensures Scrolled(NotchAt(p, down)) == if down then -1 else 1
  {
    assert NotchAt(p, down)[1..] == [Idle(p)];
    assert Scrolled([Idle(p)]) == Scrolled([]) by {
      assert [Idle(p)][1..] == [];
    }
  }

  /** What the loop scrolls and what it leaves account for the whole travel, and less than a notch is left. */
  lemma {:induction false} WheelConserves(accum: real, at: Point)
    ensures WHEEL_NOTCH_PX * Scrolled(WheelSends(accum, at)) as real + WheelRest(accum) == accum
    ensures Abs(WheelRest(accum)) < WHEEL_NOTCH_PX
    ensures WheelSends(accum, at) != [] ==> WheelSends(accum, at)[|WheelSends(accum, at)| - 1] == Idle(at)
    decreases NotchesLeft(accum)
  {
    if Abs(accum) >= WHEEL_NOTCH_PX {
      NotchTaken(accum);
      var rest := if accum < 0.0 then accum + WHEEL_NOTCH_PX else accum - WHEEL_NOTCH_PX;
      WheelConserves(rest, at);
      ScrolledNotch(at, accum < 0.0);
      ScrolledAppend(NotchAt(at, accum < 0.0), WheelSends(rest, at));
    }
  }

  // ---------- Handlers ----------

  function ReleasePointer(t: Input): Input {
    t.(timerArmed := false,
       sent := if t.committed == Drag then t.sent + [Idle(t.last)] else t.sent,
       pointerActive := false,
       committed := Nothing)
  }

  function OnStart(t: Input, fingers: seq<Point>): Input {
    if |fingers| == 1 then
      t.(pointerActive := true, committed := Nothing, start := fingers[0], last := fingers[0], timerArmed := true)
    else if |fingers| >= 2 then
      ReleasePointer(t).(
        gesture := Undecided,
        gestureStarted := true,
        startSpread := FingerSpread(fingers[0], fingers[1]),
        lastCentre := Centre(fingers[0], fingers[1]),
        wheelAccum := 0.0)
    else t
  }

  function Decide(t: Input, a: Point, b: Point, canPan: bool): Gesture {
    if t.gesture != Undecided then t.gesture
    else if Pinched(FingerSpread(a, b), t.startSpread) then Zoom
    else if Spread(Centre(a, b), t.lastCentre) > TAP_SLOP * TAP_SLOP then (if canPan then Pan else Wheel)
    else Undecided
  }

  function OnTwoFingers(t: Input, a: Point, b: Point, canPan: bool): Input {
    var centre := Centre(a, b);
    var gesture := Decide(t, a, b, canPan);
    if gesture == Undecided then t
    else if gesture == Wheel then
      var accum := t.wheelAccum + (centre.y - t.lastCentre.y);
      t.(gesture := Wheel,
         wheelAccum := WheelRest(accum),
         sent := t.sent + WheelSends(accum, centre),
         lastCentre := centre)
    else t.(gesture := gesture, lastCentre := centre)
  }

  function OnOneFinger(t: Input, p: Point): Input {
    var moved := t.(last := p);
    if t.committed == LongPress then moved
    else if t.committed == Nothing && Spread(p, t.start) < TAP_SLOP * TAP_SLOP then moved
    else if t.committed == Nothing then
      moved.(timerArmed := false, committed := Drag, sent := t.sent + [Idle(t.start), Held(t.start), Held(p)])
    else moved.(sent := t.sent + [Held(p)])
  }

  function OnMove(t: Input, fingers: seq<Point>, canPan: bool): Input {
    if t.gestureStarted && |fingers| >= 2 then OnTwoFingers(t, fingers[0], fingers[1], canPan)
    else if !t.pointerActive || |fingers| != 1 then t
    else OnOneFinger(t, fingers[0])
  }

  function OnEnd(t: Input, fingers: seq<Point>): Input {
    if |fingers| == 0 then
      var ended := t.(gestureStarted := false, gesture := Undecided);
      if !t.pointerActive then ended
      else
        ended.(timerArmed := false,
               sent := if t.committed == Drag then t.sent + [Idle(t.last)]
                       else if t.committed == Nothing then t.sent + LeftClickAt(t.start)
                       else t.sent,
               pointerActive := false,
               committed := Nothing)
    else if |fingers| == 1 && t.gestureStarted then
      t.(gestureStarted := false, gesture := Undecided, pointerActive := false, committed := Nothing)
    else t
  }

  function OnTimer(t: Input): Input {
    if !t.pointerActive || t.committed != Nothing then t.(timerArmed := false)
    else t.(timerArmed := false, committed := LongPress, sent := t.sent + RightClickAt(t.last))
  }

  function Step(t: Input, e: Event): Input {
    match e
    case TouchStart(fingers) => OnStart(t, fingers)
    case TouchMove(fingers, canPan) => OnMove(t, fingers, canPan)
    case TouchEnd(fingers) => OnEnd(t, fingers)
    case Elsewhere(_) => t
    case TimerFired => OnTimer(t)
  }

  function Run(t: Input, events: seq<Event>): Input
    decreases |events|
  {
    if events == [] then t else Run(Step(t, events[0]), events[1..])
  }

  // ---------- The handlers as they are written ----------

  class TouchListener {
    var start: Point
    var last: Point
    var pointerActive: bool
    var committed: Committed
    var timerArmed: bool
    var gesture: Gesture
    var gestureStarted: bool
    var startSpread: real
    var lastCentre: Point
    var wheelAccum: real
    var sent: seq<Mouse>

    function View(): Input
      reads this
    {
      Input(start, last, pointerActive, committed, timerArmed, gesture, gestureStarted, startSpread, lastCentre,
            wheelAccum, sent)
    }

    constructor ()
      ensures View() == ATTACHED
    {
      start, last, lastCentre := Point(0.0, 0.0), Point(0.0, 0.0), Point(0.0, 0.0);
      pointerActive, committed, timerArmed, gesture, gestureStarted := false, Nothing, false, Undecided, false;
      startSpread, wheelAccum, sent := 0.0, 0.0, [];
    }

    method Send(m: Mouse)
      modifies `sent
      ensures sent == old(sent) + [m]
    {
      sent := sent + [m];
    }

    method Click(p: Point, right: bool)
      modifies `sent
      ensures sent == old(sent) + if right then RightClickAt(p) else LeftClickAt(p)
    {
      Send(Idle(p));
      Send(if right then Idle(p).(right := true) else Held(p));
      Send(Idle(p));
    }

    method Release()
      modifies this
      ensures View() == ReleasePointer(old(View()))
    {
      timerArmed := false;
      if committed == Drag {
        Send(Idle(last));
      }
      pointerActive := false;
      committed := Nothing;
    }

    method OnTouchStart(fingers: seq<Point>)
      modifies this
      ensures View() == OnStart(old(View()), fingers)
    {
      if |fingers| == 1 {
        pointerActive, committed := true, Nothing;
        start, last := fingers[0], fingers[0];
        timerArmed := true;
        return;
      }
      if |fingers| >= 2 {
        Release();
        gesture, gestureStarted := Undecided, true;
        startSpread := FingerSpread(fingers[0], fingers[1]);
        lastCentre := Centre(fingers[0], fingers[1]);
        wheelAccum := 0.0;
      }
    }

    method OnTouchMove(fingers: seq<Point>, canPan: bool)
      modifies this
      ensures View() == OnMove(old(View()), fingers, canPan)
    {
      hide Pinched;
      hide Spread;
      hide FingerSpread;
      hide Centre;
      hide WheelRest;
      hide WheelSends;
      if gestureStarted && |fingers| >= 2 {
        var centre := Centre(fingers[0], fingers[1]);
        if gesture == Undecided {
          if Pinched(FingerSpread(fingers[0], fingers[1]), startSpread) {
            gesture := Zoom;
          } else if Spread(centre, lastCentre) > TAP_SLOP * TAP_SLOP {
            gesture := if canPan then Pan else Wheel;
          } else {
            return;
          }
        }
        if gesture == Wheel {
          wheelAccum := wheelAccum + (centre.y - lastCentre.y);
          TurnWheel(centre);
        }
        lastCentre := centre;
        return;
      }
      if !pointerActive || |fingers| != 1 {
        return;
      }
      last := fingers[0];
      if committed == LongPress {
        return;
      }
      if committed == Nothing {
        if Spread(last, start) < TAP_SLOP * TAP_SLOP {
          return;
        }
        timerArmed := false;
        committed := Drag;
        Send(Idle(start));
        Send(Held(start));
      }
      Send(Held(last));
    }

    method TurnWheel(centre: Point)
      modifies `wheelAccum, `sent
      ensures wheelAccum == WheelRest(old(wheelAccum))
      ensures sent == old(sent) + WheelSends(old(wheelAccum), centre)
    {
      while Abs(wheelAccum) >= WHEEL_NOTCH_PX
        invariant WheelRest(old(wheelAccum)) == WheelRest(wheelAccum)
        invariant old(sent) + WheelSends(old(wheelAccum), centre) == sent + WheelSends(wheelAccum, centre)
        decreases NotchesLeft(wheelAccum)
      {
        NotchTaken(wheelAccum);
        ghost var before := wheelAccum;
        var down := wheelAccum < 0.0;
        wheelAccum := wheelAccum + (if down then WHEEL_NOTCH_PX else -WHEEL_NOTCH_PX);
        ghost var sentBefore := sent;
        Send(if down then Idle(centre).(down := true) else Idle(centre).(up := true));
        Send(Idle(centre));
        assert sent == sentBefore + NotchAt(centre, down);
        assert sentBefore + WheelSends(before, centre) == sent + WheelSends(wheelAccum, centre);
      }
    }

    method OnTouchEnd(fingers: seq<Point>)
      modifies this
      ensures View() == OnEnd(old(View()), fingers)
    {
      if |fingers| == 0 {
        gestureStarted, gesture := false, Undecided;
        if pointerActive {
          timerArmed := false;
          if committed == Drag {
            Send(Idle(last));
          } else if committed == Nothing {
            Click(start, false);
          }
          pointerActive, committed := false, Nothing;
        }
        return;
      }
      if |fingers| == 1 && gestureStarted {
        gestureStarted, gesture := false, Undecided;
        pointerActive, committed := false, Nothing;
      }
    }

    method OnLongPressTimer()
      modifies this
      ensures View() == OnTimer(old(View()))
    {
      timerArmed := false;
      if !pointerActive || committed != Nothing {
        return;
      }
      committed := LongPress;
      Click(last, true);
    }

    /** Over a whole run the handlers do what the step functions say. */
    method Serve(events: seq<Event>)
      modifies this
      ensures View() == Run(old(View()), events)
      decreases |events|
    {
      hide OnStart;
      hide OnMove;
      hide OnEnd;
      hide OnTimer;
      if events != [] {
        match events[0] {
          case TouchStart(fingers) => OnTouchStart(fingers);
          case TouchMove(fingers, canPan) => OnTouchMove(fingers, canPan);
          case TouchEnd(fingers) => OnTouchEnd(fingers);
          case Elsewhere(_) =>
          case TimerFired => OnLongPressTimer();
        }
        Serve(events[1..]);
      }
    }
  }

  // ---------- Real finger counts ----------

  /** Fingers that landed on the element, and fingers elsewhere on the glass. */
  datatype Glass = Glass(here: nat, others: nat) {
    function All(): nat {
      here + others
    }
  }

  const UNTOUCHED := Glass(0, 0)

  /** Fingers land, move and lift, here or elsewhere; a cancelled timer does not fire. */
  predicate Consistent(t: Input, g: Glass, e: Event) {
    match e
    case TouchStart(fingers) => |fingers| > g.All()
    case TouchMove(fingers, _) => |fingers| == g.All() && g.here > 0
    case TouchEnd(fingers) => g.others <= |fingers| < g.All()
    case Elsewhere(_) => true
    case TimerFired => t.timerArmed
  }

  function GlassAfter(g: Glass, e: Event): (r: Glass)
    requires e.TouchStart? || e.TouchMove? || e.TouchEnd? ==> g.others <= |e.fingers|
  {
    match e
    case TimerFired => g
    case Elsewhere(others) => g.(others := others)
    case _ => g.(here := |e.fingers| - g.others)
  }

  predicate AllConsistent(t: Input, g: Glass, events: seq<Event>)
    decreases |events|
  {
    events == [] ||
    (Consistent(t, g, events[0]) && AllConsistent(Step(t, events[0]), GlassAfter(g, events[0]), events[1..]))
  }

  function FingersDown(t: Input, g: Glass, events: seq<Event>): Glass
    requires AllConsistent(t, g, events)
    decreases |events|
  {
    if events == [] then g else FingersDown(Step(t, events[0]), GlassAfter(g, events[0]), events[1..])
  }

  // ---------- Buttons ----------

  /** Does the last state sent hold the left button? */
  predicate HoldsLeft(t: Input) {
    t.sent != [] && t.sent[|t.sent| - 1].left
  }

  /** Whatever the last state sent holds, it is no other button. */
  predicate NoOtherButton(t: Input) {
    t.sent != [] ==> t.sent[|t.sent| - 1] == Idle(t.sent[|t.sent| - 1].at).(left := t.sent[|t.sent| - 1].left)
  }

  /** What holds in every run: a pointer is followed only while at most its own finger is down here. */
  predicate Base(t: Input, g: Glass) {
    && NoOtherButton(t)
    && (t.pointerActive ==> g.here <= 1)
    && (t.committed != Nothing ==> t.pointerActive)
    && Abs(t.wheelAccum) < WHEEL_NOTCH_PX
  }

  lemma {:induction false} StepKeepsBase(t: Input, g: Glass, e: Event)
    requires Base(t, g) && Consistent(t, g, e)
    ensures Base(Step(t, e), GlassAfter(g, e))
  {
    hide OnMove;
    hide Abs;
    if e.TouchMove? {
      MoveKeepsBase(t, g, e.fingers, e.canPan);
    } else {
      OtherKeepsNoButton(t, e);
      hide NoOtherButton;
      assert Abs(0.0) == 0.0 by {
        NoTravel();
      }
    }
  }

  lemma {:induction false} NoTravel()
    ensures Abs(0.0) == 0.0
  {
  }

  lemma {:induction false} OtherKeepsNoButton(t: Input, e: Event)
    requires NoOtherButton(t) && !e.TouchMove?
    ensures NoOtherButton(Step(t, e))
  {
    hide Spread;
    hide Centre;
  }

  lemma {:induction false} MoveKeepsBase(t: Input, g: Glass, fingers: seq<Point>, canPan: bool)
    requires Base(t, g) && |fingers| == g.All() && g.here > 0
    ensures Base(OnMove(t, fingers, canPan), g)
  {
    hide WheelSends;
    hide WheelRest;
    hide Decide;
    hide Spread;
    if t.gestureStarted && |fingers| >= 2 {
      var centre := Centre(fingers[0], fingers[1]);
      var accum := t.wheelAccum + (centre.y - t.lastCentre.y);
      WheelConserves(accum, centre);
      TwoFingersKeepNoButton(t, fingers[0], fingers[1], canPan);
      hide NoOtherButton;
    } else {
      hide OnTwoFingers;
    }
  }

  lemma {:induction false} TwoFingersKeepNoButton(t: Input, a: Point, b: Point, canPan: bool)
    requires NoOtherButton(t)
    ensures NoOtherButton(OnTwoFingers(t, a, b, canPan))
  {
    hide WheelSends;
    hide WheelRest;
    hide Decide;
    var centre := Centre(a, b);
    WheelConserves(t.wheelAccum + (centre.y - t.lastCentre.y), centre);
  }

  /** The handlers and the glass agree: left is held exactly while the one finger here drags. */
  predicate Inv(t: Input, g: Glass) {
    && Base(t, g)
    && (HoldsLeft(t) <==> t.committed == Drag)
    && (t.pointerActive ==> g.here == 1 && !t.gestureStarted)
    && (if t.gestureStarted then g.here > 0 else t.gesture == Undecided)
    && (t.timerArmed ==> t.pointerActive && t.committed == Nothing)
  }

  /** The last finger to lift from the element leaves the list its handler waits for. */
  predicate Graceful(t: Input, g: Glass, e: Event)
    requires Consistent(t, g, e)
  {
    e.TouchEnd? && GlassAfter(g, e).here == 0 ==>
      (t.pointerActive ==> |e.fingers| == 0) && (t.gestureStarted ==> |e.fingers| <= 1)
  }

  /** An event keeps the agreement exactly if it is graceful. */
  lemma {:induction false} StepKeepsInv(t: Input, g: Glass, e: Event)
    requires Inv(t, g) && Consistent(t, g, e)
    ensures Inv(Step(t, e), GlassAfter(g, e)) <==> Graceful(t, g, e)
  {
    StepKeepsBase(t, g, e);
    BaseFacts(t, g);
    hide Base;
    hide Abs;
    hide Centre;
    hide FingerSpread;
    hide Spread;
    if e.TouchMove? {
      MoveKeepsInv(t, g, e.fingers, e.canPan);
      hide OnMove;
    } else {
      hide OnMove;
    }
  }

  lemma {:induction false} BaseFacts(t: Input, g: Glass)
    requires Base(t, g)
    ensures (t.pointerActive ==> g.here <= 1) && (t.committed != Nothing ==> t.pointerActive)
  {
  }

  lemma {:induction false} MoveKeepsInv(t: Input, g: Glass, fingers: seq<Point>, canPan: bool)
    requires Inv(t, g) && |fingers| == g.All() && g.here > 0
    ensures Inv(OnMove(t, fingers, canPan), g)
  {
    MoveKeepsBase(t, g, fingers, canPan);
    BaseFacts(t, g);
    hide Base;
    hide Abs;
    hide Centre;
    hide FingerSpread;
    hide Spread;
    if t.gestureStarted && |fingers| >= 2 {
      TwoFingersPressNothing(t, fingers[0], fingers[1], canPan);
      hide HoldsLeft;
      hide Decide;
      hide WheelSends;
      hide WheelRest;
    } else {
      hide OnTwoFingers;
    }
  }

  predicate AllGraceful(t: Input, g: Glass, events: seq<Event>)
    requires AllConsistent(t, g, events)
    decreases |events|
  {
    events == [] ||
    (Graceful(t, g, events[0]) && AllGraceful(Step(t, events[0]), GlassAfter(g, events[0]), events[1..]))
  }

  /** With no finger elsewhere every event is graceful. */
  lemma {:induction false} NobodyElsewhere(t: Input, g: Glass, events: seq<Event>)
    requires AllConsistent(t, g, events) && g.others == 0
    requires forall i :: 0 <= i < |events| ==> !events[i].Elsewhere?
    ensures AllGraceful(t, g, events)
    decreases |events|
  {
    hide Step;
    if events != [] {
      NobodyElsewhere(Step(t, events[0]), GlassAfter(g, events[0]), events[1..]);
    }
  }

  /**
    After every graceful run left is held exactly while a drag is committed, and nothing else is;
    so nothing is held unless exactly one finger is on the element.
   */
  lemma {:induction false} ButtonsFollowTheDrag(events: seq<Event>)
    requires AllConsistent(ATTACHED, UNTOUCHED, events) && AllGraceful(ATTACHED, UNTOUCHED, events)
    ensures var t := Run(ATTACHED, events);
            && NoOtherButton(t)
            && (HoldsLeft(t) <==> t.committed == Drag)
            && (HoldsLeft(t) ==> FingersDown(ATTACHED, UNTOUCHED, events).here == 1)
  {
    AttachedIsFine();
    hide Step;
    hide Run;
    hide AllConsistent;
    hide AllGraceful;
    hide FingersDown;
    RunKeepsInv(ATTACHED, UNTOUCHED, events);
  }

  lemma {:induction false} AttachedIsFine()
    ensures Inv(ATTACHED, UNTOUCHED)
  {
  }

  lemma {:induction false} RunKeepsInv(t: Input, g: Glass, events: seq<Event>)
    requires Inv(t, g) && AllConsistent(t, g, events) && AllGraceful(t, g, events)
    ensures Inv(Run(t, events), FingersDown(t, g, events))
    decreases |events|
  {
    hide Inv;
    hide Step;
    hide Consistent;
    hide Graceful;
    if events != [] {
      StepKeepsInv(t, g, events[0]);
      RunKeepsInv(Step(t, events[0]), GlassAfter(g, events[0]), events[1..]);
    }
  }

  // ---------- When something stays pressed ----------

  /** The element hears that a finger lifted under a held button, and that others are still down. */
  predicate EndsUnreleased(t: Input, e: Event) {
    e.TouchEnd? && HoldsLeft(t) && e.fingers != []
  }

  predicate AlwaysReleased(t: Input, events: seq<Event>)
    decreases |events|
  {
    events == [] || (!EndsUnreleased(t, events[0]) && AlwaysReleased(Step(t, events[0]), events[1..]))
  }

  /** Now and after every event: with no finger on the element nothing is held. */
  predicate NeverStuck(t: Input, g: Glass, events: seq<Event>)
    requires AllConsistent(t, g, events)
    decreases |events|
  {
    && (g.here == 0 ==> !HoldsLeft(t))
    && (events == [] || NeverStuck(Step(t, events[0]), GlassAfter(g, events[0]), events[1..]))
  }

  predicate HeldByOne(t: Input, g: Glass) {
    Base(t, g) && (HoldsLeft(t) ==> t.committed == Drag && g.here == 1)
  }

  lemma {:induction false} HeldStep(t: Input, g: Glass, e: Event)
    requires HeldByOne(t, g) && Consistent(t, g, e)
    ensures !EndsUnreleased(t, e) ==> HeldByOne(Step(t, e), GlassAfter(g, e))
    ensures EndsUnreleased(t, e) ==> HoldsLeft(Step(t, e)) && GlassAfter(g, e).here == 0
  {
    hide Abs;
    hide Centre;
    hide FingerSpread;
    hide Spread;
    StepKeepsBase(t, g, e);
    if e.TouchMove? {
      MoveKeepsHeld(t, g, e.fingers, e.canPan);
    } else {
      OtherKeepsHeld(t, g, e);
    }
    hide Step;
    hide Base;
  }

  lemma {:induction false} OtherKeepsHeld(t: Input, g: Glass, e: Event)
    requires HeldByOne(t, g) && Consistent(t, g, e) && !e.TouchMove?
    ensures var t' := Step(t, e);
            && (!EndsUnreleased(t, e) && HoldsLeft(t') ==> t'.committed == Drag && GlassAfter(g, e).here == 1)
            && (EndsUnreleased(t, e) ==> HoldsLeft(t') && GlassAfter(g, e).here == 0)
  {
    hide Abs;
    hide Centre;
    hide FingerSpread;
    hide Spread;
    hide OnMove;
  }

  lemma {:induction false} MoveKeepsHeld(t: Input, g: Glass, fingers: seq<Point>, canPan: bool)
    requires HeldByOne(t, g) && |fingers| == g.All() && g.here > 0
    ensures var t' := OnMove(t, fingers, canPan); HoldsLeft(t') ==> t'.committed == Drag && g.here == 1
  {
    hide Abs;
    hide Centre;
    hide Spread;
    if t.gestureStarted && |fingers| >= 2 {
      TwoFingersPressNothing(t, fingers[0], fingers[1], canPan);
    }
    hide OnTwoFingers;
  }

  lemma {:induction false} TwoFingersPressNothing(t: Input, a: Point, b: Point, canPan: bool)
    ensures var t' := OnTwoFingers(t, a, b, canPan); t'.committed == t.committed && (HoldsLeft(t') ==> HoldsLeft(t))
  {
    hide WheelSends;
    hide WheelRest;
    hide Decide;
    var centre := Centre(a, b);
    WheelConserves(t.wheelAccum + (centre.y - t.lastCentre.y), centre);
  }

  /**
    Over every run: nothing is ever held without a finger on the element if and only if no finger
    lifts under a held button while another is anywhere on the glass.
   */
  lemma {:induction false} NothingStaysPressed(events: seq<Event>)
    requires AllConsistent(ATTACHED, UNTOUCHED, events)
    ensures NeverStuck(ATTACHED, UNTOUCHED, events) <==> AlwaysReleased(ATTACHED, events)
  {
    AttachedIsFine();
    hide Step;
    hide AllConsistent;
    hide NeverStuck;
    hide AlwaysReleased;
    StuckExactly(ATTACHED, UNTOUCHED, events);
  }

  lemma {:induction false} StuckExactly(t: Input, g: Glass, events: seq<Event>)
    requires HeldByOne(t, g) && AllConsistent(t, g, events)
    ensures NeverStuck(t, g, events) <==> AlwaysReleased(t, events)
    decreases |events|
  {
    hide Base;
    hide Step;
    hide Consistent;
    if events != [] {
      HeldStep(t, g, events[0]);
      if !EndsUnreleased(t, events[0]) {
        StuckExactly(Step(t, events[0]), GlassAfter(g, events[0]), events[1..]);
      }
    }
  }

  /** Under a committed drag the end of a touch releases left if and only if no finger is left anywhere. */
  lemma {:induction false} EndReleasesExactly(t: Input, g: Glass, fingers: seq<Point>)
    requires Inv(t, g) && t.committed == Drag && Consistent(t, g, TouchEnd(fingers))
    ensures !HoldsLeft(OnEnd(t, fingers)) <==> fingers == []
    ensures GlassAfter(g, TouchEnd(fingers)).here == 0
  {
  }

  /** A further finger lets go of a held button where the first one was last, and otherwise sends nothing. */
  lemma {:induction false} FurtherFingerLetsGo(t: Input, g: Glass, fingers: seq<Point>)
    requires Inv(t, g) && Consistent(t, g, TouchStart(fingers)) && |fingers| >= 2
    ensures var t' := Step(t, TouchStart(fingers));
            && (!HoldsLeft(t) ==> t'.sent == t.sent)
            && (HoldsLeft(t) ==> t'.sent == t.sent + [Idle(t.last)] && !HoldsLeft(t'))
            && !t'.timerArmed && !t'.pointerActive && t'.committed == Nothing
  {
    hide Spread;
    hide Abs;
  }

  /** The first finger starts afresh, whatever went wrong before. */
  lemma {:induction false} FirstFingerStartsAfresh(t: Input, p: Point)
    ensures var t' := Step(t, TouchStart([p]));
            && t'.sent == t.sent && t'.start == t'.last == p
            && t'.pointerActive && t'.timerArmed && t'.committed == Nothing
  {
  }

  /**
    Such a run: drag, put a second finger on another element, lift the first, lift the second. No
    finger is on the glass, and left is held.
   */
  lemma {:induction false} FingerElsewhereKeepsLeft(p: Point, far: Point, q: Point)
    requires Spread(far, p) >= TAP_SLOP * TAP_SLOP
    ensures var events := [TouchStart([p]), TouchMove([far], false), Elsewhere(1), TouchEnd([q]), Elsewhere(0)];
            && AllConsistent(ATTACHED, UNTOUCHED, events)
            && FingersDown(ATTACHED, UNTOUCHED, events) == UNTOUCHED
            && HoldsLeft(Run(ATTACHED, events))
  {
    DragBegun(p, far, q);
    hide *;
    var (e1, e2, e3, e4, e5) := (TouchStart([p]), TouchMove([far], false), Elsewhere(1), TouchEnd([q]), Elsewhere(0));
    var t1 := Step(ATTACHED, e1);
    var t2 := Step(t1, e2);
    GlassOfDrag(ATTACHED, p, far, q);
    GlassOfDrag(t1, p, far, q);
    GlassOfDrag(t2, p, far, q);
    NothingElse(t2, UNTOUCHED);
    Then(t2, Glass(0, 1), e5, []);
    Then(t2, Glass(1, 1), e4, [e5]);
    Then(t2, Glass(1, 0), e3, [e4, e5]);
    Then(t1, Glass(1, 0), e2, [e3, e4, e5]);
    Then(ATTACHED, UNTOUCHED, e1, [e2, e3, e4, e5]);
    assert [e5] + [] == [e5] && [e4] + [e5] == [e4, e5] && [e3] + [e4, e5] == [e3, e4, e5];
    assert [e2] + [e3, e4, e5] == [e2, e3, e4, e5] && [e1] + [e2, e3, e4, e5] == [e1, e2, e3, e4, e5];
  }

  lemma {:induction false} NothingElse(t: Input, g: Glass)
    ensures AllConsistent(t, g, []) && Run(t, []) == t && FingersDown(t, g, []) == g
  {
  }

  lemma {:induction false} GlassOfDrag(t: Input, p: Point, far: Point, q: Point)
    ensures var (e1, e2, e3, e4, e5) := (TouchStart([p]), TouchMove([far], false), Elsewhere(1), TouchEnd([q]), Elsewhere(0));
            && Consistent(t, UNTOUCHED, e1) && GlassAfter(UNTOUCHED, e1) == Glass(1, 0)
            && Consistent(t, Glass(1, 0), e2) && GlassAfter(Glass(1, 0), e2) == Glass(1, 0)
            && Consistent(t, Glass(1, 0), e3) && GlassAfter(Glass(1, 0), e3) == Glass(1, 1) && Step(t, e3) == t
            && Consistent(t, Glass(1, 1), e4) && GlassAfter(Glass(1, 1), e4) == Glass(0, 1)
            && Consistent(t, Glass(0, 1), e5) && GlassAfter(Glass(0, 1), e5) == UNTOUCHED && Step(t, e5) == t
  {
    hide OnStart;
    hide OnMove;
    hide OnEnd;
  }

  lemma {:induction false} DragBegun(p: Point, far: Point, q: Point)
    requires Spread(far, p) >= TAP_SLOP * TAP_SLOP
    ensures var t := Step(Step(ATTACHED, TouchStart([p])), TouchMove([far], false));
            HoldsLeft(t) && Step(t, TouchEnd([q])) == t
  {
    hide Spread;
  }

  lemma {:induction false} Then(t: Input, g: Glass, e: Event, more: seq<Event>)
    requires Consistent(t, g, e) && AllConsistent(Step(t, e), GlassAfter(g, e), more)
    ensures AllConsistent(t, g, [e] + more)
    ensures Run(t, [e] + more) == Run(Step(t, e), more)
    ensures FingersDown(t, g, [e] + more) == FingersDown(Step(t, e), GlassAfter(g, e), more)
  {
    assert ([e] + more)[1..] == more;
  }

  // ---------- One uninterrupted finger ----------

  /** What one finger can do to the desktop. */
  datatype Interaction = LeftClick(at: Point) | RightClick(at: Point) | DragAlong(origin: Point, path: seq<Point>)

  function HeldAlong(path: seq<Point>): seq<Mouse> {
    if path == [] then [] else [Held(path[0])] + HeldAlong(path[1..])
  }

  function States(i: Interaction): seq<Mouse>
    requires i.DragAlong? ==> i.path != []
  {
    match i
    case LeftClick(at) => LeftClickAt(at)
    case RightClick(at) => RightClickAt(at)
    case DragAlong(origin, path) => [Idle(origin), Held(origin)] + HeldAlong(path) + [Idle(path[|path| - 1])]
  }

  /** Moves of the one finger, and the timer running out. */
  predicate OneFingered(events: seq<Event>) {
    forall i :: 0 <= i < |events| ==> events[i].TimerFired? || (events[i].TouchMove? && |events[i].fingers| == 1)
  }

  function Moves(events: seq<Event>): seq<Point>
    requires OneFingered(events)
  {
    if events == [] then []
    else (if events[0].TouchMove? then [events[0].fingers[0]] else []) + Moves(events[1..])
  }

  /** A drag if the finger leaves the slop first, a right click if the timer runs out first, else a left click. */
  function Meaning(origin: Point, last: Point, events: seq<Event>): (i: Interaction)
    requires OneFingered(events)
    ensures i.DragAlong? ==> i.path != []
    decreases |events|
  {
    if events == [] then LeftClick(origin)
    else if events[0].TimerFired? then RightClick(last)
    else if Spread(events[0].fingers[0], origin) >= TAP_SLOP * TAP_SLOP then DragAlong(origin, Moves(events))
    else Meaning(origin, events[0].fingers[0], events[1..])
  }

  lemma {:induction false} RunAppend(t: Input, a: seq<Event>, b: seq<Event>)
    ensures Run(t, a + b) == Run(Run(t, a), b)
    decreases |a|
  {
    hide Step;
    if a == [] {
      assert a + b == b;
    } else {
      assert (a + b)[1..] == a[1..] + b;
      RunAppend(Step(t, a[0]), a[1..], b);
    }
  }

  predicate Dragging(t: Input) {
    t.pointerActive && t.committed == Drag && !t.timerArmed && !t.gestureStarted
  }

  lemma {:induction false} DraggingStep(t: Input, p: Point, canPan: bool)
    requires Dragging(t)
    ensures var next := OnMove(t, [p], canPan); Dragging(next) && next.last == p && next.sent == t.sent + [Held(p)]
  {
    hide Spread;
  }

  lemma {:induction false} DraggingRun(t: Input, events: seq<Event>)
    requires Dragging(t) && OneFingered(events) && AllConsistent(t, Glass(1, 0), events)
    ensures var u := Run(t, events);
            && u.pointerActive && u.committed == Drag
            && u.sent == t.sent + HeldAlong(Moves(events))
            && u.last == if Moves(events) == [] then t.last else Moves(events)[|Moves(events)| - 1]
    decreases |events|
  {
    hide OnStart;
    hide OnEnd;
    hide OnTimer;
    hide OnMove;
    hide Held;
    if events == [] {
      assert t.sent + [] == t.sent;
    } else {
      var p := events[0].fingers[0];
      assert events[0].fingers == [p];
      DraggingStep(t, p, events[0].canPan);
      DraggingRun(Step(t, events[0]), events[1..]);
      var later := Moves(events[1..]);
      HeldUnfold(p, later);
      assert Moves(events) == [p] + later;
      Associative(t.sent, [Held(p)], HeldAlong(later));
    }
  }

  lemma {:induction false} LongPressedRun(t: Input, events: seq<Event>)
    requires t.pointerActive && t.committed == LongPress && !t.timerArmed && !t.gestureStarted
    requires OneFingered(events) && AllConsistent(t, Glass(1, 0), events)
    ensures var u := Run(t, events); u.pointerActive && u.committed == LongPress && u.sent == t.sent
    decreases |events|
  {
    if events != [] {
      LongPressedRun(Step(t, events[0]), events[1..]);
    }
  }

  lemma {:induction false} PressedRun(t: Input, events: seq<Event>)
    requires t.pointerActive && t.committed == Nothing && t.timerArmed && !t.gestureStarted
    requires OneFingered(events) && AllConsistent(t, Glass(1, 0), events)
    ensures OnEnd(Run(t, events), []).sent == t.sent + States(Meaning(t.start, t.last, events))
    decreases |events|
  {
    if events == [] {
    } else if events[0].TimerFired? {
      LongPressedRun(Step(t, events[0]), events[1..]);
    } else {
      var p := events[0].fingers[0];
      var next := Step(t, events[0]);
      if Spread(p, t.start) >= TAP_SLOP * TAP_SLOP {
        DraggingRun(next, events[1..]);
        var later := Moves(events[1..]);
        assert Moves(events) == [p] + later;
        DragStates(t.sent, t.start, p, later, Run(next, events[1..]).last);
      } else {
        PressedRun(next, events[1..]);
      }
    }
  }

  lemma {:induction false} HeldUnfold(p: Point, later: seq<Point>)
    ensures HeldAlong([p] + later) == [Held(p)] + HeldAlong(later)
  {
    assert ([p] + later)[1..] == later;
  }

  lemma {:induction false} Regroup<T>(before: seq<T>, a: seq<T>, b: seq<T>, held: seq<T>, c: seq<T>)
    ensures before + (a + (b + held) + c) == before + (a + b) + held + c
  {
  }

  lemma {:induction false} DragStates(before: seq<Mouse>, origin: Point, p: Point, later: seq<Point>, end: Point)
    requires end == if later == [] then p else later[|later| - 1]
    ensures before + States(DragAlong(origin, [p] + later)) ==
            before + [Idle(origin), Held(origin), Held(p)] + HeldAlong(later) + [Idle(end)]
  {
    hide HeldAlong;
    hide Idle;
    hide Held;
    HeldUnfold(p, later);
    Regroup(before, [Idle(origin), Held(origin)], [Held(p)], HeldAlong(later), [Idle(end)]);
    assert [Idle(origin), Held(origin)] + [Held(p)] == [Idle(origin), Held(origin), Held(p)];
    assert ([p] + later)[|later|] == end;
  }

  /**
    One finger down, moves, maybe the timer, finger up: the desktop gets exactly one left click,
    one right click, or one press, drag and release, and nothing else.
   */
  lemma {:induction false} OneFingerOneInteraction(t: Input, p: Point, middle: seq<Event>)
    requires Inv(t, UNTOUCHED) && OneFingered(middle)
    requires AllConsistent(Step(t, TouchStart([p])), Glass(1, 0), middle)
    ensures Run(t, [TouchStart([p])] + middle + [TouchEnd([])]).sent == t.sent + States(Meaning(p, p, middle))
  {
    var down := Step(t, TouchStart([p]));
    PressedRun(down, middle);
    RunAppend(t, [TouchStart([p])] + middle, [TouchEnd([])]);
    RunAppend(t, [TouchStart([p])], middle);
    RunOne(t, TouchStart([p]));
    RunOne(Run(down, middle), TouchEnd([]));
  }

  // ---------- What the desktop notices of it ----------

  datatype Button = Left | Middle | Right

  predicate Holds(m: Mouse, b: Button) {
    match b
    case Left => m.left
    case Middle => m.middle
    case Right => m.right
  }

  /** The points at which a button goes down, or comes up, in a sequence of states. */
  function Edges(held: bool, sent: seq<Mouse>, b: Button, down: bool): seq<Point>
    decreases |sent|
  {
    if sent == [] then []
    else
      var now := Holds(sent[0], b);
      (if now != held && now == down then [sent[0].at] else []) + Edges(now, sent[1..], b, down)
  }

  function Places(sent: seq<Mouse>): seq<Point> {
    if sent == [] then [] else [sent[0].at] + Places(sent[1..])
  }

  predicate NoWheel(sent: seq<Mouse>) {
    forall i :: 0 <= i < |sent| ==> !sent[i].up && !sent[i].down
  }

  /** The one place where a button goes from one state to the next, if it does so in that direction. */
  function Edge(held: bool, m: Mouse, b: Button, down: bool): seq<Point> {
    if Holds(m, b) != held && Holds(m, b) == down then [m.at] else []
  }

  lemma {:induction false} EdgesCons(held: bool, m: Mouse, more: seq<Mouse>, b: Button, down: bool)
    ensures Edges(held, [m] + more, b, down) == Edge(held, m, b, down) + Edges(Holds(m, b), more, b, down)
    ensures Places([m] + more) == [m.at] + Places(more)
    ensures NoWheel([m] + more) <==> !m.up && !m.down && NoWheel(more)
  {
    assert ([m] + more)[1..] == more;
    assert forall i :: 0 <= i < |more| ==> ([m] + more)[i + 1] == more[i];
  }

  lemma {:induction false} EdgesNil(held: bool, b: Button, down: bool)
    ensures Edges(held, [], b, down) == [] && Places([]) == [] && NoWheel([])
  {
  }

  lemma {:induction false} EdgeOfIdle(held: bool, p: Point, b: Button, down: bool)
    ensures Edge(held, Idle(p), b, down) == (if held && !down then [p] else []) && !Holds(Idle(p), b)
    ensures !Idle(p).up && !Idle(p).down && Idle(p).at == p
  {
  }

  lemma {:induction false} EdgeOfHeld(held: bool, p: Point, b: Button, down: bool)
    ensures Edge(held, Held(p), b, down) ==
            (if b == Left then (if down && !held then [p] else []) else if held && !down then [p] else [])
    ensures (Holds(Held(p), b) <==> b == Left) && !Held(p).up && !Held(p).down && Held(p).at == p
  {
  }

  lemma {:induction false} Associative<T>(a: seq<T>, b: seq<T>, c: seq<T>)
    ensures a + b + c == a + (b + c)
  {
  }

  lemma {:induction false} NothingBefore<T>(s: seq<T>)
    ensures [] + s == s && s + [] == s
  {
  }

  /** While a drag goes on left stays down, and comes up where it ends. */
  lemma {:induction false} EdgesOfDrag(path: seq<Point>, end: Point, b: Button, down: bool)
    ensures var more := HeldAlong(path) + [Idle(end)];
            && Edges(b == Left, more, b, down) == (if b == Left && !down then [end] else [])
            && Places(more) == path + [end] && NoWheel(more)
  {
    hide Edges;
    hide Edge;
    hide Places;
    hide NoWheel;
    hide Idle;
    hide Held;
    hide Holds;
    if path == [] {
      NothingBefore([Idle(end)]);
      EdgesNil(false, b, down);
      EdgesCons(b == Left, Idle(end), [], b, down);
      EdgeOfIdle(b == Left, end, b, down);
      NothingBefore([end]);
    } else {
      var more := HeldAlong(path[1..]) + [Idle(end)];
      EdgesOfDrag(path[1..], end, b, down);
      assert HeldAlong(path) + [Idle(end)] == [Held(path[0])] + more;
      EdgesCons(b == Left, Held(path[0]), more, b, down);
      EdgeOfHeld(b == Left, path[0], b, down);
      NothingBefore(Edges(b == Left, more, b, down));
      assert [path[0]] + (path[1..] + [end]) == path + [end];
    }
  }

  /** A click goes idle, down and idle again, all at one point. */
  lemma {:induction false} EdgesOfClick(m: Mouse, b: Button, down: bool)
    requires !m.up && !m.down
    ensures var click := [Idle(m.at), m, Idle(m.at)];
            && Edges(false, click, b, down) == (if Holds(m, b) then [m.at] else [])
            && Places(click) == [m.at, m.at, m.at] && NoWheel(click)
  {
    var idle := Idle(m.at);
    assert [idle] + ([m] + ([idle] + [])) == [idle, m, idle];
    hide Edges;
    hide Places;
    hide NoWheel;
    EdgesCons(false, idle, [m] + ([idle] + []), b, down);
    EdgesCons(false, m, [idle] + [], b, down);
    EdgesCons(Holds(m, b), idle, [], b, down);
    EdgesNil(false, b, down);
    EdgeOfIdle(false, m.at, b, down);
    EdgeOfIdle(Holds(m, b), m.at, b, down);
  }

  /** Which interaction it is, by what the finger and the timer did first. */
  predicate TimerFirst(origin: Point, events: seq<Event>)
    requires OneFingered(events)
    decreases |events|
  {
    events != [] &&
    (events[0].TimerFired? ||
     (Spread(events[0].fingers[0], origin) < TAP_SLOP * TAP_SLOP && TimerFirst(origin, events[1..])))
  }

  predicate SlopFirst(origin: Point, events: seq<Event>)
    requires OneFingered(events)
    decreases |events|
  {
    events != [] && !events[0].TimerFired? &&
    (Spread(events[0].fingers[0], origin) >= TAP_SLOP * TAP_SLOP || SlopFirst(origin, events[1..]))
  }

  /** Where the finger was last before the timer ran out. */
  function BeforeTimer(last: Point, events: seq<Event>): Point
    requires OneFingered(events)
    decreases |events|
  {
    if events == [] || events[0].TimerFired? then last else BeforeTimer(events[0].fingers[0], events[1..])
  }

  /** Where the finger went from the move on with which it left the slop. */
  function DragPath(origin: Point, events: seq<Event>): (path: seq<Point>)
    requires OneFingered(events) && SlopFirst(origin, events)
    ensures path != []
    decreases |events|
  {
    if Spread(events[0].fingers[0], origin) >= TAP_SLOP * TAP_SLOP then Moves(events) else DragPath(origin, events[1..])
  }

  lemma {:induction false} MeaningIs(origin: Point, last: Point, events: seq<Event>)
    requires OneFingered(events)
    ensures Meaning(origin, last, events) ==
            if TimerFirst(origin, events) then RightClick(BeforeTimer(last, events))
            else if SlopFirst(origin, events) then DragAlong(origin, DragPath(origin, events))
            else LeftClick(origin)
    ensures !(TimerFirst(origin, events) && SlopFirst(origin, events))
    decreases |events|
  {
    hide Spread;
    if events != [] && !events[0].TimerFired? {
      MeaningIs(origin, events[0].fingers[0], events[1..]);
    }
  }

  lemma {:induction false} EdgesOfStates(i: Interaction, b: Button, down: bool)
    requires i.DragAlong? ==> i.path != []
    ensures var sent := States(i);
            && NoWheel(sent)
            && Edges(false, sent, b, down) ==
               (match i
                case LeftClick(at) => if b == Left then [at] else []
                case RightClick(at) => if b == Right then [at] else []
                case DragAlong(origin, path) => if b != Left then [] else if down then [origin] else [path[|path| - 1]])
            && Places(sent) ==
               (match i
                case LeftClick(at) => [at, at, at]
                case RightClick(at) => [at, at, at]
                case DragAlong(origin, path) => [origin, origin] + path + [path[|path| - 1]])
  {
    hide Edges;
    hide Places;
    hide NoWheel;
    match i
    case LeftClick(at) => EdgesOfClick(Held(at), b, down);
    case RightClick(at) => EdgesOfClick(Idle(at).(right := true), b, down);
    case DragAlong(origin, path) => EdgesOfWholeDrag(origin, path, b, down);
  }

  lemma {:induction false} EdgesOfWholeDrag(origin: Point, path: seq<Point>, b: Button, down: bool)
    requires path != []
    ensures var sent, end := States(DragAlong(origin, path)), path[|path| - 1];
            && NoWheel(sent)
            && Edges(false, sent, b, down) == (if b != Left then [] else if down then [origin] else [end])
            && Places(sent) == [origin, origin] + path + [end]
  {
    hide *;
    var end := path[|path| - 1];
    var pressed := [Held(origin)] + (HeldAlong(path) + [Idle(end)]);
    DragBeginsIdle(origin, path);
    EdgesOfPressed(origin, path, end, b, down);
    EdgesCons(false, Idle(origin), pressed, b, down);
    EdgeOfIdle(false, origin, b, down);
    NothingBefore(Edges(false, pressed, b, down));
    TwiceAtOrigin(origin, path + [end]);
    assert [origin] + path + [end] == [origin] + (path + [end]);
    assert [origin, origin] + path + [end] == [origin, origin] + (path + [end]);
  }

  lemma {:induction false} TwiceAtOrigin(origin: Point, more: seq<Point>)
    ensures [origin] + ([origin] + more) == [origin, origin] + more
  {
  }

  lemma {:induction false} DragBeginsIdle(origin: Point, path: seq<Point>)
    requires path != []
    ensures States(DragAlong(origin, path)) ==
            [Idle(origin)] + ([Held(origin)] + (HeldAlong(path) + [Idle(path[|path| - 1])]))
  {
    hide Idle;
    hide Held;
    hide HeldAlong;
  }

  lemma {:induction false} EdgesOfPressed(origin: Point, path: seq<Point>, end: Point, b: Button, down: bool)
    ensures var pressed := [Held(origin)] + (HeldAlong(path) + [Idle(end)]);
            && NoWheel(pressed)
            && Edges(false, pressed, b, down) == (if b != Left then [] else if down then [origin] else [end])
            && Places(pressed) == [origin] + path + [end]
  {
    hide *;
    var more := HeldAlong(path) + [Idle(end)];
    EdgesOfDrag(path, end, b, down);
    EdgesCons(false, Held(origin), more, b, down);
    EdgeOfHeld(false, origin, b, down);
    NothingBefore(Edges(b == Left, more, b, down));
    NothingBefore(Edge(false, Held(origin), b, down));
    assert [origin] + (path + [end]) == [origin] + path + [end];
  }

  /**
    What the desktop notices of one finger. A tap presses and releases left where the finger
    landed; a long press presses and releases right where the finger then is; a drag presses left
    where it landed, follows it, and releases it where it was last. Nothing else is ever pressed,
    and nothing is scrolled.
   */
  lemma {:induction false} OneFingerOnTheDesktop(t: Input, p: Point, middle: seq<Event>, b: Button, down: bool)
    requires Inv(t, UNTOUCHED) && OneFingered(middle)
    requires AllConsistent(Step(t, TouchStart([p])), Glass(1, 0), middle)
    ensures var u := Run(t, [TouchStart([p])] + middle + [TouchEnd([])]);
            && t.sent <= u.sent
            && var sent := u.sent[|t.sent|..];
            && NoWheel(sent)
            && (TimerFirst(p, middle) ==>
                  var at := BeforeTimer(p, middle);
                  Edges(false, sent, b, down) == (if b == Right then [at] else []) && Places(sent) == [at, at, at])
            && (SlopFirst(p, middle) ==>
                  var path := DragPath(p, middle);
                  var end := path[|path| - 1];
                  && Edges(false, sent, b, down) == (if b == Left then [if down then p else end] else [])
                  && Places(sent) == [p, p] + path + [end])
            && (!TimerFirst(p, middle) && !SlopFirst(p, middle) ==>
                  Edges(false, sent, b, down) == (if b == Left then [p] else []) && Places(sent) == [p, p, p])
  {
    hide *;
    OneFingerOneInteraction(t, p, middle);
    MeaningIs(p, p, middle);
    var i := Meaning(p, p, middle);
    var before := t.sent;
    assert (before + States(i))[|before|..] == States(i);
    EdgesOfStates(i, b, down);
  }

  lemma {:induction false} RunOne(t: Input, e: Event)
    ensures Run(t, [e]) == Step(t, e)
  {
    assert [e][1..] == [];
  }

  // ---------- Nothing is pressed without a finger landing ----------

  /** States that hold no button. */
  predicate NoButtons(sent: seq<Mouse>) {
    forall i :: 0 <= i < |sent| ==> !sent[i].left && !sent[i].middle && !sent[i].right
  }

  /**
    Until a finger lands, whatever the ones on the glass do, no state holds a button: the end of a
    two-finger gesture, both fingers at once or one by one, clicks nothing.
   */
  lemma {:induction false} NoPressWithoutALanding(t: Input, events: seq<Event>)
    requires !t.pointerActive && forall i :: 0 <= i < |events| ==> !events[i].TouchStart?
    ensures var u := Run(t, events);
            !u.pointerActive && t.sent <= u.sent && NoButtons(u.sent[|t.sent|..])
    decreases |events|
  {
    if events != [] {
      StepWithoutALanding(t, events[0]);
      hide Step;
      NoPressWithoutALanding(Step(t, events[0]), events[1..]);
      var t1, u := Step(t, events[0]), Run(t, events);
      assert u.sent[|t.sent|..] == t1.sent[|t.sent|..] + u.sent[|t1.sent|..];
    }
  }

  lemma {:induction false} StepWithoutALanding(t: Input, e: Event)
    requires !t.pointerActive && !e.TouchStart?
    ensures var u := Step(t, e);
            !u.pointerActive && t.sent <= u.sent && NoButtons(u.sent[|t.sent|..])
  {
    if e.TouchMove? && t.gestureStarted && |e.fingers| >= 2 {
      NotchesAtTheCentre(t, e.fingers[0], e.fingers[1], e.canPan);
      TwoFingersPressNothing(t, e.fingers[0], e.fingers[1], e.canPan);
    }
    hide OnTwoFingers;
  }

  // ---------- Two fingers on a fitted view ----------

  predicate TwoFingered(events: seq<Event>) {
    forall i :: 0 <= i < |events| ==> events[i].TouchMove? && |events[i].fingers| >= 2
  }

  function CentreAfter(c: Point, events: seq<Event>): Point
    requires TwoFingered(events)
    decreases |events|
  {
    if events == [] then c else CentreAfter(Centre(events[0].fingers[0], events[0].fingers[1]), events[1..])
  }

  /** In the middle of a wheel gesture, scroll sent and travel left over add up to the fingers' travel. */
  lemma {:induction false} TurningRun(t: Input, events: seq<Event>)
    requires t.gestureStarted && t.gesture == Wheel && Abs(t.wheelAccum) < WHEEL_NOTCH_PX && TwoFingered(events)
    ensures var u := Run(t, events);
            && t.sent <= u.sent && u.gesture == Wheel && u.lastCentre == CentreAfter(t.lastCentre, events)
            && WHEEL_NOTCH_PX * Scrolled(u.sent[|t.sent|..]) as real + u.wheelAccum
               == t.wheelAccum + (u.lastCentre.y - t.lastCentre.y)
            && Abs(u.wheelAccum) < WHEEL_NOTCH_PX
    decreases |events|
  {
    hide WheelSends;
    hide WheelRest;
    if events == [] {
      assert t.sent[|t.sent|..] == [];
    } else {
      var centre := Centre(events[0].fingers[0], events[0].fingers[1]);
      var accum := t.wheelAccum + (centre.y - t.lastCentre.y);
      WheelConserves(accum, centre);
      var next := Step(t, events[0]);
      TurningRun(next, events[1..]);
      var u := Run(next, events[1..]);
      assert u.sent[|t.sent|..] == WheelSends(accum, centre) + u.sent[|next.sent|..];
      ScrolledAppend(WheelSends(accum, centre), u.sent[|next.sent|..]);
    }
  }

  lemma {:induction false} WheelHoldsNothing(accum: real, at: Point)
    ensures NoButtons(WheelSends(accum, at))
    ensures forall i :: 0 <= i < |WheelSends(accum, at)| ==> WheelSends(accum, at)[i].at == at
    decreases NotchesLeft(accum)
  {
    if Abs(accum) >= WHEEL_NOTCH_PX {
      NotchTaken(accum);
      WheelHoldsNothing(if accum < 0.0 then accum + WHEEL_NOTCH_PX else accum - WHEEL_NOTCH_PX, at);
    }
  }

  /** What two fingers send is sent where their centre then is, and holds no button. */
  lemma {:induction false} NotchesAtTheCentre(t: Input, a: Point, b: Point, canPan: bool)
    ensures var t' := OnTwoFingers(t, a, b, canPan);
            && t.sent <= t'.sent
            && var sent := t'.sent[|t.sent|..];
            && NoButtons(sent)
            && forall i :: 0 <= i < |sent| ==> sent[i].at == Centre(a, b)
  {
    hide WheelSends;
    hide WheelRest;
    hide Decide;
    var centre := Centre(a, b);
    WheelHoldsNothing(t.wheelAccum + (centre.y - t.lastCentre.y), centre);
  }

  /**
    From the moment two fingers land: if the gesture turns out to be the wheel, the scroll sent is
    within one notch of the fingers' vertical travel; any other gesture sends nothing at all.
   */
  lemma {:induction false} ScrollFollowsTheFingers(before: Input, landed: seq<Point>, events: seq<Event>)
    requires |landed| >= 2 && TwoFingered(events)
    ensures var t := Step(before, TouchStart(landed));
            var u := Run(t, events);
            var centre := Centre(landed[0], landed[1]);
            && t.sent <= u.sent
            && (u.gesture != Wheel ==> u.sent == t.sent)
            && (u.gesture == Wheel ==>
                  && WHEEL_NOTCH_PX * Scrolled(u.sent[|t.sent|..]) as real + u.wheelAccum
                     == CentreAfter(centre, events).y - centre.y
                  && Abs(u.wheelAccum) < WHEEL_NOTCH_PX)
  {
    hide Run;
    hide Centre;
    hide Abs;
    ScrollFrom(Step(before, TouchStart(landed)), events);
  }

  lemma {:induction false} ScrollFrom(t: Input, events: seq<Event>)
    requires t.gestureStarted && t.gesture == Undecided && t.wheelAccum == 0.0 && TwoFingered(events)
    ensures var u := Run(t, events);
            && t.sent <= u.sent
            && (u.gesture != Wheel ==> u.sent == t.sent)
            && (u.gesture == Wheel ==>
                  && u.lastCentre == CentreAfter(t.lastCentre, events)
                  && WHEEL_NOTCH_PX * Scrolled(u.sent[|t.sent|..]) as real + u.wheelAccum == u.lastCentre.y - t.lastCentre.y
                  && Abs(u.wheelAccum) < WHEEL_NOTCH_PX)
    decreases |events|
  {
    hide WheelSends;
    hide WheelRest;
    if events != [] {
      var centre := Centre(events[0].fingers[0], events[0].fingers[1]);
      var next := Step(t, events[0]);
      if next.gesture == Undecided {
        ScrollFrom(next, events[1..]);
      } else if next.gesture == Wheel {
        TurningRun(t.(gesture := Wheel), events);
      } else {
        QuietRun(next, events[1..]);
      }
    }
  }

  /** Compared through squares or not, the fingers' distance has changed by more than the threshold. */
  lemma {:induction false} PinchedMeansRatio(d: real, start: real)
    requires d > 0.0 && start > 0.0
    ensures Pinched(d * d, start * start) <==> Abs(d / start - 1.0) > PINCH_THRESHOLD
  {
    RatioCompare(d, start, 1.0 + PINCH_THRESHOLD);
    RatioCompare(d, start, 1.0 - PINCH_THRESHOLD);
  }

  lemma {:induction false} RatioCompare(d: real, start: real, c: real)
    requires d > 0.0 && start > 0.0 && c > 0.0
    ensures d * d > c * c * (start * start) <==> d / start > c
    ensures d * d < c * c * (start * start) <==> d / start < c
  {
    var ratio := d / start;
    assert d == ratio * start;
    ScaledCompare(0.0, ratio, start);
    SquaresCompare(ratio, c);
    SquaresCompare(c, ratio);
    ScaledCompare(ratio * ratio, c * c, start * start);
    ScaledCompare(c * c, ratio * ratio, start * start);
    SquareOfProduct(ratio, start);
  }

  lemma {:induction false} SquareOfProduct(a: real, b: real)
    ensures (a * b) * (a * b) == (a * a) * (b * b)
  {
  }

  lemma {:induction false} SquaresCompare(a: real, b: real)
    requires a > 0.0 && b > 0.0
    ensures a * a > b * b <==> a > b
  {
    if a > b {
      assert a * a > a * b > b * b;
    } else {
      assert a * a <= a * b <= b * b;
    }
  }

  lemma {:induction false} ScaledCompare(a: real, b: real, scale: real)
    requires scale > 0.0
    ensures a * scale > b * scale <==> a > b
  {
    assert (a - b) * scale == a * scale - b * scale;
  }

  /** Fingers that landed `spread` apart around `centre` have, to this event, not meant anything yet. */
  predicate StillIdle(spread: real, centre: Point, e: Event)
    requires e.TouchMove? && |e.fingers| >= 2
  {
    var (a, b) := (e.fingers[0], e.fingers[1]);
    !Pinched(FingerSpread(a, b), spread) && Spread(Centre(a, b), centre) <= TAP_SLOP * TAP_SLOP
  }

  /**
    The first event with which two fingers mean anything decides the gesture for good: a pinch
    zooms, and otherwise fingers on the move pan if there is anything to pan, and turn the wheel
    if there is not.
   */
  lemma {:induction false} FirstMoveDecides(before: Input, landed: seq<Point>, events: seq<Event>, k: nat)
    requires |landed| >= 2 && TwoFingered(events) && k < |events|
    requires var (spread, centre) := (FingerSpread(landed[0], landed[1]), Centre(landed[0], landed[1]));
             (forall i :: 0 <= i < k ==> StillIdle(spread, centre, events[i])) && !StillIdle(spread, centre, events[k])
    ensures var t := Step(before, TouchStart(landed));
            && Run(t, events[..k]).gesture == Undecided
            && Run(t, events).gesture ==
               if Pinched(FingerSpread(events[k].fingers[0], events[k].fingers[1]), FingerSpread(landed[0], landed[1])) then Zoom
               else if events[k].canPan then Pan
               else Wheel
  {
    hide Run;
    hide Pinched;
    hide FingerSpread;
    hide Spread;
    hide Centre;
    hide Abs;
    DecidedAt(Step(before, TouchStart(landed)), events, k);
  }

  lemma {:induction false} DecidedAt(t: Input, events: seq<Event>, k: nat)
    requires t.gestureStarted && t.gesture == Undecided && TwoFingered(events) && k < |events|
    requires forall i :: 0 <= i < k ==> StillIdle(t.startSpread, t.lastCentre, events[i])
    requires !StillIdle(t.startSpread, t.lastCentre, events[k])
    ensures Run(t, events[..k]).gesture == Undecided
    ensures Run(t, events).gesture ==
            if Pinched(FingerSpread(events[k].fingers[0], events[k].fingers[1]), t.startSpread) then Zoom
            else if events[k].canPan then Pan
            else Wheel
    decreases k
  {
    hide Pinched;
    hide FingerSpread;
    hide Spread;
    hide Centre;
    hide WheelSends;
    hide WheelRest;
    var next := Step(t, events[0]);
    if k == 0 {
      StaysDecided(next, events[1..]);
    } else {
      assert next == t;
      DecidedAt(t, events[1..], k - 1);
      assert events[..k][1..] == events[1..][..k - 1];
    }
  }

  lemma {:induction false} StaysDecided(t: Input, events: seq<Event>)
    requires t.gestureStarted && t.gesture != Undecided && TwoFingered(events)
    ensures Run(t, events).gesture == t.gesture
    decreases |events|
  {
    hide WheelSends;
    hide WheelRest;
    if events != [] {
      StaysDecided(Step(t, events[0]), events[1..]);
    }
  }

  lemma {:induction false} QuietRun(t: Input, events: seq<Event>)
    requires t.gestureStarted && (t.gesture == Zoom || t.gesture == Pan) && TwoFingered(events)
    ensures Run(t, events).sent == t.sent && Run(t, events).gesture == t.gesture
    decreases |events|
  {
    if events != [] {
      QuietRun(Step(t, events[0]), events[1..]);
    }
  }
}
