/**
  guacd to browser, once the handshake is over: whole instructions per WebSocket frame, the uuid
  of the connection picked out of the first frame, and guacd paused while the browser is behind.
 */
module GuacBridge {
  import opened Wrappers
  import opened Sequences
  import opened Utf16Text
  import opened GuacProtocol
  import opened GuacRoundTrip
  import opened GuacBoundary

  const HIGH_WATER: nat := 256 * 1024
  const LOW_WATER: nat := 64 * 1024

  const READY: Text := Ascii("ready")

  // ---------- The uuid in `ready` ----------

  function FindReady(instructions: seq<Instruction>): Option<Instruction> {
    if instructions == [] then None
    else if instructions[0][0] == READY then Some(instructions[0])
    else FindReady(instructions[1..])
  }

  /** The first argument without a leading dollar sign; an absent or empty one names nothing. */
  function UuidOf(ready: Instruction): Option<Text> {
    if |ready| < 2 then None
    else
      var id := if ready[1] != [] && ready[1][0] == DOLLAR then ready[1][1..] else ready[1];
      if id == [] then None else Some(id)
  }

  /** What a fresh parser makes of a frame; an unreadable frame costs the uuid and nothing else. */
  function UuidIn(frame: Text): Option<Text> {
    var answer := PushAnswer(frame);
    if answer.Thrown? then None
    else
      var ready := FindReady(answer.instructions);
      if ready.None? then None else UuidOf(ready.value)
  }

  // ---------- The state and its steps ----------

  datatype Bridge = Bridge(
    pendingOut: Text,
    sent: seq<Text>,
    readyScanned: bool,
    publishedUuid: Option<Text>,
    bufferedAmount: nat,
    guacdPaused: bool,
    drainTimer: bool,
    browserOpen: bool)

  const OPENED := Bridge([], [], false, None, 0, false, false, true)

  /** Data: text from guacd, and what sending a frame of it adds to the browser's queue. */
  datatype Event = Data(text: Text, cost: nat) | Drained(amount: nat) | TimerTick | BrowserClosed

  function ApplyBackpressure(b: Bridge): Bridge {
    if b.bufferedAmount <= HIGH_WATER || b.guacdPaused then b
    else b.(guacdPaused := true, drainTimer := true)
  }

  function Receive(b: Bridge, owner: bool, text: Text, cost: nat): Bridge {
    var out := b.pendingOut + text;
    var n := Scan(out);
    if n == 0 then b.(pendingOut := out)
    else
      var frame := out[..n];
      var uuid := if b.readyScanned || !owner then None else UuidIn(frame);
      var scanned := b.(
        pendingOut := out[n..],
        readyScanned := true,
        publishedUuid := if uuid.Some? then uuid else b.publishedUuid);
      if !b.browserOpen then scanned
      else ApplyBackpressure(scanned.(sent := b.sent + [frame], bufferedAmount := b.bufferedAmount + cost))
  }

  function Drain(b: Bridge, amount: nat): Bridge {
    b.(bufferedAmount := if amount <= b.bufferedAmount then b.bufferedAmount - amount else 0)
  }

  function Tick(b: Bridge): Bridge {
    if !b.drainTimer then b
    else if !b.browserOpen then b.(drainTimer := false)
    else if b.bufferedAmount < LOW_WATER then b.(drainTimer := false, guacdPaused := false)
    else b
  }

  function Close(b: Bridge): Bridge {
    b.(browserOpen := false, drainTimer := false, publishedUuid := None)
  }

  function Step(b: Bridge, owner: bool, e: Event): Bridge {
    match e
    case Data(text, cost) => Receive(b, owner, text, cost)
    case Drained(amount) => Drain(b, amount)
    case TimerTick => Tick(b)
    case BrowserClosed => Close(b)
  }

  function Run(b: Bridge, owner: bool, events: seq<Event>): Bridge
    decreases |events|
  {
    if events == [] then b else Run(Step(b, owner, events[0]), owner, events[1..])
  }

  /** Everything guacd sent over a run, in order. */
  function Received(events: seq<Event>): Text {
    if events == [] then []
    else (if events[0].Data? then events[0].text else []) + Received(events[1..])
  }

  // ---------- The connection object ----------

  class GuacConnection {
    const owner: bool
    var pendingOut: Text
    var sent: seq<Text>
    var readyScanned: bool
    var publishedUuid: Option<Text>
    var bufferedAmount: nat
    var guacdPaused: bool
    var drainTimer: bool
    var browserOpen: bool

    function View(): Bridge
      reads this
    {
      Bridge(pendingOut, sent, readyScanned, publishedUuid, bufferedAmount, guacdPaused, drainTimer, browserOpen)
    }

    constructor (owner: bool)
      ensures View() == OPENED && this.owner == owner
    {
      this.owner := owner;
      pendingOut, sent, readyScanned, publishedUuid := [], [], false, None;
      bufferedAmount, guacdPaused, drainTimer, browserOpen := 0, false, false, true;
    }

    method OnGuacdData(text: Text, cost: nat)
      requires ScanEnds(pendingOut + text)
      modifies this
      ensures View() == Receive(old(View()), owner, text, cost)
    {
      hide Scan;
      hide ScanEnds;
      hide Boundary;
      hide ForwardLengths;
      hide UuidIn;
      pendingOut := pendingOut + text;
      var n := CompleteInstructionsLength(pendingOut);
      if n > 0 {
        var frame := pendingOut[..n];
        pendingOut := pendingOut[n..];
        if !readyScanned {
          readyScanned := true;
          var uuid := ReadUuid(frame);
          if uuid.Some? && owner {
            publishedUuid := uuid;
          }
        }
        if browserOpen {
          sent := sent + [frame];
          bufferedAmount := bufferedAmount + cost;
          PauseIfBehind();
        }
      }
    }

    method ReadUuid(frame: Text) returns (uuid: Option<Text>)
      ensures uuid == UuidIn(frame)
    {
      hide ParseStream;
      var parser := new GuacamoleParser();
      var answer := parser.Push(frame);
      assert [] + frame == frame;
      if answer.Thrown? {
        return None;
      }
      var i := 0;
      while i < |answer.instructions|
        invariant i <= |answer.instructions|
        invariant FindReady(answer.instructions) == FindReady(answer.instructions[i..])
      {
        if answer.instructions[i][0] == READY {
          return UuidOf(answer.instructions[i]);
        }
        assert answer.instructions[i..][1..] == answer.instructions[i + 1..];
        i := i + 1;
      }
      return None;
    }

    method PauseIfBehind()
      modifies `guacdPaused, `drainTimer
      ensures View() == ApplyBackpressure(old(View()))
    {
      if bufferedAmount <= HIGH_WATER || guacdPaused {
        return;
      }
      guacdPaused := true;
      if !drainTimer {
        drainTimer := true;
      }
    }

    method OnDrained(amount: nat)
      modifies `bufferedAmount
      ensures View() == Drain(old(View()), amount)
    {
      bufferedAmount := if amount <= bufferedAmount then bufferedAmount - amount else 0;
    }

    method OnTimerTick()
      modifies `guacdPaused, `drainTimer
      ensures View() == Tick(old(View()))
    {
      if drainTimer {
        if !browserOpen {
          drainTimer := false;
          return;
        }
        if bufferedAmount < LOW_WATER {
          drainTimer := false;
          guacdPaused := false;
        }
      }
    }

    method OnBrowserClosed()
      modifies `browserOpen, `drainTimer, `publishedUuid
      ensures View() == Close(old(View()))
    {
      browserOpen, drainTimer, publishedUuid := false, false, None;
    }

    /** A whole run on which every scan ends. */
    method Serve(events: seq<Event>)
      requires ScansEnd(View(), owner, events)
      modifies this
      ensures View() == Run(old(View()), owner, events)
      decreases |events|
    {
      hide Scan;
      hide ScanEnds;
      hide Run;
      hide Receive;
      if events != [] {
        RunUnfold(View(), owner, events);
        match events[0] {
          case Data(text, cost) => OnGuacdData(text, cost);
          case Drained(amount) => OnDrained(amount);
          case TimerTick => OnTimerTick();
          case BrowserClosed => OnBrowserClosed();
        }
        Serve(events[1..]);
      } else {
        RunUnfold(View(), owner, events);
      }
    }
  }

  /** Every data event of the run finds a text on which the scan ends. */
  ghost predicate ScansEnd(b: Bridge, owner: bool, events: seq<Event>)
    decreases |events|
  {
    events == [] ||
    ((events[0].Data? ==> ScanEnds(b.pendingOut + events[0].text)) && ScansEnd(Step(b, owner, events[0]), owner, events[1..]))
  }

  lemma {:induction false} RunUnfold(b: Bridge, owner: bool, events: seq<Event>)
    ensures events == [] ==> Run(b, owner, events) == b
    ensures events != [] ==>
              var e := events[0];
              && Run(b, owner, events) == Run(Step(b, owner, e), owner, events[1..])
              && (e.Data? ==> Step(b, owner, e) == Receive(b, owner, e.text, e.cost))
              && (e.Drained? ==> Step(b, owner, e) == Drain(b, e.amount) && Drain(b, e.amount).pendingOut == b.pendingOut)
              && (e.TimerTick? ==> Step(b, owner, e) == Tick(b) && Tick(b).pendingOut == b.pendingOut)
              && (e.BrowserClosed? ==> Step(b, owner, e) == Close(b) && Close(b).pendingOut == b.pendingOut)
  {
    hide Receive;
  }

  lemma {:induction false} ReceivedUnfold(events: seq<Event>)
    requires events != []
    ensures Received(events) == if events[0].Data? then events[0].text + Received(events[1..]) else Received(events[1..])
  {
    assert [] + Received(events[1..]) == Received(events[1..]);
  }

  /** Lengths that go forward in what guacd sends are enough for every scan along the way. */
  lemma {:induction false} ForwardScansEnd(b: Bridge, owner: bool, events: seq<Event>)
    requires ForwardLengths(b.pendingOut + Received(events))
    ensures ScansEnd(b, owner, events)
    decreases |events|
  {
    hide ForwardLengths;
    hide ScanEnds;
    hide Received;
    hide Run;
    hide Receive;
    if events != [] {
      RunUnfold(b, owner, events);
      ForwardStep(b, owner, events);
      if events[0].Data? {
        ForwardScan(b.pendingOut + events[0].text);
      }
      ForwardScansEnd(Step(b, owner, events[0]), owner, events[1..]);
    }
  }

  /** The text still to be scanned goes forward too. */
  lemma {:induction false} ForwardStep(b: Bridge, owner: bool, events: seq<Event>)
    requires events != [] && ForwardLengths(b.pendingOut + Received(events))
    ensures events[0].Data? ==> ForwardLengths(b.pendingOut + events[0].text)
    ensures ForwardLengths(Step(b, owner, events[0]).pendingOut + Received(events[1..]))
  {
    hide ForwardLengths;
    hide Received;
    hide Receive;
    var e := events[0];
    RunUnfold(b, owner, events);
    ReceivedUnfold(events);
    if e.Data? {
      assert b.pendingOut + Received(events) == b.pendingOut + e.text + Received(events[1..]);
      ForwardLengthsOfPrefix(b.pendingOut + e.text, Received(events[1..]));
      ForwardLengthsBehindBoundary(b.pendingOut + e.text, Received(events[1..]));
      ForwardScan(b.pendingOut + e.text);
      ReceiveKeeps(b, owner, e.text, e.cost);
    }
  }

  lemma {:induction false} ReceiveKeeps(b: Bridge, owner: bool, text: Text, cost: nat)
    ensures var out := b.pendingOut + text;
            Receive(b, owner, text, cost).pendingOut == out[Scan(out)..]
  {
    hide Scan;
    hide UuidIn;
    var out := b.pendingOut + text;
    assert out[0..] == out;
  }

  // ---------- Nothing lost, nothing split ----------

  /** Frames sent and text held back are together what guacd sent, and only whole instructions go out. */
  ghost predicate Faithful(b: Bridge, received: Text) {
    && Flatten(b.sent) + b.pendingOut == received
    && (forall i :: 0 <= i < |b.sent| ==> b.sent[i] != [] && Whole(b.sent[i]))
    && Boundary(b.pendingOut) == 0
    && (b.readyScanned <==> b.sent != [])
  }

  lemma {:induction false} FaithfulReceive(b: Bridge, owner: bool, received: Text, text: Text, cost: nat)
    requires b.browserOpen && Faithful(b, received) && ForwardLengths(b.pendingOut + text)
    ensures Faithful(Receive(b, owner, text, cost), received + text)
  {
    hide ScanEnds;
    hide Scan;
    hide ForwardLengths;
    hide Boundary;
    hide UuidIn;
    hide Receive;
    hide Flatten;
    var out := b.pendingOut + text;
    ForwardScan(out);
    ReceiveLosesNothing(b, owner, text, cost);
    ReceiveSends(b, owner, text, cost);
    assert received + text == Flatten(b.sent) + out;
    BoundaryIsMaximal(out, 0);
    NothingBehindBoundary(out);
    ReceiveKeeps(b, owner, text, cost);
  }

  lemma {:induction false} ReceiveSends(b: Bridge, owner: bool, text: Text, cost: nat)
    requires b.browserOpen
    ensures var out, b' := b.pendingOut + text, Receive(b, owner, text, cost);
            && b'.sent == (if Scan(out) == 0 then b.sent else b.sent + [out[..Scan(out)]])
            && b'.readyScanned == (b.readyScanned || Scan(out) > 0)
  {
    hide Scan;
    hide UuidIn;
  }

  ghost predicate StaysOpen(events: seq<Event>) {
    forall i :: 0 <= i < |events| ==> !events[i].BrowserClosed?
  }

  /**
    From any faithful state, over every run while the browser is there and guacd announces no
    negative length.
   */
  lemma {:induction false} FaithfulRun(b: Bridge, owner: bool, received: Text, events: seq<Event>)
    requires b.browserOpen && Faithful(b, received) && StaysOpen(events)
    requires ForwardLengths(b.pendingOut + Received(events))
    ensures Faithful(Run(b, owner, events), received + Received(events))
    decreases |events|
  {
    hide ForwardLengths;
    hide Scan;
    hide Boundary;
    hide Receive;
    hide Received;
    hide Run;
    RunUnfold(b, owner, events);
    if events == [] {
      ReceivedNothing();
      assert received + [] == received;
    } else {
      var e := events[0];
      ReceivedUnfold(events);
      var next := Step(b, owner, e);
      StepKeepsOpen(b, owner, e);
      ForwardStep(b, owner, events);
      if e.Data? {
        FaithfulReceive(b, owner, received, e.text, e.cost);
        FaithfulRun(next, owner, received + e.text, events[1..]);
        assert received + e.text + Received(events[1..]) == received + Received(events);
      } else {
        FaithfulRun(next, owner, received, events[1..]);
      }
    }
  }

  /** Whatever the lengths are, as long as every scan ends nothing is lost, repeated or reordered. */
  lemma {:induction false} NothingLost(b: Bridge, owner: bool, received: Text, events: seq<Event>)
    requires b.browserOpen && StaysOpen(events) && ScansEnd(b, owner, events)
    requires Flatten(b.sent) + b.pendingOut == received
    ensures var b' := Run(b, owner, events); Flatten(b'.sent) + b'.pendingOut == received + Received(events)
    decreases |events|
  {
    hide Scan;
    hide ScanEnds;
    hide Receive;
    hide Received;
    hide Run;
    RunUnfold(b, owner, events);
    if events == [] {
      ReceivedNothing();
      assert received + [] == received;
    } else {
      var e := events[0];
      ReceivedUnfold(events);
      StepKeepsOpen(b, owner, e);
      if e.Data? {
        ReceiveLosesNothing(b, owner, e.text, e.cost);
        assert received + e.text == Flatten(b.sent) + (b.pendingOut + e.text);
        NothingLost(Step(b, owner, e), owner, received + e.text, events[1..]);
        assert received + e.text + Received(events[1..]) == received + Received(events);
      } else {
        NothingLost(Step(b, owner, e), owner, received, events[1..]);
      }
    }
  }

  lemma {:induction false} ReceiveLosesNothing(b: Bridge, owner: bool, text: Text, cost: nat)
    requires b.browserOpen
    ensures var b' := Receive(b, owner, text, cost);
            Flatten(b'.sent) + b'.pendingOut == Flatten(b.sent) + (b.pendingOut + text)
  {
    hide Scan;
    hide UuidIn;
    var out := b.pendingOut + text;
    var n := Scan(out);
    if n > 0 {
      FlattenSnoc(b.sent, out[..n]);
      assert out[..n] + out[n..] == out;
    }
  }

  lemma {:induction false} ReceivedNothing()
    ensures Received([]) == []
  {
  }

  lemma {:induction false} StepKeepsOpen(b: Bridge, owner: bool, e: Event)
    requires b.browserOpen && !e.BrowserClosed?
    ensures Step(b, owner, e).browserOpen
    ensures !e.Data? ==>
              var next := Step(b, owner, e);
              next.sent == b.sent && next.pendingOut == b.pendingOut && next.readyScanned == b.readyScanned &&
              next.publishedUuid == b.publishedUuid
  {
    hide Scan;
    hide UuidIn;
  }

  /** The conservation law of a connection from its first data event on. */
  lemma {:induction false} NothingLostOrSplit(owner: bool, events: seq<Event>)
    requires StaysOpen(events) && ForwardLengths(Received(events))
    ensures var b := Run(OPENED, owner, events);
            && Flatten(b.sent) + b.pendingOut == Received(events)
            && (forall i :: 0 <= i < |b.sent| ==> b.sent[i] != [] && Whole(b.sent[i]))
            && |Flatten(b.sent)| == Boundary(Received(events))
  {
    hide Receive;
    hide Run;
    hide ForwardLengths;
    BoundaryOfNothing();
    assert [] + Received(events) == Received(events);
    FaithfulRun(OPENED, owner, [], events);
    var b := Run(OPENED, owner, events);
    WholeFrames(b.sent, b.pendingOut);
  }

  lemma {:induction false} WholeFrames(frames: seq<Text>, tail: Text)
    requires forall i :: 0 <= i < |frames| ==> Whole(frames[i])
    ensures Boundary(Flatten(frames) + tail) == |Flatten(frames)| + Boundary(tail)
  {
    hide SkipInstruction;
    if frames == [] {
      assert [] + tail == tail;
    } else {
      var more := Flatten(frames[1..]) + tail;
      WholeFrames(frames[1..], tail);
      assert Flatten(frames) + tail == frames[0] + more;
      BoundaryAppend(frames[0], more);
      assert frames[0][|frames[0]|..] + more == more;
    }
  }

  // ---------- A browser that reads every frame on its own ----------

  /** Instructions seen by a tunnel that parses each frame by itself and keeps nothing between frames. */
  function FramewiseInstructions(frames: seq<Text>): seq<Instruction> {
    if frames == [] then []
    else ParseStream(frames[0]).instructions + FramewiseInstructions(frames[1..])
  }

  lemma {:induction false} ReadableFrames(frames: seq<Text>, tail: Text)
    requires forall i :: 0 <= i < |frames| ==> Whole(frames[i])
    requires ParseStream(Flatten(frames) + tail).fault == None
    ensures var p := ParseStream(tail);
            && ParseStream(Flatten(frames) + tail) == Stream(FramewiseInstructions(frames) + p.instructions, p.rest, p.fault)
            && forall i :: 0 <= i < |frames| ==>
                 ParseStream(frames[i]).rest == [] && ParseStream(frames[i]).fault == None
    decreases |frames|
  {
    hide ParseStream;
    hide Boundary;
    var p := ParseStream(tail);
    if frames == [] {
      assert [] + tail == tail && [] + p.instructions == p.instructions;
    } else {
      var head := frames[0];
      var more := Flatten(frames[1..]) + tail;
      assert Flatten(frames) + tail == head + more;
      if ParseStream(head).fault.Some? {
        ParseStreamBroken(head, more);
        assert false;
      }
      BoundaryIsConsumed(head);
      ParseStreamAppend(head, more);
      assert [] + more == more;
      ReadableFrames(frames[1..], tail);
      assert ParseStream(head).instructions + (FramewiseInstructions(frames[1..]) + p.instructions)
          == FramewiseInstructions(frames) + p.instructions;
      assert forall i :: 1 <= i < |frames| ==> frames[i] == frames[1..][i - 1];
    }
  }

  /**
    Why frames are cut on boundaries: a browser that parses every frame on its own sees exactly
    the instructions of guacd's stream, however guacd's socket cut it.
   */
  lemma {:induction false} BrowserSeesTheStream(owner: bool, events: seq<Event>)
    requires StaysOpen(events) && ParseStream(Received(events)).fault == None
    ensures var b := Run(OPENED, owner, events);
            && FramewiseInstructions(b.sent) == ParseStream(Received(events)).instructions
            && b.pendingOut == ParseStream(Received(events)).rest
            && forall i :: 0 <= i < |b.sent| ==> ParseStream(b.sent[i]).rest == [] && ParseStream(b.sent[i]).fault == None
  {
    hide Run;
    hide ParseStream;
    hide Boundary;
    var b := Run(OPENED, owner, events);
    ReadableGoesForward(Received(events));
    NothingLostOrSplit(owner, events);
    ReadableFrames(b.sent, b.pendingOut);
    BoundaryIsConsumed(Received(events));
    BoundaryIsConsumed(b.pendingOut);
    var rest := ParseStream(Received(events)).rest;
    assert |rest| == |b.pendingOut|;
    assert b.pendingOut[0..] == b.pendingOut;
    SilentTail(b.pendingOut);
    assert FramewiseInstructions(b.sent) + [] == FramewiseInstructions(b.sent);
  }

  lemma {:induction false} SilentTail(tail: Text)
    requires ParseStream(tail).fault == None && |ParseStream(tail).rest| == |tail|
    ensures ParseStream(tail).instructions == []
  {
    hide ParseFront;
    if ParseFront(tail).Complete? {
      BoundaryIsConsumed(tail[ParseFront(tail).consumed..]);
    }
  }

  // ---------- The uuid does not depend on the chunking ----------

  /** The uuid the first frame of a connection names, kept until the socket goes. */
  ghost predicate UuidSettled(b: Bridge, owner: bool) {
    && (b.sent == [] ==> !b.readyScanned && b.publishedUuid == None)
    && (b.sent != [] ==> b.readyScanned && b.publishedUuid == if owner then UuidIn(b.sent[0]) else None)
  }

  lemma {:induction false} UuidSettledRun(b: Bridge, owner: bool, events: seq<Event>)
    requires b.browserOpen && UuidSettled(b, owner) && StaysOpen(events)
    ensures UuidSettled(Run(b, owner, events), owner)
    decreases |events|
  {
    hide Scan;
    hide UuidIn;
    hide Run;
    RunUnfold(b, owner, events);
    if events != [] {
      StepKeepsOpen(b, owner, events[0]);
      UuidSettledRun(Step(b, owner, events[0]), owner, events[1..]);
    }
  }

  /**
    If the first thing in guacd's stream is `ready`, its uuid is published by the owner's
    connection as soon as anything is forwarded, whichever chunks the stream came in; a joiner
    publishes nothing.
   */
  lemma {:induction false} PublishedWhateverTheChunks(owner: bool, events: seq<Event>)
    requires StaysOpen(events)
    requires var p := ParseStream(Received(events));
             p.fault == None && p.instructions != [] && p.instructions[0][0] == READY
    ensures Run(OPENED, owner, events).publishedUuid ==
            if owner then UuidOf(ParseStream(Received(events)).instructions[0]) else None
  {
    hide Run;
    hide ParseStream;
    hide Boundary;
    hide UuidOf;
    var b := Run(OPENED, owner, events);
    UuidSettledRun(OPENED, owner, events);
    BrowserSeesTheStream(owner, events);
    ReadableGoesForward(Received(events));
    NothingLostOrSplit(owner, events);
    var first := ParseStream(b.sent[0]).instructions;
    if first == [] {
      BoundaryIsConsumed(b.sent[0]);
      QuietStream(b.sent[0]);
      assert false;
    }
    assert FramewiseInstructions(b.sent)[0] == first[0];
    assert FindReady(first) == Some(first[0]);
  }

  /** When guacd names the connection by an id, `ready,$id`, the owner's connection publishes that id. */
  lemma {:induction false} OwnerPublishesTheId(events: seq<Event>, id: Text, more: Text)
    requires StaysOpen(events) && id != [] && Sendable([DOLLAR] + id)
    requires Received(events) == Encode([READY, [DOLLAR] + id]) + more && ParseStream(more).fault == None
    ensures Run(OPENED, true, events).publishedUuid == Some(id)
    ensures Run(OPENED, false, events).publishedUuid == None
  {
    hide Run;
    hide ParseStream;
    hide Encode;
    var ready := [READY, [DOLLAR] + id];
    assert Sendable(READY);
    assert [ready][1..] == [] && EncodeAll([ready]) == Encode(ready) + [] == Encode(ready);
    ParseBehindEncoded([ready], more);
    assert ([ready] + ParseStream(more).instructions)[0] == ready;
    PublishedWhateverTheChunks(true, events);
    PublishedWhateverTheChunks(false, events);
    assert ([DOLLAR] + id)[1..] == id;
  }

  lemma {:induction false} QuietStream(s: Text)
    requires ParseStream(s).fault == None && ParseStream(s).instructions == []
    ensures ParseStream(s).rest == s
  {
    hide ParseFront;
  }

  /** The connection's id is the first argument of the first `ready`, wherever that stands in the frame. */
  lemma {:induction false} FirstReadyNamesIt(frame: Text, k: nat)
    requires ParseStream(frame).fault == None && |ParseStream(frame).rest| <= MAX_PENDING
    requires k < |ParseStream(frame).instructions| && ParseStream(frame).instructions[k][0] == Ascii("ready")
    requires forall i :: 0 <= i < k ==> ParseStream(frame).instructions[i][0] != Ascii("ready")
    ensures UuidIn(frame) == UuidOf(ParseStream(frame).instructions[k])
  {
    hide ParseStream;
    hide UuidOf;
    FirstReady(ParseStream(frame).instructions, k);
  }

  lemma {:induction false} FirstReady(instructions: seq<Instruction>, k: nat)
    requires k < |instructions| && instructions[k][0] == READY
    requires forall i :: 0 <= i < k ==> instructions[i][0] != READY
    ensures FindReady(instructions) == Some(instructions[k])
  {
    if k > 0 {
      FirstReady(instructions[1..], k - 1);
    }
  }

  /** Which names count: one dollar sign in front is dropped, and an empty or missing name is none. */
  lemma {:induction false} NamesThatCount(id: Text, more: seq<Text>)
    ensures UuidOf([READY, [DOLLAR] + id] + more) == if id == [] then None else Some(id)
    ensures id == [] || id[0] != DOLLAR ==> UuidOf([READY, id] + more) == if id == [] then None else Some(id)
    ensures UuidOf([READY]) == None
  {
    assert ([DOLLAR] + id)[1..] == id;
  }

  // ---------- Once the browser has gone ----------

  /**
    Nothing is sent to a browser that has gone, and it published nothing that stays; guacd is
    neither paused nor resumed for it any more, and its drain timer stays off.
   */
  lemma {:induction false} GoneBrowserGetsNothing(before: Bridge, owner: bool, events: seq<Event>)
    ensures var b := Step(before, owner, BrowserClosed);
            var b' := Run(b, owner, events);
            && b.publishedUuid == None
            && b'.sent == before.sent && b'.guacdPaused == before.guacdPaused
            && !b'.drainTimer && !b'.browserOpen && b'.bufferedAmount <= before.bufferedAmount
  {
    StaysGone(Step(before, owner, BrowserClosed), owner, events);
  }

  /** Even a timer that was still on is off after its first tick. */
  lemma {:induction false} StaysGone(b: Bridge, owner: bool, events: seq<Event>)
    requires !b.browserOpen
    ensures var b' := Run(b, owner, events);
            && b'.sent == b.sent && b'.guacdPaused == b.guacdPaused
            && !b'.browserOpen && b'.bufferedAmount <= b.bufferedAmount
            && (!b.drainTimer || TimerTick in events ==> !b'.drainTimer)
    decreases |events|
  {
    hide Scan;
    hide UuidIn;
    if events != [] {
      StaysGone(Step(b, owner, events[0]), owner, events[1..]);
    }
  }

  // ---------- Backpressure ----------

  /** Frames of at most `largest`, none of them read while guacd is paused. */
  ghost predicate Legal(b: Bridge, owner: bool, events: seq<Event>, largest: nat)
    decreases |events|
  {
    events == [] ||
    (var e := events[0];
     && !e.BrowserClosed?
     && (e.Data? ==> !b.guacdPaused && e.cost <= largest)
     && Legal(Step(b, owner, e), owner, events[1..], largest))
  }

  /** guacd is paused exactly while the timer that resumes it runs, and the queue is bounded. */
  ghost predicate Bounded(b: Bridge, largest: nat) {
    && b.browserOpen
    && (b.guacdPaused <==> b.drainTimer)
    && (!b.guacdPaused ==> b.bufferedAmount <= HIGH_WATER)
    && b.bufferedAmount <= HIGH_WATER + largest
  }

  lemma {:induction false} QueueBound(b: Bridge, owner: bool, events: seq<Event>, largest: nat)
    requires Bounded(b, largest) && Legal(b, owner, events, largest)
    ensures Bounded(Run(b, owner, events), largest)
    decreases |events|
  {
    hide Scan;
    hide UuidIn;
    if events != [] {
      QueueBound(Step(b, owner, events[0]), owner, events[1..], largest);
    }
  }

  /**
    The queue of an open browser grows by the cost of each frame sent, which is once for each data
    event that completes an instruction, shrinks by what is drained, and changes by nothing else.
   */
  lemma {:induction false} QueueFollowsTheFrames(b: Bridge, owner: bool, e: Event)
    requires b.browserOpen && (e.Data? ==> ForwardLengths(b.pendingOut + e.text))
    ensures var b' := Step(b, owner, e);
            && (e.Data? ==>
                  var n := Boundary(b.pendingOut + e.text);
                  && (n == 0 ==> b'.sent == b.sent && b'.bufferedAmount == b.bufferedAmount)
                  && (n > 0 ==> b'.sent == b.sent + [(b.pendingOut + e.text)[..n]] && b'.bufferedAmount == b.bufferedAmount + e.cost))
            && (!e.Data? ==> b'.sent == b.sent)
            && (e.Drained? ==> b'.bufferedAmount == if e.amount < b.bufferedAmount then b.bufferedAmount - e.amount else 0)
            && (e.TimerTick? || e.BrowserClosed? ==> b'.bufferedAmount == b.bufferedAmount)
  {
    if e.Data? {
      ForwardScan(b.pendingOut + e.text);
    }
    hide Scan;
    hide Boundary;
    hide UuidIn;
    hide ForwardLengths;
  }

  /** The browser's queue after the first `k` events. */
  function Level(b: Bridge, owner: bool, events: seq<Event>, k: nat): nat
    requires k <= |events|
  {
    Run(b, owner, events[..k]).bufferedAmount
  }

  /** The queue was past the mark after `i` events, and no tick has found it low again since. */
  predicate BehindSince(b: Bridge, owner: bool, events: seq<Event>, i: nat)
    requires i <= |events|
  {
    && Level(b, owner, events, i) > HIGH_WATER
    && forall j :: i < j <= |events| && Level(b, owner, events, j) < LOW_WATER ==> !events[j - 1].TimerTick?
  }

  lemma {:induction false} RunSnoc(b: Bridge, owner: bool, events: seq<Event>, largest: nat)
    requires events != [] && Legal(b, owner, events, largest)
    ensures var before, e := events[..|events| - 1], events[|events| - 1];
            && Legal(b, owner, before, largest)
            && Run(b, owner, events) == Step(Run(b, owner, before), owner, e)
            && !e.BrowserClosed? && (e.Data? ==> !Run(b, owner, before).guacdPaused)
    decreases |events|
  {
    hide Step;
    if |events| > 1 {
      var tail := events[1..];
      RunSnoc(Step(b, owner, events[0]), owner, tail, largest);
      assert events[..|events| - 1][1..] == tail[..|tail| - 1];
    }
  }

  /** guacd is paused exactly if the queue has been past the high mark and not been found low since. */
  lemma {:induction false} PausedExactlyWhenBehind(owner: bool, events: seq<Event>, largest: nat)
    requires Legal(OPENED, owner, events, largest)
    ensures Run(OPENED, owner, events).guacdPaused <==>
            exists i :: 0 <= i <= |events| && BehindSince(OPENED, owner, events, i)
    decreases |events|
  {
    hide Run;
    hide Legal;
    hide Scan;
    hide UuidIn;
    var n := |events|;
    QueueBound(OPENED, owner, events, largest);
    assert events[..n] == events;
    if n == 0 {
      assert Run(OPENED, owner, events) == OPENED by {
        RunUnfold(OPENED, owner, events);
      }
    } else {
      var before := events[..n - 1];
      RunSnoc(OPENED, owner, events, largest);
      QueueBound(OPENED, owner, before, largest);
      PausedExactlyWhenBehind(owner, before, largest);
      assert forall k :: 0 <= k < n ==> events[..k] == before[..k];
      assert forall k :: 0 <= k < n ==> Level(OPENED, owner, events, k) == Level(OPENED, owner, before, k);
      if i :| 0 <= i < n && BehindSince(OPENED, owner, before, i) {
        assert Level(OPENED, owner, events, n) >= LOW_WATER || !events[n - 1].TimerTick? ==> BehindSince(OPENED, owner, events, i);
      }
      if i :| 0 <= i < n && BehindSince(OPENED, owner, events, i) {
        assert BehindSince(OPENED, owner, before, i);
      }
      assert BehindSince(OPENED, owner, events, n) <==> Level(OPENED, owner, events, n) > HIGH_WATER;
    }
  }

  /** A paused guacd is never forgotten: the first tick after the queue fell below the mark resumes it. */
  lemma {:induction false} ResumedWhenDrained(b: Bridge, amount: nat, largest: nat)
    requires Bounded(b, largest)
    ensures var next := Tick(Drain(b, amount));
            && Bounded(next, largest)
            && (next.guacdPaused <==> b.guacdPaused && b.bufferedAmount >= LOW_WATER + amount)
  {
  }
}
