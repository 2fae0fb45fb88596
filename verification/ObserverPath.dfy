/**
  Browser to guacd for an observer: frames are parsed, cut down to the instructions an observer
  may send and encoded again; a frame that cannot be read, or is out of scale, ends the socket.
 */
module ObserverPath {
  import opened Wrappers
  import opened Sequences
  import opened Utf16Text
  import opened GuacProtocol
  import opened GuacRoundTrip
  import opened GuacChunking

  const SYNC: Text := Ascii("sync")
  const NOP: Text := Ascii("nop")
  const SIZE: Text := Ascii("size")

  predicate MayObserve(instruction: Instruction) {
    instruction[0] == SYNC || instruction[0] == NOP || instruction[0] == SIZE
  }

  /** The subsequence an observer is allowed to send. */
  function Allowed(instructions: seq<Instruction>): (r: seq<Instruction>)
    ensures forall i :: 0 <= i < |r| ==> MayObserve(r[i])
  {
    if instructions == [] then []
    else (if MayObserve(instructions[0]) then [instructions[0]] else []) + Allowed(instructions[1..])
  }

  lemma {:induction false} AllowedAppend(a: seq<Instruction>, b: seq<Instruction>)
    ensures Allowed(a + b) == Allowed(a) + Allowed(b)
  {
    if a == [] {
      assert a + b == b;
    } else {
      assert (a + b)[1..] == a[1..] + b;
      AllowedAppend(a[1..], b);
    }
  }

  lemma {:induction false} AllowedSnoc(a: seq<Instruction>, x: Instruction)
    ensures Allowed(a + [x]) == Allowed(a) + if MayObserve(x) then [x] else []
  {
    AllowedAppend(a, [x]);
    assert [x][1..] == [];
  }

  lemma {:induction false} EncodeAllSnoc(a: seq<Instruction>, x: Instruction)
    ensures EncodeAll(a + [x]) == EncodeAll(a) + Encode(x)
  {
    hide Encode;
    EncodeAllAppend(a, [x]);
    assert [x][1..] == [];
    assert Encode(x) + EncodeAll([]) == Encode(x);
  }

  method FilterViewInstructions(instructions: seq<Instruction>) returns (out: Text)
    ensures out == EncodeAll(Allowed(instructions))
  {
    hide Encode;
    out := [];
    var i := 0;
    while i < |instructions|
      invariant i <= |instructions|
      invariant out == EncodeAll(Allowed(instructions[..i]))
    {
      var opcode, args := instructions[i][0], instructions[i][1..];
      assert instructions[..i + 1] == instructions[..i] + [instructions[i]];
      AllowedSnoc(instructions[..i], instructions[i]);
      if opcode == SYNC || opcode == NOP || opcode == SIZE {
        assert instructions[i] == [opcode] + args;
        EncodeAllSnoc(Allowed(instructions[..i]), instructions[i]);
        out := out + EncodeInstruction(opcode, args);
      } else {
        assert Allowed(instructions[..i]) + [] == Allowed(instructions[..i]);
      }
      i := i + 1;
    }
    assert instructions[..i] == instructions;
  }

  // ---------- The state and its steps ----------

  /** A decoded frame and its size on the wire. */
  datatype Frame = Frame(text: Text, bytes: nat)

  datatype Observer = Observer(buffer: Text, written: seq<Text>, open: bool)

  const CONNECTED := Observer([], [], true)

  function Deliver(o: Observer, frame: Frame): Observer {
    if !o.open then o
    else if frame.bytes > MAX_PENDING then o.(open := false)
    else
      var buffered := o.buffer + frame.text;
      var answer := PushAnswer(buffered);
      if answer.Thrown? then Observer([], o.written, false)
      else
        var allowed := EncodeAll(Allowed(answer.instructions));
        Observer(PushKeeps(buffered), if allowed != [] then o.written + [allowed] else o.written, true)
  }

  function DeliverAll(o: Observer, frames: seq<Frame>): Observer
    decreases |frames|
  {
    if frames == [] then o else DeliverAll(Deliver(o, frames[0]), frames[1..])
  }

  class ObserverSocket {
    const fromBrowser: GuacamoleParser
    var written: seq<Text>
    var open: bool

    function View(): Observer
      reads this, fromBrowser
    {
      Observer(fromBrowser.buffer, written, open)
    }

    constructor ()
      ensures View() == CONNECTED && fresh(fromBrowser)
    {
      fromBrowser := new GuacamoleParser();
      written, open := [], true;
    }

    method OnMessage(frame: Frame)
      modifies this, fromBrowser
      ensures View() == Deliver(old(View()), frame)
    {
      hide PushAnswer;
      hide PushKeeps;
      if !open {
        return;
      }
      if frame.bytes > MAX_PENDING {
        open := false;
        return;
      }
      ghost var buffered := fromBrowser.buffer + frame.text;
      var answer := fromBrowser.Push(frame.text);
      if answer.Thrown? {
        ThrownKeepsNothing(buffered);
        open := false;
        return;
      }
      var allowed := FilterViewInstructions(answer.instructions);
      if allowed != [] {
        written := written + [allowed];
      }
    }
  }

  lemma {:induction false} ThrownKeepsNothing(buffered: Text)
    requires PushAnswer(buffered).Thrown?
    ensures PushKeeps(buffered) == []
  {
  }

  // ---------- What reaches guacd ----------

  function Texts(frames: seq<Frame>): Text {
    if frames == [] then [] else frames[0].text + Texts(frames[1..])
  }

  /** Frames the socket lives through: in scale, and none of them breaks the stream. */
  function Accepted(o: Observer, frames: seq<Frame>): (n: nat)
    ensures n <= |frames|
    decreases |frames|
  {
    if frames == [] || !Deliver(o, frames[0]).open then 0
    else 1 + Accepted(Deliver(o, frames[0]), frames[1..])
  }

  lemma {:induction false} ClosedStaysClosed(o: Observer, frames: seq<Frame>)
    requires !o.open
    ensures DeliverAll(o, frames) == o
    decreases |frames|
  {
    if frames != [] {
      ClosedStaysClosed(o, frames[1..]);
    }
  }

  /** Starting from text already read, the writes are the encoded allowed instructions, in order. */
  lemma {:induction false} WritesExactly(o: Observer, before: Text, frames: seq<Frame>)
    requires o.open && ParseStream(before).fault == None && o.buffer == ParseStream(before).rest
    requires Flatten(o.written) == EncodeAll(Allowed(ParseStream(before).instructions))
    ensures var n := Accepted(o, frames);
            var o' := DeliverAll(o, frames);
            && (o'.open <==> n == |frames|)
            && ParseStream(before + Texts(frames[..n])).fault == None
            && Flatten(o'.written) == EncodeAll(Allowed(ParseStream(before + Texts(frames[..n])).instructions))
    decreases |frames|
  {
    hide ParseStream;
    hide EncodeAll;
    hide Allowed;
    if frames == [] {
      assert before + [] == before;
    } else if !Deliver(o, frames[0]).open {
      ClosedStaysClosed(Deliver(o, frames[0]), frames[1..]);
      assert before + [] == before;
    } else {
      var next := Deliver(o, frames[0]);
      var text := frames[0].text;
      DeliverStep(o, before, frames[0]);
      WritesExactly(next, before + text, frames[1..]);
      var n := Accepted(next, frames[1..]);
      assert frames[..n + 1][0] == frames[0] && frames[..n + 1][1..] == frames[1..][..n];
      assert before + text + Texts(frames[1..][..n]) == before + Texts(frames[..n + 1]);
    }
  }

  lemma {:induction false} DeliverStep(o: Observer, before: Text, frame: Frame)
    requires o.open && ParseStream(before).fault == None && o.buffer == ParseStream(before).rest
    requires Flatten(o.written) == EncodeAll(Allowed(ParseStream(before).instructions))
    requires Deliver(o, frame).open
    ensures var next := Deliver(o, frame);
            var p := ParseStream(before + frame.text);
            p.fault == None && next.buffer == p.rest && Flatten(next.written) == EncodeAll(Allowed(p.instructions))
  {
    hide ParseStream;
    hide EncodeAll;
    hide Allowed;
    ParseStreamAppend(before, frame.text);
    var q := ParseStream(o.buffer + frame.text);
    var allowed := EncodeAll(Allowed(q.instructions));
    AllowedAppend(ParseStream(before).instructions, q.instructions);
    EncodeAllAppend(Allowed(ParseStream(before).instructions), Allowed(q.instructions));
    FlattenSnoc(o.written, allowed);
    if allowed == [] {
      assert Flatten(o.written) + [] == Flatten(o.written);
    }
  }

  /** The instructions an observer's frames hold, up to the frame that ended the socket. */
  function Understood(frames: seq<Frame>): seq<Instruction> {
    ParseStream(Texts(frames[..Accepted(CONNECTED, frames)])).instructions
  }

  lemma {:induction false} WritesFromTheStart(frames: seq<Frame>)
    ensures Flatten(DeliverAll(CONNECTED, frames).written) == EncodeAll(Allowed(Understood(frames)))
    ensures DeliverAll(CONNECTED, frames).open ==> Understood(frames) == ParseStream(Texts(frames)).instructions
  {
    hide ParseFront;
    assert ParseFront([]).Incomplete? by {
      ParseFrontOfNothing();
    }
    WritesExactly(CONNECTED, [], frames);
    var n := Accepted(CONNECTED, frames);
    assert [] + Texts(frames[..n]) == Texts(frames[..n]);
    assert frames[..|frames|] == frames;
  }

  lemma {:induction false} ParseFrontOfNothing()
    ensures ParseFront([]) == Incomplete
  {
  }

  /**
    Whatever an observer sends, cut into any frames, well-formed or not: what guacd reads is the
    allowed subsequence of the instructions it held, arguments unchanged and in order.
   */
  lemma {:induction false} GuacdSeesOnlyAllowed(frames: seq<Frame>)
    ensures GuacdReads(Flatten(DeliverAll(CONNECTED, frames).written)) == Some(Allowed(Understood(frames)))
  {
    hide GuacdReads;
    hide EncodeAll;
    WritesFromTheStart(frames);
    EncodeThenGuacdReads(Allowed(Understood(frames)));
  }

  /** What the filter keeps of each kind of instruction: all of three, and none of any other. */
  lemma {:induction false} AllowedKeepsThree(instructions: seq<Instruction>, x: Instruction)
    ensures multiset(Allowed(instructions))[x] ==
            if x[0] in [Ascii("sync"), Ascii("nop"), Ascii("size")] then multiset(instructions)[x] else 0
  {
    if instructions != [] {
      AllowedKeepsThree(instructions[1..], x);
      assert instructions == [instructions[0]] + instructions[1..];
    }
  }

  /**
    Whatever an observer sends: guacd reads no key, no mouse and no clipboard of it, nor anything
    else but `sync`, `nop` and `size`, and of those each one as often as it was sent.
   */
  lemma {:induction false} NothingElseGetsThrough(frames: seq<Frame>, x: Instruction)
    ensures var read := GuacdReads(Flatten(DeliverAll(CONNECTED, frames).written));
            && read.Some?
            && multiset(read.value)[x] ==
               if x[0] in [Ascii("sync"), Ascii("nop"), Ascii("size")] then multiset(Understood(frames))[x] else 0
  {
    hide *;
    GuacdSeesOnlyAllowed(frames);
    AllowedKeepsThree(Understood(frames), x);
  }

  /** Keys, mouse and clipboard are none of the three. */
  lemma {:induction false} InputIsNotAmongThem()
    ensures Ascii("key") !in [Ascii("sync"), Ascii("nop"), Ascii("size")]
    ensures Ascii("mouse") !in [Ascii("sync"), Ascii("nop"), Ascii("size")]
    ensures Ascii("clipboard") !in [Ascii("sync"), Ascii("nop"), Ascii("size")]
  {
    assert Ascii("key")[0] == 107 && Ascii("mouse")[0] == 109 && Ascii("clipboard")[0] == 99;
    assert Ascii("sync")[0] == Ascii("size")[0] == 115 && Ascii("nop")[0] == 110;
    hide Ascii;
  }

  /** Read back by the proxy's own parser the same holds exactly when no surrogate pair is forwarded. */
  lemma {:induction false} ReadBackByTheParser(frames: seq<Frame>)
    ensures ParseStream(Flatten(DeliverAll(CONNECTED, frames).written)) == Stream(Allowed(Understood(frames)), [], None)
       <==> StreamSendable(Allowed(Understood(frames)))
  {
    hide *;
    WritesFromTheStart(frames);
    EncodeThenParse(Allowed(Understood(frames)));
  }

  function TextsOf(frames: seq<Frame>): (r: seq<Text>)
    ensures Flatten(r) == Texts(frames)
  {
    if frames == [] then []
    else
      var more := TextsOf(frames[1..]);
      assert ([frames[0].text] + more)[1..] == more;
      [frames[0].text] + more
  }

  predicate InScale(frames: seq<Frame>) {
    forall i :: 0 <= i < |frames| ==> frames[i].bytes <= MAX_PENDING
  }

  /** The socket survives exactly the frames in scale that its parser survives. */
  lemma {:induction false} OpenExactly(o: Observer, frames: seq<Frame>)
    requires o.open
    ensures DeliverAll(o, frames).open <==> InScale(frames) && !Feed(o.buffer, TextsOf(frames)).thrown
    ensures DeliverAll(o, frames).open ==> DeliverAll(o, frames).buffer == Feed(o.buffer, TextsOf(frames)).buffer
    decreases |frames|
  {
    hide PushAnswer;
    hide PushKeeps;
    if frames != [] {
      var next := Deliver(o, frames[0]);
      assert TextsOf(frames)[0] == frames[0].text && TextsOf(frames)[1..] == TextsOf(frames[1..]);
      if next.open {
        OpenExactly(next, frames[1..]);
        assert forall i :: 0 < i < |frames| ==> frames[i] == frames[1..][i - 1];
      } else {
        ClosedStaysClosed(next, frames[1..]);
      }
    }
  }

  /**
    A sendable stream of instructions, none longer than the ceiling by more than its semicolon,
    keeps the socket open however it is framed, and the proxy's own parser reads back from what
    was written exactly the allowed ones.
   */
  lemma {:induction false} AllowedGetThrough(frames: seq<Frame>, instructions: seq<Instruction>)
    requires InScale(frames) && Texts(frames) == EncodeAll(instructions) && Deliverable(instructions)
    ensures var o := DeliverAll(CONNECTED, frames);
            && o.open && o.buffer == []
            && ParseStream(Flatten(o.written)) == Stream(Allowed(instructions), [], None)
  {
    hide ParseStream;
    hide EncodeAll;
    hide Encode;
    hide Feed;
    hide TextsOf;
    hide Allowed;
    hide DeliverAll;
    hide AllSendable;
    DeliveredInAnyChunks(instructions);
    assert Feed([], TextsOf(frames)) == Fed(instructions, [], false);
    OpenExactly(CONNECTED, frames);
    WritesFromTheStart(frames);
    EncodeThenParse(instructions);
    AllowedIsSendable(instructions);
    EncodeThenParse(Allowed(instructions));
  }

  lemma {:induction false} AllowedIsSendable(instructions: seq<Instruction>)
    requires StreamSendable(instructions)
    ensures StreamSendable(Allowed(instructions))
  {
    if instructions != [] {
      AllowedIsSendable(instructions[1..]);
    }
  }
}
