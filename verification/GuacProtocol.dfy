/**
  The Guacamole wire codec of the connection proxy: the encoder, the strict incremental parser
  and what a whole stream means. The parser object is proved equal, push by push, to reading the
  whole text received so far in one go.
 */
module GuacProtocol {
  import opened Wrappers
  import opened Utf16Text

  /** Ceiling on one element and on the data held for an unfinished instruction. */
  const MAX_PENDING: nat := 64 * 1024

  /** The opcode followed by the arguments. */
  type Instruction = es: seq<Text> | es != [] witness [[]]

  datatype Reason = NotANumber | PastCeiling | BadSeparator | NothingComplete

  // ---------- Encoding ----------

  function EncodeElement(e: Text): Text {
    Decimal(CodePoints(e)) + [DOT] + e
  }

  function Join(parts: seq<Text>, separator: Text): Text
    requires parts != []
  {
    if |parts| == 1 then parts[0] else parts[0] + separator + Join(parts[1..], separator)
  }

  function Encode(elements: Instruction): Text {
    Join(seq(|elements|, i requires 0 <= i < |elements| => EncodeElement(elements[i])), [COMMA]) + [SEMICOLON]
  }

  function EncodeInstruction(opcode: Text, args: seq<Text>): Text {
    Encode([opcode] + args)
  }

  function EncodeAll(instructions: seq<Instruction>): Text {
    if instructions == [] then [] else Encode(instructions[0]) + EncodeAll(instructions[1..])
  }

  lemma {:induction false} EncodeUnfold(elements: Instruction)
    ensures |elements| == 1 ==> Encode(elements) == EncodeElement(elements[0]) + [SEMICOLON]
    ensures |elements| > 1 ==> Encode(elements) == EncodeElement(elements[0]) + [COMMA] + Encode(elements[1..])
  {
    var parts := seq(|elements|, i requires 0 <= i < |elements| => EncodeElement(elements[i]));
    if |elements| > 1 {
      var tail := elements[1..];
      assert parts[1..] == seq(|tail|, i requires 0 <= i < |tail| => EncodeElement(tail[i]));
    }
  }

  lemma {:induction false} EncodeAllAppend(a: seq<Instruction>, b: seq<Instruction>)
    ensures EncodeAll(a + b) == EncodeAll(a) + EncodeAll(b)
  {
    if a == [] {
      assert a + b == b;
    } else {
      assert (a + b)[1..] == a[1..] + b;
      EncodeAllAppend(a[1..], b);
    }
  }

  // ---------- What the front of a text says ----------

  datatype ElementScan = NeedMore | Broken(reason: Reason) | Element(value: Text, last: bool, length: nat)

  /** One LENGTH.VALUE with the separator behind it. */
  function ReadElement(s: Text): (r: ElementScan)
    ensures r.Element? ==> 0 < r.length <= |s|
  {
    var dot := IndexOf(s, DOT, 0);
    if dot == -1 then NeedMore else ReadValue(s[..dot], s[dot + 1..])
  }

  /** The length prefix is `raw` and `after` is everything behind its dot. */
  function ReadValue(raw: Text, after: Text): (r: ElementScan)
    ensures r.Element? ==> 0 < r.length <= |raw| + 1 + |after|
  {
    if raw == [] || !AllDigits(raw) then Broken(NotANumber)
    else
      var len := ToNat(raw);
      if len > MAX_PENDING then Broken(PastCeiling)
      else if |after| < len + 1 then NeedMore
      else if after[len] != SEMICOLON && after[len] != COMMA then Broken(BadSeparator)
      else Element(after[..len], after[len] == SEMICOLON, |raw| + 1 + len + 1)
  }

  datatype Parsed = Incomplete | Malformed(reason: Reason) | Complete(elements: Instruction, consumed: nat)

  /** The same element found by searching from `i` in a longer text, as a cursor does. */
  lemma {:induction false} ReadElementAt(s: Text, i: nat)
    requires i <= |s|
    ensures var dot := IndexOf(s, DOT, i);
            ReadElement(s[i..]) == if dot == -1 then NeedMore else ReadValue(s[i..dot], s[dot + 1..])
  {
    hide ReadValue;
    var tail := s[i..];
    var dot := IndexOf(s, DOT, i);
    if dot == -1 {
      assert IndexOf(tail, DOT, 0) == -1;
    } else {
      IndexOfUnique(tail, DOT, 0, dot - i);
      assert tail[..dot - i] == s[i..dot];
      assert tail[dot - i + 1..] == s[dot + 1..];
    }
  }

  /** One instruction at the front of a text. */
  function ParseFront(s: Text): (r: Parsed)
    ensures r.Complete? ==> 0 < r.consumed <= |s|
    decreases |s|
  {
    match ReadElement(s)
    case NeedMore => Incomplete
    case Broken(reason) => Malformed(reason)
    case Element(value, last, length) =>
      if last then Complete([value], length) else Behind([value], length, ParseFront(s[length..]))
  }

  /** What a parse means once `elements`, taking `offset` units, have been read before it. */
  function Behind(elements: seq<Text>, offset: nat, p: Parsed): (r: Parsed) {
    if p.Complete? then Complete(elements + p.elements, offset + p.consumed) else p
  }

  lemma {:induction false} BehindNothing(s: Text)
    ensures Behind([], 0, ParseFront(s[0..])) == ParseFront(s)
  {
    hide ParseFront;
    assert s[0..] == s;
    var p := ParseFront(s);
    if p.Complete? {
      assert [] + p.elements == p.elements;
    }
  }

  /** What a cursor at `i` holding `elements` makes of the element in front of it. */
  lemma {:induction false} BehindNext(s: Text, elements: seq<Text>, i: nat)
    requires i <= |s|
    ensures var e := ReadElement(s[i..]);
            Behind(elements, i, ParseFront(s[i..])) ==
            if e.NeedMore? then Incomplete
            else if e.Broken? then Malformed(e.reason)
            else if e.last then Complete(elements + [e.value], i + e.length)
            else Behind(elements + [e.value], i + e.length, ParseFront(s[i + e.length..]))
  {
    hide ReadElement;
    var tail := s[i..];
    var e := ReadElement(tail);
    if e.Element? && !e.last {
      assert tail[e.length..] == s[i + e.length..];
      var p := ParseFront(tail[e.length..]);
      if p.Complete? {
        assert elements + ([e.value] + p.elements) == elements + [e.value] + p.elements;
      }
    }
  }

  /** The same step in the terms of the parser's cursors. */
  lemma {:induction false} CursorStep(s: Text, elements: seq<Text>, i: nat)
    requires i <= |s|
    ensures var whole := Behind(elements, i, ParseFront(s[i..]));
            var dot := IndexOf(s, DOT, i);
            if dot == -1 then whole == Incomplete
            else
              var raw := s[i..dot];
              if raw == [] || !AllDigits(raw) then whole == Malformed(NotANumber)
              else if ToNat(raw) > MAX_PENDING then whole == Malformed(PastCeiling)
              else
                var end := dot + 1 + ToNat(raw);
                if |s| < end + 1 then whole == Incomplete
                else
                  var longer := elements + [s[dot + 1..end]];
                  if s[end] == SEMICOLON then whole == Complete(longer, end + 1)
                  else if s[end] == COMMA then whole == Behind(longer, end + 1, ParseFront(s[end + 1..]))
                  else whole == Malformed(BadSeparator)
  {
    hide ReadElement;
    hide ParseFront;
    hide Behind;
    hide IndexOf;
    hide AllDigits;
    hide ToNat;
    ReadElementAt(s, i);
    BehindNext(s, elements, i);
    var dot := IndexOf(s, DOT, i);
    if dot != -1 && AllDigits(s[i..dot]) {
      var end := dot + 1 + ToNat(s[i..dot]);
      if end < |s| {
        assert s[dot + 1..][..end - dot - 1] == s[dot + 1..end];
      }
    }
  }

  datatype Stream = Stream(instructions: seq<Instruction>, rest: Text, fault: Option<Reason>)

  /** The one-shot reading of a whole text: every leading instruction, and where it stops. */
  function ParseStream(s: Text): (r: Stream)
    decreases |s|
  {
    match ParseFront(s)
    case Incomplete => Stream([], s, None)
    case Malformed(reason) => Stream([], s, Some(reason))
    case Complete(elements, consumed) =>
      var tail := ParseStream(s[consumed..]);
      tail.(instructions := [elements] + tail.instructions)
  }

  // ---------- More text never changes what was read ----------

  lemma {:induction false} ReadElementStable(s: Text, t: Text)
    requires !ReadElement(s).NeedMore?
    ensures ReadElement(s + t) == ReadElement(s)
  {
    var dot := IndexOf(s, DOT, 0);
    IndexOfUnique(s + t, DOT, 0, dot);
    assert (s + t)[..dot] == s[..dot];
    assert (s + t)[dot + 1..] == s[dot + 1..] + t;
    ReadValueStable(s[..dot], s[dot + 1..], t);
  }

  lemma {:induction false} ReadValueStable(raw: Text, after: Text, t: Text)
    requires !ReadValue(raw, after).NeedMore?
    ensures ReadValue(raw, after + t) == ReadValue(raw, after)
  {
    if AllDigits(raw) && ToNat(raw) <= |after| {
      assert (after + t)[..ToNat(raw)] == after[..ToNat(raw)];
    }
  }

  lemma {:induction false} ParseFrontStable(s: Text, t: Text)
    requires !ParseFront(s).Incomplete?
    ensures ParseFront(s + t) == ParseFront(s)
    decreases |s|
  {
    ReadElementStable(s, t);
    var e := ReadElement(s);
    if e.Element? && !e.last {
      assert (s + t)[e.length..] == s[e.length..] + t;
      ParseFrontStable(s[e.length..], t);
    }
  }

  lemma {:induction false} ParseStreamUnfold(s: Text)
    ensures var front := ParseFront(s);
            ParseStream(s) ==
            if front.Complete? then
              var tail := ParseStream(s[front.consumed..]);
              Stream([front.elements] + tail.instructions, tail.rest, tail.fault)
            else Stream([], s, if front.Malformed? then Some(front.reason) else None)
  {
  }

  /** Reading on from the unfinished tail is reading the whole text again. */
  lemma {:induction false} ParseStreamAppend(s: Text, t: Text)
    requires ParseStream(s).fault == None
    ensures var p := ParseStream(s);
            var q := ParseStream(p.rest + t);
            ParseStream(s + t) == Stream(p.instructions + q.instructions, q.rest, q.fault)
    decreases |s|
  {
    hide *;
    var front := ParseFront(s);
    var p := ParseStream(s);
    var q := ParseStream(p.rest + t);
    ParseStreamUnfold(s);
    if front.Complete? {
      var tail := s[front.consumed..];
      ParseFrontStable(s, t);
      assert (s + t)[front.consumed..] == tail + t;
      ParseStreamUnfold(s + t);
      ParseStreamAppend(tail, t);
      assert [front.elements] + (ParseStream(tail).instructions + q.instructions)
          == p.instructions + q.instructions;
    } else {
      assert p.instructions + q.instructions == q.instructions;
    }
  }

  /** A stream that is broken stays broken at the same place. */
  lemma {:induction false} ParseStreamBroken(s: Text, t: Text)
    requires ParseStream(s).fault.Some?
    ensures var p := ParseStream(s);
            ParseStream(s + t) == Stream(p.instructions, p.rest + t, p.fault)
    decreases |s|
  {
    hide *;
    var front := ParseFront(s);
    ParseStreamUnfold(s);
    ParseFrontStable(s, t);
    ParseStreamUnfold(s + t);
    if front.Complete? {
      var tail := s[front.consumed..];
      assert (s + t)[front.consumed..] == tail + t;
      ParseStreamBroken(tail, t);
    }
  }

  lemma {:induction false} RestIsIdle(s: Text)
    requires ParseStream(s).fault == None
    ensures ParseStream(ParseStream(s).rest) == Stream([], ParseStream(s).rest, None)
    decreases |s|
  {
    if ParseFront(s).Complete? {
      RestIsIdle(s[ParseFront(s).consumed..]);
    }
  }

  // ---------- The incremental parser ----------

  datatype PushResult = Emitted(instructions: seq<Instruction>) | Thrown(reason: Reason)

  /** Does reading `s` end the connection: a fault, or too much held for one instruction? */
  predicate Chokes(s: Text) {
    var p := ParseStream(s);
    p.fault.Some? || |p.rest| > MAX_PENDING
  }

  /** What a push answers, given the buffer with the new chunk appended. */
  function PushAnswer(buffered: Text): PushResult {
    var p := ParseStream(buffered);
    if p.fault.Some? then Thrown(p.fault.value)
    else if |p.rest| > MAX_PENDING then Thrown(NothingComplete)
    else Emitted(p.instructions)
  }

  /** What a push leaves in the buffer; a failed parser drops everything. */
  function PushKeeps(buffered: Text): Text {
    if Chokes(buffered) then [] else ParseStream(buffered).rest
  }

  /** From what the push loop has found to the answer and the buffer it ends with. */
  lemma {:induction false} PushEnds(buffered: Text, found: seq<Instruction>, left: Text, p: Stream)
    requires ParseStream(buffered) == Stream(found + p.instructions, p.rest, p.fault)
    requires p == Stream([], left, p.fault)
    ensures PushAnswer(buffered) ==
            if p.fault.Some? then Thrown(p.fault.value)
            else if |left| > MAX_PENDING then Thrown(NothingComplete)
            else Emitted(found)
    ensures PushKeeps(buffered) == if p.fault.Some? || |left| > MAX_PENDING then [] else left
  {
    assert found + [] == found;
  }

  class GuacamoleParser {
    var buffer: Text

    constructor ()
      ensures buffer == []
    {
      buffer := [];
    }

    /** Reading goes on behind what was kept; a fault, or too long an unfinished tail, ends it. */
    method Push(chunk: Text) returns (r: PushResult)
      modifies this
      ensures r == PushAnswer(old(buffer) + chunk)
      ensures buffer == PushKeeps(old(buffer) + chunk)
    {
      hide *;
      buffer := buffer + chunk;
      ghost var all := buffer;
      var instructions: seq<Instruction> := [];
      assert [] + ParseStream(all).instructions == ParseStream(all).instructions;
      while true
        invariant var p := ParseStream(buffer);
                  ParseStream(all) == Stream(instructions + p.instructions, p.rest, p.fault)
        decreases |buffer|
      {
        ghost var p := ParseStream(buffer);
        ParseStreamUnfold(buffer);
        ghost var front := buffer;
        var parsed := ParseOne();
        if parsed.Malformed? {
          PushEnds(all, instructions, front, p);
          return Thrown(parsed.reason);
        }
        if parsed.Incomplete? {
          PushEnds(all, instructions, front, p);
          break;
        }
        ghost var tail := ParseStream(buffer[parsed.consumed..]);
        assert instructions + ([parsed.elements] + tail.instructions)
            == instructions + [parsed.elements] + tail.instructions;
        instructions := instructions + [parsed.elements];
        buffer := buffer[parsed.consumed..];
      }
      if |buffer| > MAX_PENDING {
        Fail();
        return Thrown(NothingComplete);
      }
      return Emitted(instructions);
    }

    /** The instruction in front, if it is all there; only a malformed one changes the buffer. */
    method ParseOne() returns (r: Parsed)
      modifies this
      ensures r == ParseFront(old(buffer))
      ensures buffer == if r.Malformed? then [] else old(buffer)
    {
      hide *;
      BehindNothing(buffer);
      var elements: seq<Text> := [];
      var i: nat := 0;
      while true
        invariant i <= |buffer|
        invariant buffer == old(buffer)
        invariant ParseFront(buffer) == Behind(elements, i, ParseFront(buffer[i..]))
        decreases |buffer| - i
      {
        CursorStep(buffer, elements, i);
        var dot := IndexOf(buffer, DOT, i);
        if dot == -1 {
          return Incomplete;
        }
        var raw := buffer[i..dot];
        if raw == [] || !AllDigits(raw) {
          Fail();
          return Malformed(NotANumber);
        }
        var len := ToNat(raw);
        if len > MAX_PENDING {
          Fail();
          return Malformed(PastCeiling);
        }
        var valueStart := dot + 1;
        var valueEnd := valueStart + len;
        if |buffer| < valueEnd + 1 {
          return Incomplete;
        }
        elements := elements + [buffer[valueStart..valueEnd]];
        var sep := buffer[valueEnd];
        i := valueEnd + 1;
        if sep == SEMICOLON {
          return Complete(elements, i);
        }
        if sep != COMMA {
          Fail();
          return Malformed(BadSeparator);
        }
      }
    }

    /** What was held is worth nothing once the stream is broken. */
    method Fail()
      modifies this
      ensures buffer == []
    {
      buffer := [];
    }
  }
}
