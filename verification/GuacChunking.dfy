/**
  The parser over a whole connection: a text arrives cut into chunks at arbitrary places, and
  the caller stops at the first push that throws.
 */
module GuacChunking {
  import opened Wrappers
  import opened Sequences
  import opened Utf16Text
  import opened GuacProtocol
  import opened GuacRoundTrip
  import opened GuacBoundary

  datatype Fed = Fed(instructions: seq<Instruction>, buffer: Text, thrown: bool)

  /** What successive pushes return together, and what the parser is left holding. */
  function Feed(buffer: Text, chunks: seq<Text>): Fed
    decreases |chunks|
  {
    if chunks == [] then Fed([], buffer, false)
    else
      var buffered := buffer + chunks[0];
      var r := PushAnswer(buffered);
      if r.Thrown? then Fed([], [], true)
      else
        var more := Feed(PushKeeps(buffered), chunks[1..]);
        Fed(r.instructions + more.instructions, more.buffer, more.thrown)
  }

  /** The parser object itself, driven by the same loop its callers run. */
  method FeedParser(parser: GuacamoleParser, chunks: seq<Text>) returns (r: Fed)
    modifies parser
    ensures r == Feed(old(parser.buffer), chunks)
    ensures parser.buffer == r.buffer
    decreases |chunks|
  {
    if chunks == [] {
      return Fed([], parser.buffer, false);
    }
    var answer := parser.Push(chunks[0]);
    if answer.Thrown? {
      return Fed([], [], true);
    }
    var more := FeedParser(parser, chunks[1..]);
    r := Fed(answer.instructions + more.instructions, more.buffer, more.thrown);
  }

  /** The text received up to and including chunk `k` ends the connection. */
  predicate ChokesAt(buffer: Text, chunks: seq<Text>, k: nat)
    requires k <= |chunks|
  {
    Chokes(buffer + Flatten(chunks[..k]))
  }

  /** A buffer the parser can be in between two pushes. */
  predicate Idle(buffer: Text) {
    ParseStream(buffer) == Stream([], buffer, None) && |buffer| <= MAX_PENDING
  }

  lemma {:induction false} ChokesBehind(s: Text, t: Text)
    requires ParseStream(s).fault == None
    ensures Chokes(ParseStream(s).rest + t) <==> Chokes(s + t)
  {
    ParseStreamAppend(s, t);
  }

  lemma {:induction false} ChokesAtShift(buffer: Text, chunks: seq<Text>, k: nat)
    requires 1 <= k <= |chunks|
    requires ParseStream(buffer + chunks[0]).fault == None
    ensures ChokesAt(ParseStream(buffer + chunks[0]).rest, chunks[1..], k - 1) <==> ChokesAt(buffer, chunks, k)
  {
    hide Chokes;
    hide ParseStream;
    var tail := chunks[1..][..k - 1];
    assert chunks[..k][0] == chunks[0] && chunks[..k][1..] == tail;
    assert buffer + Flatten(chunks[..k]) == buffer + chunks[0] + Flatten(tail);
    ChokesBehind(buffer + chunks[0], Flatten(tail));
  }

  /**
    Exactly when a connection is thrown off, and what it has delivered otherwise: the instructions
    are those of the whole text read in one go, and the buffer is its unfinished tail.
   */
  lemma {:induction false} FeedExactly(buffer: Text, chunks: seq<Text>)
    requires Idle(buffer)
    ensures Feed(buffer, chunks).thrown <==> exists k :: 1 <= k <= |chunks| && ChokesAt(buffer, chunks, k)
    ensures var f := Feed(buffer, chunks);
            !f.thrown ==> ParseStream(buffer + Flatten(chunks)) == Stream(f.instructions, f.buffer, None)
    ensures !Feed(buffer, chunks).thrown ==> Idle(Feed(buffer, chunks).buffer)
    decreases |chunks|
  {
    hide ParseStream;
    if chunks == [] {
      assert buffer + [] == buffer;
    } else {
      var s := buffer + chunks[0];
      var p := ParseStream(s);
      assert Flatten(chunks[..1]) == chunks[0] by {
        assert chunks[..1][1..] == [];
      }
      assert ChokesAt(buffer, chunks, 1) <==> Chokes(s);
      if !Chokes(s) {
        RestIsIdle(s);
        FeedExactly(p.rest, chunks[1..]);
        FeedStep(buffer, chunks);
        ParseStreamAppend(s, Flatten(chunks[1..]));
        assert buffer + Flatten(chunks) == s + Flatten(chunks[1..]);
      }
    }
  }

  /** The first push did not throw: chunk positions move down by one. */
  lemma {:induction false} FeedStep(buffer: Text, chunks: seq<Text>)
    requires chunks != [] && !Chokes(buffer + chunks[0])
    ensures (exists k :: 1 <= k <= |chunks| && ChokesAt(buffer, chunks, k)) <==>
            exists k :: 1 <= k <= |chunks[1..]| && ChokesAt(ParseStream(buffer + chunks[0]).rest, chunks[1..], k)
  {
    hide ChokesAt;
    var rest := ParseStream(buffer + chunks[0]).rest;
    forall k | 1 <= k < |chunks|
      ensures ChokesAt(rest, chunks[1..], k) <==> ChokesAt(buffer, chunks, k + 1)
    {
      ChokesAtShift(buffer, chunks, k + 1);
    }
    assert !ChokesAt(buffer, chunks, 1) by {
      FirstChunk(buffer, chunks);
    }
    if k :| 1 <= k <= |chunks| && ChokesAt(buffer, chunks, k) {
      assert ChokesAt(rest, chunks[1..], k - 1) by {
        ChokesAtShift(buffer, chunks, k);
      }
    }
  }

  lemma {:induction false} FirstChunk(buffer: Text, chunks: seq<Text>)
    requires chunks != []
    ensures ChokesAt(buffer, chunks, 1) <==> Chokes(buffer + chunks[0])
  {
    assert chunks[..1][1..] == [];
    assert Flatten(chunks[..1]) == chunks[0];
  }

  // ---------- Independence of the chunking ----------

  /**
    One reading of the text finds no fault, and nowhere more than the ceiling before an
    instruction's last unit.
   */
  predicate ShortSpans(s: Text)
    decreases |s|
  {
    match ParseFront(s)
    case Incomplete => |s| <= MAX_PENDING
    case Malformed(_) => false
    case Complete(_, consumed) => consumed <= MAX_PENDING + 1 && ShortSpans(s[consumed..])
  }

  /** A text cut within its first instruction is unfinished; cut behind it, the instruction is read. */
  lemma {:induction false} ParseFrontOfPrefix(s: Text, k: nat)
    requires k <= |s| && !ParseFront(s).Malformed?
    ensures var front := ParseFront(s);
            ParseFront(s[..k]) == if front.Complete? && front.consumed <= k then front else Incomplete
  {
    hide ParseFront;
    hide SkipInstruction;
    assert s[..k] + s[k..] == s;
    if !ParseFront(s[..k]).Incomplete? {
      ParseFrontStable(s[..k], s[k..]);
    } else if ParseFront(s).Complete? && ParseFront(s).consumed <= k {
      SkipVersusParse(s);
      SkipVersusParse(s[..k]);
      PrefixSkips(s, k);
      assert false;
    }
  }

  lemma {:induction false} ChokesPrefix(s: Text, k: nat)
    requires k <= |s| && !ParseFront(s).Malformed?
    ensures var front := ParseFront(s);
            Chokes(s[..k]) <==>
            if front.Complete? && front.consumed <= k then Chokes(s[front.consumed..][..k - front.consumed])
            else k > MAX_PENDING
  {
    hide ParseFront;
    ParseFrontOfPrefix(s, k);
    var front := ParseFront(s);
    if front.Complete? && front.consumed <= k {
      assert s[..k][front.consumed..] == s[front.consumed..][..k - front.consumed];
    }
  }

  lemma {:induction false} ShortNeverChokes(s: Text, k: nat)
    requires ShortSpans(s) && k <= |s|
    ensures !Chokes(s[..k])
    decreases |s|
  {
    hide Chokes;
    hide ParseFront;
    ChokesPrefix(s, k);
    var front := ParseFront(s);
    if front.Complete? && front.consumed <= k {
      ShortNeverChokes(s[front.consumed..], k - front.consumed);
    }
  }

  /** Where a text that is not short could be cut to end the connection. */
  lemma {:induction false} LongChokes(s: Text) returns (k: nat)
    requires !ShortSpans(s)
    ensures k <= |s| && Chokes(s[..k])
    decreases |s|
  {
    hide ParseFront;
    var front := ParseFront(s);
    if front.Malformed? {
      k := |s|;
      assert s[..k] == s;
    } else if front.Complete? && front.consumed <= MAX_PENDING + 1 {
      k := LongChokes(s[front.consumed..]);
      k := front.consumed + k;
      ChokesPrefix(s, k);
    } else {
      k := MAX_PENDING + 1;
      ChokesPrefix(s, k);
    }
  }

  lemma {:induction false} FlattenPrefix(chunks: seq<Text>, k: nat)
    requires k <= |chunks|
    ensures Flatten(chunks[..k]) <= Flatten(chunks)
  {
    assert chunks == chunks[..k] + chunks[k..];
    FlattenAppend(chunks[..k], chunks[k..]);
  }

  /** Cutting a text of short spans in any way at all gives what reading it in one go gives. */
  lemma {:induction false} AnyChunking(chunks: seq<Text>)
    requires ShortSpans(Flatten(chunks))
    ensures var p := ParseStream(Flatten(chunks));
            p.fault == None && |p.rest| <= MAX_PENDING && Feed([], chunks) == Fed(p.instructions, p.rest, false)
  {
    hide ShortSpans;
    var s := Flatten(chunks);
    assert Idle([]) by {
      assert ParseFront([]).Incomplete?;
    }
    FeedExactly([], chunks);
    ShortNeverChokes(s, |s|);
    assert [] + s == s && s[..|s|] == s;
    forall k | 1 <= k <= |chunks|
      ensures !ChokesAt([], chunks, k)
    {
      hide Chokes;
      FlattenPrefix(chunks, k);
      var prefix := Flatten(chunks[..k]);
      ShortNeverChokes(s, |prefix|);
      assert s[..|prefix|] == prefix;
      assert [] + prefix == prefix;
    }
  }

  /** Every way of cutting the text delivers just this. */
  ghost predicate DeliversAnyhow(s: Text, fed: Fed) {
    forall chunks: seq<Text> :: Flatten(chunks) == s ==> Feed([], chunks) == fed
  }

  /**
    No chunking of a text throws exactly when its spans are short, and then all of them deliver
    the instructions of one reading and keep its unfinished tail.
   */
  lemma {:induction false} ChunkingIndependence(s: Text)
    ensures ShortSpans(s) <==> forall chunks: seq<Text> :: Flatten(chunks) == s ==> !Feed([], chunks).thrown
    ensures ShortSpans(s) ==> DeliversAnyhow(s, Fed(ParseStream(s).instructions, ParseStream(s).rest, false))
  {
    hide ShortSpans;
    if ShortSpans(s) {
      forall chunks: seq<Text> | Flatten(chunks) == s
        ensures Feed([], chunks) == Fed(ParseStream(s).instructions, ParseStream(s).rest, false)
      {
        AnyChunking(chunks);
      }
    } else {
      var k := LongChokes(s);
      var chunks := [s[..k], s[k..]];
      CutInTwo(s, k);
      assert Feed([], chunks).thrown by {
        assert [] + s[..k] == s[..k];
      }
    }
  }

  lemma {:induction false} CutInTwo(s: Text, k: nat)
    requires k <= |s|
    ensures Flatten([s[..k], s[k..]]) == s
  {
    var chunks := [s[..k], s[k..]];
    assert chunks[1..] == [s[k..]];
    assert Flatten([s[k..]]) == s[k..] + Flatten([]);
  }

  // ---------- Encoded streams ----------

  /** Instructions a sender may cut anywhere: readable, and short enough to wait for. */
  predicate Deliverable(instructions: seq<Instruction>) {
    && StreamSendable(instructions)
    && forall i :: 0 <= i < |instructions| ==> |Encode(instructions[i])| <= MAX_PENDING + 1
  }

  lemma {:induction false} SpansOfEncoded(instructions: seq<Instruction>)
    requires StreamSendable(instructions)
    ensures ShortSpans(EncodeAll(instructions)) <==> Deliverable(instructions)
  {
    hide Encode;
    hide AllSendable;
    var s := EncodeAll(instructions);
    if instructions == [] {
      assert ParseFront([]).Incomplete?;
    } else {
      hide ParseFront;
      var tail := instructions[1..];
      ParseEncoded(instructions[0], EncodeAll(tail));
      assert s[|Encode(instructions[0])|..] == EncodeAll(tail);
      assert forall i :: 1 <= i < |instructions| ==> instructions[i] == tail[i - 1];
      SpansOfEncoded(tail);
    }
  }

  /**
    What was sent is what is delivered, in order, however the network cuts it: exactly when every
    element is sendable and no instruction is longer than the ceiling by more than its semicolon.
   */
  lemma {:induction false} DeliveredInAnyChunks(instructions: seq<Instruction>)
    ensures Deliverable(instructions) <==> DeliversAnyhow(EncodeAll(instructions), Fed(instructions, [], false))
  {
    hide ShortSpans;
    hide EncodeAll;
    hide Feed;
    hide StreamSendable;
    var s := EncodeAll(instructions);
    ChunkingIndependence(s);
    EncodeThenParse(instructions);
    if StreamSendable(instructions) {
      SpansOfEncoded(instructions);
    }
    CutInTwo(s, |s|);
    var whole := [s[..|s|], s[|s|..]];
    if Feed([], whole) == Fed(instructions, [], false) && ShortSpans(s) {
      AnyChunking(whole);
    }
  }

  /**
    Where it does matter how a text is cut: an instruction of readable elements that is too long to
    wait for is delivered in one chunk, and thrown off when its semicolon comes late.
   */
  lemma {:induction false} LateSemicolon(elements: Instruction)
    requires AllSendable(elements) && |Encode(elements)| > MAX_PENDING + 1
    ensures var s := Encode(elements);
            && Feed([], [s]) == Fed([elements], [], false)
            && Feed([], [s[..|s| - 1], s[|s| - 1..]]).thrown
  {
    hide Encode;
    hide ParseFront;
    var s := Encode(elements);
    ParseEncoded(elements, []);
    assert s + [] == s && [] + s == s && [] + s[..|s| - 1] == s[..|s| - 1];
    ChokesPrefix(s, |s| - 1);
    assert EncodeAll([elements]) == s by {
      assert [elements][1..] == [];
    }
    EncodeThenParse([elements]);
    assert PushAnswer(s) == Emitted([elements]) && PushKeeps(s) == [];
    assert [s][1..] == [];
  }

  /** Two arguments of 40000 zeros are such an instruction. */
  lemma {:induction false} CutMatters() returns (s: Text, k: nat)
    ensures k <= |s| && !Feed([], [s]).thrown && Feed([], [s[..k], s[k..]]).thrown
  {
    hide Feed;
    hide Encode;
    hide CodePoints;
    var zeros: Text := seq(40000, _ => ZERO);
    var elements: Instruction := [zeros, zeros];
    EncodeUnfold(elements);
    EncodeUnfold(elements[1..]);
    LateSemicolon(elements);
    s := Encode(elements);
    k := |s| - 1;
  }
}
