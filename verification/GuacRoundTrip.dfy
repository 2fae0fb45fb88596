/**
  Encoding against reading. The proxy's own parser counts UTF-16 units and inverts the encoder
  exactly on text without surrogate pairs; a reader that counts characters, as the protocol
  says, inverts it on every text.
 */
module GuacRoundTrip {
  import opened Wrappers
  import opened Utf16Text
  import opened GuacProtocol

  // ---------- One element ----------

  /** Can the proxy's parser get this element back? */
  predicate Sendable(e: Text) {
    PairFree(e) && |e| <= MAX_PENDING
  }

  predicate AllSendable(elements: seq<Text>) {
    forall i :: 0 <= i < |elements| ==> Sendable(elements[i])
  }

  predicate StreamSendable(instructions: seq<Instruction>) {
    forall i :: 0 <= i < |instructions| ==> AllSendable(instructions[i])
  }

  /** The dot an encoded element is read at is the one behind its length. */
  lemma {:induction false} EncodedDot(e: Text, t: Text)
    ensures var s, length := EncodeElement(e) + t, Decimal(CodePoints(e));
            && IndexOf(s, DOT, 0) == |length| > 0
            && s[..|length|] == length
            && s[|length| + 1..] == e + t
  {
    hide IndexOf;
    hide Decimal;
    hide CodePoints;
    var length := Decimal(CodePoints(e));
    var s := EncodeElement(e) + t;
    assert s == length + ([DOT] + e + t);
    assert forall k :: 0 <= k < |length| ==> s[k] == length[k] && IsDigit(length[k]);
    IndexOfUnique(s, DOT, 0, |length|);
    assert s[..|length|] == length;
    assert s[|length| + 1..] == e + t;
  }

  lemma {:induction false} ReadEncoded(e: Text, t: Text)
    ensures ReadElement(EncodeElement(e) + t) == ReadValue(Decimal(CodePoints(e)), e + t)
  {
    EncodedDot(e, t);
    hide ReadValue;
    hide EncodeElement;
    hide IndexOf;
  }

  lemma {:induction false} ReadSendable(e: Text, separator: CodeUnit, t: Text)
    requires Sendable(e) && (separator == SEMICOLON || separator == COMMA)
    ensures ReadElement(EncodeElement(e) + [separator] + t)
         == Element(e, separator == SEMICOLON, |EncodeElement(e)| + 1)
  {
    ReadEncoded(e, [separator] + t);
    assert EncodeElement(e) + [separator] + t == EncodeElement(e) + ([separator] + t);
    CodePointsVersusUnits(e);
    ToNatDecimal(|e|);
    var after := e + ([separator] + t);
    assert after[..|e|] == e && after[|e|] == separator;
  }

  /** Any other element comes back shorter, or not at all. */
  lemma {:induction false} ReadUnsendable(e: Text, t: Text)
    requires !Sendable(e)
    ensures var r := ReadElement(EncodeElement(e) + t); r.Element? ==> r.value != e
  {
    ReadEncoded(e, t);
    CodePointsVersusUnits(e);
    ToNatDecimal(CodePoints(e));
  }

  // ---------- One instruction ----------

  lemma {:induction false} ParseEncoded(elements: Instruction, t: Text)
    requires AllSendable(elements)
    ensures ParseFront(Encode(elements) + t) == Complete(elements, |Encode(elements)|)
    decreases |elements|
  {
    hide ReadElement;
    hide Encode;
    var e := elements[0];
    EncodeUnfold(elements);
    if |elements| == 1 {
      ReadSendable(e, SEMICOLON, t);
      assert elements == [e];
    } else {
      var tail: Instruction := elements[1..];
      assert Encode(elements) + t == EncodeElement(e) + [COMMA] + (Encode(tail) + t);
      ReadSendable(e, COMMA, Encode(tail) + t);
      assert (Encode(elements) + t)[|EncodeElement(e)| + 1..] == Encode(tail) + t;
      assert forall i :: 0 <= i < |tail| ==> tail[i] == elements[i + 1];
      ParseEncoded(tail, t);
      assert elements == [e] + tail;
    }
  }

  lemma {:induction false} ParseUnsendable(elements: Instruction, t: Text)
    requires !AllSendable(elements)
    ensures var p := ParseFront(Encode(elements) + t); p.Complete? ==> p.elements != elements
    decreases |elements|
  {
    hide ReadElement;
    hide Encode;
    var e := elements[0];
    var s := Encode(elements) + t;
    EncodeUnfold(elements);
    if !Sendable(e) {
      var behind := if |elements| == 1 then [SEMICOLON] + t else [COMMA] + Encode(elements[1..]) + t;
      assert s == EncodeElement(e) + behind;
      ReadUnsendable(e, behind);
    } else {
      assert |elements| > 1;
      var tail: Instruction := elements[1..];
      assert !AllSendable(tail) by {
        var i :| 0 <= i < |elements| && !Sendable(elements[i]);
        assert tail[i - 1] == elements[i];
      }
      assert s == EncodeElement(e) + [COMMA] + (Encode(tail) + t);
      ReadSendable(e, COMMA, Encode(tail) + t);
      assert s[|EncodeElement(e)| + 1..] == Encode(tail) + t;
      ParseUnsendable(tail, t);
      assert elements[1..] == tail;
    }
  }

  // ---------- A whole stream ----------

  /** Encoding and then parsing is the identity exactly when every element is sendable. */
  lemma {:induction false} EncodeThenParse(instructions: seq<Instruction>)
    ensures ParseStream(EncodeAll(instructions)) == Stream(instructions, [], None) <==> StreamSendable(instructions)
  {
    hide Encode;
    hide AllSendable;
    var s := EncodeAll(instructions);
    if instructions == [] {
      assert ParseFront([]).Incomplete?;
    } else {
      hide ParseFront;
      var tail := instructions[1..];
      assert s == Encode(instructions[0]) + EncodeAll(tail);
      EncodeThenParse(tail);
      assert StreamSendable(instructions) <==> AllSendable(instructions[0]) && StreamSendable(tail) by {
        assert forall i :: 1 <= i < |instructions| ==> instructions[i] == tail[i - 1];
      }
      if AllSendable(instructions[0]) {
        ParseEncoded(instructions[0], EncodeAll(tail));
        assert s[|Encode(instructions[0])|..] == EncodeAll(tail);
        assert instructions == [instructions[0]] + tail;
      } else {
        ParseUnsendable(instructions[0], EncodeAll(tail));
      }
    }
  }

  /** More generally, reading goes on behind an encoded, sendable stream. */
  lemma {:induction false} ParseBehindEncoded(instructions: seq<Instruction>, t: Text)
    requires StreamSendable(instructions)
    ensures var p := ParseStream(t);
            ParseStream(EncodeAll(instructions) + t) == Stream(instructions + p.instructions, p.rest, p.fault)
  {
    hide *;
    var s := EncodeAll(instructions);
    EncodeThenParse(instructions);
    ParseStreamAppend(s, t);
    assert [] + t == t;
  }

  /** An emoji, two units but one code point, is lost: the encoder announces one character. */
  lemma {:induction false} PairIsLost()
    ensures var emoji: Text := [0xD83D, 0xDE00];
            ParseStream(EncodeInstruction(emoji, [])) != Stream([[emoji]], [], None)
  {
    var emoji: Text := [0xD83D, 0xDE00];
    assert EncodeAll([[emoji]]) == EncodeInstruction(emoji, []) by {
      assert [emoji] + [] == [emoji];
      assert Encode([emoji]) + EncodeAll([]) == Encode([emoji]);
    }
    EncodeThenParse([[emoji]]);
    assert IsHighSurrogate(emoji[0]) && IsLowSurrogate(emoji[0 + 1]);
    assert !Sendable([[emoji]][0][0]);
  }

  // ---------- The protocol's own reader ----------

  /** Units taken by the first `n` code points, if there are that many. */
  function PointsLength(s: Text, n: nat): (r: Option<nat>)
    ensures r.Some? ==> r.value <= |s|
    decreases n
  {
    if n == 0 then Some(0)
    else if s == [] then None
    else
      var first := FirstPointLength(s);
      var more := PointsLength(s[first..], n - 1);
      if more.None? then None else Some(first + more.value)
  }

  /** One LENGTH.VALUE in which LENGTH counts characters, with no ceiling: value, last, units taken. */
  function ReadCharacters(s: Text): (r: Option<(Text, bool, nat)>)
    ensures r.Some? ==> 0 < r.value.2 <= |s|
  {
    var dot := IndexOf(s, DOT, 0);
    if dot == -1 || dot == 0 || !AllDigits(s[..dot]) then None
    else TakeCharacters(ToNat(s[..dot]), s[dot + 1..], dot + 1)
  }

  function TakeCharacters(count: nat, after: Text, before: nat): (r: Option<(Text, bool, nat)>)
    ensures r.Some? ==> before < r.value.2 <= before + |after|
  {
    var len := PointsLength(after, count);
    if len.None? || len.value == |after| then None
    else if after[len.value] != SEMICOLON && after[len.value] != COMMA then None
    else Some((after[..len.value], after[len.value] == SEMICOLON, before + len.value + 1))
  }

  function ReadInstruction(s: Text): (r: Option<(Instruction, nat)>)
    ensures r.Some? ==> 0 < r.value.1 <= |s|
    decreases |s|
  {
    var e := ReadCharacters(s);
    if e.None? then None
    else if e.value.1 then Some(([e.value.0], e.value.2))
    else
      var more := ReadInstruction(s[e.value.2..]);
      if more.None? then None else Some(([e.value.0] + more.value.0, e.value.2 + more.value.1))
  }

  /** What guacd reads, counting characters as the protocol defines LENGTH; None if it cannot. */
  function GuacdReads(s: Text): (r: Option<seq<Instruction>>)
    decreases |s|
  {
    if s == [] then Some([])
    else
      var front := ReadInstruction(s);
      if front.None? then None
      else
        var more := GuacdReads(s[front.value.1..]);
        if more.None? then None else Some([front.value.0] + more.value)
  }

  lemma {:induction false} PointsLengthOfPrefix(e: Text, behind: Text)
    requires behind != [] && !IsLowSurrogate(behind[0])
    ensures PointsLength(e + behind, CodePoints(e)) == Some(|e|)
  {
    if e == [] {
    } else {
      var first := FirstPointLength(e);
      assert FirstPointLength(e + behind) == first by {
        if |e| == 1 {
          assert (e + behind)[1] == behind[0];
        }
      }
      assert (e + behind)[first..] == e[first..] + behind;
      PointsLengthOfPrefix(e[first..], behind);
    }
  }

  lemma {:induction false} ReadCharactersOfEncoded(e: Text, separator: CodeUnit, t: Text)
    requires separator == SEMICOLON || separator == COMMA
    ensures ReadCharacters(EncodeElement(e) + [separator] + t)
         == Some((e, separator == SEMICOLON, |EncodeElement(e)| + 1))
  {
    var length := Decimal(CodePoints(e));
    var behind := [separator] + t;
    assert |EncodeElement(e)| == |length| + 1 + |e|;
    assert EncodeElement(e) + [separator] + t == EncodeElement(e) + behind;
    EncodedDot(e, behind);
    ToNatDecimal(CodePoints(e));
    TakeExactly(e, behind, |length| + 1);
    hide EncodeElement;
    hide TakeCharacters;
    hide IndexOf;
    hide Decimal;
    hide CodePoints;
  }

  lemma {:induction false} TakeExactly(e: Text, behind: Text, before: nat)
    requires behind != [] && (behind[0] == SEMICOLON || behind[0] == COMMA)
    ensures TakeCharacters(CodePoints(e), e + behind, before) == Some((e, behind[0] == SEMICOLON, before + |e| + 1))
  {
    hide *;
    PointsLengthOfPrefix(e, behind) by {
      assert !IsLowSurrogate(behind[0]) by {
        SeparatorIsNoSurrogate(behind[0]);
      }
    }
    TakeFound(CodePoints(e), e + behind, before, |e|);
    assert (e + behind)[..|e|] == e;
  }

  lemma {:induction false} SeparatorIsNoSurrogate(u: CodeUnit)
    requires u == SEMICOLON || u == COMMA
    ensures !IsLowSurrogate(u)
  {
  }

  lemma {:induction false} TakeFound(count: nat, after: Text, before: nat, n: nat)
    requires PointsLength(after, count) == Some(n) && n < |after|
    requires after[n] == SEMICOLON || after[n] == COMMA
    ensures TakeCharacters(count, after, before) == Some((after[..n], after[n] == SEMICOLON, before + n + 1))
  {
    hide PointsLength;
  }

  lemma {:induction false} ReadInstructionOfEncoded(elements: Instruction, t: Text)
    ensures ReadInstruction(Encode(elements) + t) == Some((elements, |Encode(elements)|))
    decreases |elements|
  {
    hide ReadCharacters;
    hide Encode;
    var e := elements[0];
    EncodeUnfold(elements);
    if |elements| == 1 {
      ReadCharactersOfEncoded(e, SEMICOLON, t);
      assert elements == [e];
    } else {
      var tail: Instruction := elements[1..];
      assert Encode(elements) + t == EncodeElement(e) + [COMMA] + (Encode(tail) + t);
      ReadCharactersOfEncoded(e, COMMA, Encode(tail) + t);
      assert (Encode(elements) + t)[|EncodeElement(e)| + 1..] == Encode(tail) + t;
      ReadInstructionOfEncoded(tail, t);
      assert elements == [e] + tail;
    }
  }

  /** For a reader that counts characters the encoder is right on every text. */
  lemma {:induction false} EncodeThenGuacdReads(instructions: seq<Instruction>)
    ensures GuacdReads(EncodeAll(instructions)) == Some(instructions)
  {
    hide ReadInstruction;
    hide Encode;
    if instructions != [] {
      var tail := instructions[1..];
      var s := EncodeAll(instructions);
      ReadInstructionOfEncoded(instructions[0], EncodeAll(tail));
      assert s[|Encode(instructions[0])|..] == EncodeAll(tail);
      EncodeThenGuacdReads(tail);
      assert instructions == [instructions[0]] + tail;
    }
  }
}
