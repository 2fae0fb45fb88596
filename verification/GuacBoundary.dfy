/**
  The second scanner of the proxy: how much of a text consists of whole instructions. It keeps
  no elements and applies no ceiling, and is proved to stop exactly where the strict parser does.
 */
module GuacBoundary {
  import opened Wrappers
  import opened Utf16Text
  import opened JsNumber
  import opened GuacProtocol

  datatype ElementSkip = Stop | Skip(last: bool, length: nat)

  /** One element passed over. A prefix that is no whole number stops the scan, a negative one is not looked at. */
  function SkipElement(s: Text): (r: ElementSkip)
    ensures r.Skip? ==> 0 < r.length <= |s|
  {
    var dot := IndexOf(s, DOT, 0);
    if dot == -1 then Stop else SkipValue(s[..dot], s[dot + 1..])
  }

  function SkipValue(raw: Text, after: Text): (r: ElementSkip)
    ensures r.Skip? ==> 0 < r.length <= |raw| + 1 + |after|
  {
    if Integral(raw) == None || Backward(raw) then Stop
    else
      var len := Integral(raw).value;
      if |after| < len + 1 then Stop
      else if after[len] != SEMICOLON && after[len] != COMMA then Stop
      else Skip(after[len] == SEMICOLON, |raw| + 1 + len + 1)
  }

  /** Units of the instruction at the front, if it is all there. */
  function SkipInstruction(s: Text): (r: Option<nat>)
    ensures r.Some? ==> 0 < r.value <= |s|
    decreases |s|
  {
    var e := SkipElement(s);
    if e.Stop? then None
    else if e.last then Some(e.length)
    else Further(e.length, SkipInstruction(s[e.length..]))
  }

  function Further(offset: nat, n: Option<nat>): Option<nat> {
    if n.Some? then Some(offset + n.value) else None
  }

  /** Length of the leading run of whole instructions. */
  function Boundary(s: Text): (n: nat)
    ensures n <= |s|
    decreases |s|
  {
    var first := SkipInstruction(s);
    if first.None? then 0 else first.value + Boundary(s[first.value..])
  }

  /** Nothing but whole instructions. */
  predicate Whole(s: Text) {
    Boundary(s) == |s|
  }

  /** A negative length: it may take the scan backwards. */
  predicate Backward(raw: Text) {
    Integral(raw).Some? && Integral(raw).value < 0
  }

  /** No length prefix the scan meets is negative. */
  predicate ForwardLengths(s: Text)
    decreases |s|
  {
    var dot := IndexOf(s, DOT, 0);
    dot == -1 ||
    (!Backward(s[..dot]) && var e := SkipElement(s); e.Skip? ==> ForwardLengths(s[e.length..]))
  }

  // ---------- The scanning loops ----------

  lemma {:induction false} SkipStep(s: Text, i: nat)
    requires i <= |s| && ForwardLengths(s[i..])
    ensures var whole := SkipInstruction(s[i..]);
            var dot := IndexOf(s, DOT, i);
            && (dot == -1 ==> whole == None)
            && (dot != -1 && Integral(s[i..dot]) == None ==> whole == None)
            && (dot != -1 && Integral(s[i..dot]).Some? ==>
                  var end := dot + 1 + Integral(s[i..dot]).value;
                  && dot < end
                  && (|s| < end + 1 ==> whole == None)
                  && (|s| >= end + 1 ==>
                        if s[end] == SEMICOLON then whole == Some(end + 1 - i) && ForwardLengths(s[end + 1..])
                        else if s[end] == COMMA then
                          whole == Further(end + 1 - i, SkipInstruction(s[end + 1..])) && ForwardLengths(s[end + 1..])
                        else whole == None))
  {
    hide SkipElement;
    hide IndexOf;
    hide Integral;
    var tail := s[i..];
    var dot := IndexOf(s, DOT, i);
    SkipElementAt(s, i);
    if dot != -1 {
      assert tail[..dot - i] == s[i..dot];
      var e := SkipElement(tail);
      if e.Skip? {
        assert tail[e.length..] == s[i + e.length..];
      }
    }
  }

  lemma {:induction false} SkipElementAt(s: Text, i: nat)
    requires i <= |s|
    ensures var dot := IndexOf(s, DOT, i);
            SkipElement(s[i..]) == (if dot == -1 then Stop else SkipValue(s[i..dot], s[dot + 1..])) &&
            IndexOf(s[i..], DOT, 0) == if dot == -1 then -1 else dot - i
  {
    hide SkipValue;
    var tail := s[i..];
    var dot := IndexOf(s, DOT, i);
    if dot == -1 {
      assert IndexOf(tail, DOT, 0) == -1;
    } else {
      IndexOfUnique(tail, DOT, 0, dot - i);
      assert tail[..dot - i] == s[i..dot];
      assert tail[dot - i + 1..] == s[dot + 1..];
    }
  }

  lemma {:induction false} BoundaryStep(s: Text, i: nat)
    requires i <= |s|
    ensures var first := SkipInstruction(s[i..]);
            Boundary(s[i..]) == if first.None? then 0 else first.value + Boundary(s[i + first.value..])
  {
    hide SkipInstruction;
    var first := SkipInstruction(s[i..]);
    if first.Some? {
      assert s[i..][first.value..] == s[i + first.value..];
    }
  }

  datatype Turn = Ends | Completes(at: nat) | GoesOn(at: nat)

  /** One turn of the inner loop at `j`, whatever the length prefix there is. */
  function TurnAt(s: Text, j: nat): (r: Turn)
    requires j <= |s|
    ensures !r.Ends? ==> r.at <= |s|
  {
    var dot := IndexOf(s, DOT, j);
    if dot == -1 || Integral(s[j..dot]) == None then Ends
    else
      var end := dot + 1 + Integral(s[j..dot]).value;
      if end < 0 || end >= |s| then Ends
      else if s[end] == SEMICOLON then Completes(end + 1)
      else if s[end] == COMMA then GoesOn(end + 1)
      else Ends
  }

  /** Where both loops are after that many turns from `j`, if they still turn. */
  function Walk(s: Text, j: nat, turns: nat): (r: Option<nat>)
    requires j <= |s|
    ensures r.Some? ==> r.value <= |s|
    decreases turns
  {
    if turns == 0 then Some(j)
    else
      var turn := TurnAt(s, j);
      if turn.Ends? then None else Walk(s, turn.at, turns - 1)
  }

  /** Turns enough for every position of the text. */
  predicate ScanEnds(s: Text) {
    Walk(s, 0, |s| + 1) == None
  }

  /** Where the last instruction completed within that many turns ends. */
  function ScanFrom(s: Text, j: nat, consumed: nat, turns: nat): (n: nat)
    requires j <= |s| && consumed <= |s|
    ensures n <= |s|
    decreases turns
  {
    if turns == 0 then consumed
    else
      match TurnAt(s, j)
      case Ends => consumed
      case GoesOn(at) => ScanFrom(s, at, consumed, turns - 1)
      case Completes(at) => ScanFrom(s, at, at, turns - 1)
  }

  function Scan(s: Text): (n: nat)
    ensures n <= |s|
  {
    ScanFrom(s, 0, 0, |s| + 1)
  }

  lemma {:induction false} TurnUnfold(s: Text, j: nat, consumed: nat, turns: nat)
    requires j <= |s| && consumed <= |s| && Walk(s, j, turns) == None
    ensures turns > 0
    ensures var turn, n := TurnAt(s, j), ScanFrom(s, j, consumed, turns);
            && (turn.Ends? ==> n == consumed)
            && (!turn.Ends? ==> Walk(s, turn.at, turns - 1) == None)
            && (turn.GoesOn? ==> n == ScanFrom(s, turn.at, consumed, turns - 1))
            && (turn.Completes? ==> n == ScanFrom(s, turn.at, turn.at, turns - 1))
            && (j == |s| ==> turn.Ends?)
  {
  }

  /** One scan without building elements, on every text on which it ends. */
  method CompleteInstructionsLength(s: Text) returns (n: nat)
    requires ScanEnds(s)
    ensures n == Scan(s)
    ensures ForwardLengths(s) ==> n == Boundary(s)
  {
    hide Walk;
    hide ScanFrom;
    hide Boundary;
    hide ForwardLengths;
    hide IndexOf;
    hide Integral;
    var consumed: nat := 0;
    var i: nat := 0;
    ghost var turns: nat := |s| + 1;
    while i < |s|
      invariant i <= |s| && consumed == i
      invariant Walk(s, i, turns) == None && ScanFrom(s, i, consumed, turns) == Scan(s)
      decreases turns
    {
      var j := i;
      var complete := false;
      ghost var before := turns;
      while true
        invariant j <= |s| && !complete && turns <= before
        invariant Walk(s, j, turns) == None && ScanFrom(s, j, consumed, turns) == Scan(s)
        decreases turns
      {
        TurnUnfold(s, j, consumed, turns);
        turns := turns - 1;
        var dot := IndexOf(s, DOT, j);
        if dot == -1 {
          break;
        }
        var len := Integral(s[j..dot]);
        if len == None {
          break;
        }
        var valueEnd := dot + 1 + len.value;
        if |s| < valueEnd + 1 {
          break;
        }
        // In front of the text there is no separator.
        if valueEnd < 0 {
          break;
        }
        var sep := s[valueEnd];
        j := valueEnd + 1;
        if sep == SEMICOLON {
          complete := true;
          break;
        }
        if sep != COMMA {
          break;
        }
      }
      if !complete {
        break;
      }
      consumed := j;
      i := j;
    }
    if i == |s| {
      TurnUnfold(s, i, consumed, turns);
    }
    if ForwardLengths(s) {
      ForwardScan(s);
    }
    return consumed;
  }

  lemma {:induction false} BoundaryOfNothing()
    ensures Boundary([]) == 0 && SkipInstruction([]) == None
  {
    assert SkipElement([]).Stop?;
  }

  // ---------- When the scan ends ----------

  lemma {:induction false} WalkPlus(s: Text, j: nat, a: nat, b: nat)
    requires j <= |s|
    ensures Walk(s, j, a + b) == if Walk(s, j, a) == None then None else Walk(s, Walk(s, j, a).value, b)
    decreases a
  {
    hide TurnAt;
    if a > 0 && TurnAt(s, j) != Ends {
      WalkPlus(s, TurnAt(s, j).at, a - 1, b);
    }
  }

  /** The loops are back where they were `apart` turns before. */
  predicate ComesBack(s: Text, i: nat, apart: nat) {
    apart > 0 && Walk(s, 0, i).Some? && Walk(s, 0, i + apart) == Walk(s, 0, i)
  }

  /** Whoever comes back does so for ever. */
  lemma {:induction false} BackForEver(s: Text, i: nat, apart: nat, n: nat)
    requires ComesBack(s, i, apart)
    ensures Walk(s, 0, n).Some?
  {
    hide Walk;
    if n <= i + apart {
      WalkPlus(s, 0, n, i + apart - n);
    } else {
      BackForEver(s, i, apart, n - apart);
      WalkPlus(s, 0, i + apart, n - i - apart);
      WalkPlus(s, 0, i, n - i - apart);
    }
  }

  /** Distinct numbers below `n` are at most `n`. */
  lemma {:induction false} Pigeonhole(a: seq<nat>, n: nat)
    requires forall i :: 0 <= i < |a| ==> a[i] < n
    requires forall i, j :: 0 <= i < j < |a| ==> a[i] != a[j]
    ensures |a| <= n
  {
    if a != [] {
      assert a[0] < n;
      if k :| 0 <= k < |a| && a[k] == n - 1 {
        var others := a[..k] + a[k + 1..];
        assert forall i :: 0 <= i < |others| ==> others[i] == a[if i < k then i else i + 1];
        Pigeonhole(others, n - 1);
      } else {
        Pigeonhole(a, n - 1);
      }
    }
  }

  /** A scan that has not ended in as many turns as there are positions has come back to one. */
  lemma {:induction false} LongWalkComesBack(s: Text)
    requires !ScanEnds(s)
    ensures exists i, apart :: ComesBack(s, i, apart)
  {
    hide Walk;
    var n := |s| + 1;
    forall k | 0 <= k <= n
      ensures Walk(s, 0, k).Some?
    {
      WalkPlus(s, 0, k, n - k);
    }
    var places := seq(n + 1, k requires 0 <= k <= n => Walk(s, 0, k).value);
    if forall i, j :: 0 <= i < j <= n ==> places[i] != places[j] {
      Pigeonhole(places, n);
      assert false;
    }
    var i, j :| 0 <= i < j <= n && places[i] == places[j];
    assert ComesBack(s, i, j - i);
  }

  /**
    The scan ends at all if and only if it never comes back to a position, and then within one
    turn for each position of the text.
   */
  lemma {:induction false} ScanEndsExactly(s: Text)
    ensures ScanEnds(s) <==> exists n :: Walk(s, 0, n) == None
    ensures ScanEnds(s) <==> forall i, apart :: !ComesBack(s, i, apart)
  {
    hide Walk;
    if i, apart :| ComesBack(s, i, apart) {
      forall n: nat
        ensures Walk(s, 0, n).Some?
      {
        BackForEver(s, i, apart, n);
      }
    } else {
      if !ScanEnds(s) {
        LongWalkComesBack(s);
      }
      assert Walk(s, 0, |s| + 1) == None;
    }
  }

  // ---------- Lengths that go forward ----------

  lemma {:induction false} ForwardTurn(s: Text, j: nat)
    requires j <= |s| && ForwardLengths(s[j..])
    ensures var turn, whole := TurnAt(s, j), SkipInstruction(s[j..]);
            && (turn.Ends? ==> whole == None)
            && (!turn.Ends? ==> turn.at > j && ForwardLengths(s[turn.at..]))
            && (turn.Completes? ==> whole == Some(turn.at - j))
            && (turn.GoesOn? ==> whole == Further(turn.at - j, SkipInstruction(s[turn.at..])))
  {
    hide IndexOf;
    hide Integral;
    hide SkipInstruction;
    hide ForwardLengths;
    hide Further;
    SkipStep(s, j);
  }

  /** With no negative length ahead the scan ends, at the last boundary. */
  lemma {:induction false} ForwardScanFrom(s: Text, j: nat, consumed: nat, turns: nat)
    requires j <= |s| && consumed <= |s| && ForwardLengths(s[j..]) && turns > |s| - j
    ensures Walk(s, j, turns) == None
    ensures var rest := SkipInstruction(s[j..]);
            ScanFrom(s, j, consumed, turns) ==
            if rest == None then consumed else j + rest.value + Boundary(s[j + rest.value..])
    decreases turns
  {
    hide TurnAt;
    hide SkipInstruction;
    hide ForwardLengths;
    hide Boundary;
    ForwardTurn(s, j);
    var turn := TurnAt(s, j);
    if turn.GoesOn? {
      ForwardScanFrom(s, turn.at, consumed, turns - 1);
    } else if turn.Completes? {
      ForwardScanFrom(s, turn.at, turn.at, turns - 1);
      BoundaryStep(s, turn.at);
    }
  }

  /** Lengths that go forward are enough for the scan to end, and then it finds the boundary. */
  lemma {:induction false} ForwardScan(s: Text)
    requires ForwardLengths(s)
    ensures ScanEnds(s) && Scan(s) == Boundary(s)
  {
    hide Walk;
    hide ScanFrom;
    assert s[0..] == s;
    ForwardScanFrom(s, 0, 0, |s| + 1);
    BoundaryStep(s, 0);
  }

  /** "0.,-4.,": behind the first element the length takes the inner loop back to where it is. */
  const GOES_BACK: Text := [48, 46, 44, 45, 52, 46, 44]

  /** "0.;-4.;": here it takes the outer loop back to where it is. */
  const COMPLETES_BACK: Text := [48, 46, 59, 45, 52, 46, 59]

  /** "-9.,": a negative length, and yet the scan ends. */
  const BACK_TOO_FAR: Text := [45, 57, 46, 44]

  lemma {:induction false} NegativeLengthLoopsForEver(turns: nat)
    ensures Walk(GOES_BACK, 0, turns).Some? && Walk(COMPLETES_BACK, 0, turns).Some?
    ensures TurnAt(GOES_BACK, 3) == GoesOn(3) && TurnAt(COMPLETES_BACK, 3) == Completes(3)
  {
    hide TurnAt;
    TurnsBack();
    StaysAtThree(GOES_BACK);
    StaysAtThree(COMPLETES_BACK);
    BackForEver(GOES_BACK, 1, 1, turns);
    BackForEver(COMPLETES_BACK, 1, 1, turns);
  }

  lemma {:induction false} StaysAtThree(s: Text)
    requires |s| == 7 && TurnAt(s, 0) != Ends && TurnAt(s, 0).at == 3 && TurnAt(s, 3) == TurnAt(s, 0)
    ensures ComesBack(s, 1, 1)
  {
    hide TurnAt;
    assert Walk(s, 0, 1) == Walk(s, 3, 0) == Some(3);
    assert Walk(s, 0, 2) == Walk(s, 3, 1) == Walk(s, 3, 0);
  }

  lemma {:induction false} TurnsBack()
    ensures TurnAt(GOES_BACK, 0) == TurnAt(GOES_BACK, 3) == GoesOn(3)
    ensures TurnAt(COMPLETES_BACK, 0) == TurnAt(COMPLETES_BACK, 3) == Completes(3)
  {
    hide TurnAt;
    hide Integral;
    MinusFour();
    assert GOES_BACK[0..1] == COMPLETES_BACK[0..1] == [48];
    assert GOES_BACK[3..5] == COMPLETES_BACK[3..5] == [45, 52];
    OneTurn(GOES_BACK, 0, 1, 0);
    OneTurn(GOES_BACK, 3, 5, -4);
    OneTurn(COMPLETES_BACK, 0, 1, 0);
    OneTurn(COMPLETES_BACK, 3, 5, -4);
  }

  lemma {:induction false} MinusFour()
    ensures Integral([48]) == Some(0) && Integral([45, 52]) == Some(-4) && Integral([45, 57]) == Some(-9)
  {
    IntegralOfDigits([48]);
  }

  lemma {:induction false} OneTurn(s: Text, j: nat, dot: nat, len: int)
    requires j <= dot < |s| && s[dot] == DOT && (forall k :: j <= k < dot ==> s[k] != DOT)
    requires Integral(s[j..dot]) == Some(len)
    ensures var end := dot + 1 + len;
            TurnAt(s, j) ==
            if end < 0 || end >= |s| then Ends
            else if s[end] == SEMICOLON then Completes(end + 1)
            else if s[end] == COMMA then GoesOn(end + 1)
            else Ends
  {
    hide Integral;
    IndexOfUnique(s, DOT, j, dot);
  }

  /** Going forward is more than the scan needs. */
  lemma {:induction false} BackwardYetEnds()
    ensures !ForwardLengths(BACK_TOO_FAR) && ScanEnds(BACK_TOO_FAR)
  {
    MinusFour();
    IndexOfUnique(BACK_TOO_FAR, DOT, 0, 2);
    assert BACK_TOO_FAR[0..2] == BACK_TOO_FAR[..2] == [45, 57];
    OneTurn(BACK_TOO_FAR, 0, 2, -9);
    hide Integral;
  }

  // ---------- More text never moves a boundary ----------

  lemma {:induction false} SkipElementStable(s: Text, t: Text)
    requires SkipElement(s).Skip?
    ensures SkipElement(s + t) == SkipElement(s)
  {
    var dot := IndexOf(s, DOT, 0);
    IndexOfUnique(s + t, DOT, 0, dot);
    assert (s + t)[..dot] == s[..dot];
    assert (s + t)[dot + 1..] == s[dot + 1..] + t;
  }

  lemma {:induction false} SkipInstructionStable(s: Text, t: Text)
    requires SkipInstruction(s).Some?
    ensures SkipInstruction(s + t) == SkipInstruction(s)
    decreases |s|
  {
    hide SkipElement;
    SkipElementStable(s, t);
    var e := SkipElement(s);
    if !e.last {
      assert (s + t)[e.length..] == s[e.length..] + t;
      SkipInstructionStable(s[e.length..], t);
    }
  }

  /** Scanning on behind the boundary is scanning the whole text. */
  lemma {:induction false} BoundaryAppend(s: Text, t: Text)
    ensures Boundary(s + t) == Boundary(s) + Boundary(s[Boundary(s)..] + t)
    decreases |s|
  {
    hide SkipInstruction;
    var first := SkipInstruction(s);
    if first.Some? {
      var n := first.value;
      SkipInstructionStable(s, t);
      assert (s + t)[n..] == s[n..] + t;
      BoundaryAppend(s[n..], t);
      assert s[n..][Boundary(s[n..])..] == s[Boundary(s)..];
    } else {
      assert s[0..] == s;
    }
  }

  lemma {:induction false} NothingBehindBoundary(s: Text)
    ensures Boundary(s[Boundary(s)..]) == 0
    decreases |s|
  {
    hide SkipInstruction;
    var first := SkipInstruction(s);
    if first.Some? {
      NothingBehindBoundary(s[first.value..]);
      assert s[first.value..][Boundary(s[first.value..])..] == s[Boundary(s)..];
    } else {
      assert s[0..] == s;
    }
  }

  /** The boundary is a boundary, and the last one there is. */
  lemma {:induction false} BoundaryIsMaximal(s: Text, k: nat)
    requires k <= |s|
    ensures Whole(s[..Boundary(s)])
    ensures Whole(s[..k]) ==> k <= Boundary(s)
  {
    hide Boundary;
    WholePrefix(s);
    assert s == s[..k] + s[k..];
    BoundaryAppend(s[..k], s[k..]);
  }

  lemma {:induction false} WholePrefix(s: Text)
    ensures Boundary(s[..Boundary(s)]) == Boundary(s)
    decreases |s|
  {
    hide SkipInstruction;
    var first := SkipInstruction(s);
    if first.Some? {
      var n, m := first.value, Boundary(s);
      PrefixSkips(s, m);
      WholePrefix(s[n..]);
      assert s[..m][n..] == s[n..][..m - n];
    } else {
      NoneInNothing(s);
    }
  }

  lemma {:induction false} NoneInNothing(s: Text)
    ensures Boundary(s[..0]) == 0
  {
    assert s[..0] == [];
    BoundaryOfNothing();
  }

  /** An instruction is found in any prefix that holds it. */
  lemma {:induction false} PrefixSkips(s: Text, m: nat)
    requires m <= |s| && SkipInstruction(s).Some? && SkipInstruction(s).value <= m
    ensures SkipInstruction(s[..m]) == SkipInstruction(s)
    decreases |s|
  {
    hide SkipElement;
    var e := SkipElement(s);
    PrefixSkipsElement(s, m);
    if !e.last {
      assert s[..m][e.length..] == s[e.length..][..m - e.length];
      PrefixSkips(s[e.length..], m - e.length);
    }
  }

  lemma {:induction false} PrefixSkipsElement(s: Text, m: nat)
    requires m <= |s| && SkipElement(s).Skip? && SkipElement(s).length <= m
    ensures SkipElement(s[..m]) == SkipElement(s)
  {
    var dot := IndexOf(s, DOT, 0);
    IndexOfUnique(s[..m], DOT, 0, dot);
    assert s[..m][..dot] == s[..dot];
    assert s[..m][dot + 1..] == s[dot + 1..m];
    var len := Integral(s[..dot]).value;
    assert s[dot + 1..m][len] == s[dot + 1..][len];
  }

  // ---------- The scan refines the parser ----------

  /** Where the parser reads an element the scan skips it; where it waits or stumbles the scan stops. */
  lemma {:induction false} SkipVersusRead(s: Text)
    ensures var r := ReadElement(s);
            && (r.Element? ==> SkipElement(s) == Skip(r.last, r.length))
            && (r.NeedMore? || r == Broken(BadSeparator) ==> SkipElement(s) == Stop)
    ensures !ReadElement(s).Broken? || ReadElement(s) == Broken(BadSeparator) ==>
              var dot := IndexOf(s, DOT, 0); dot == -1 || !Backward(s[..dot])
  {
    hide IndexOf;
    hide ToNat;
    hide Integral;
    var dot := IndexOf(s, DOT, 0);
    if dot != -1 && AllDigits(s[..dot]) {
      IntegralOfDigits(s[..dot]);
    }
  }

  lemma {:induction false} SkipVersusParse(s: Text)
    ensures var p := ParseFront(s);
            && (p.Complete? ==> SkipInstruction(s) == Some(p.consumed))
            && (p.Incomplete? || p == Malformed(BadSeparator) ==> SkipInstruction(s) == None)
    decreases |s|
  {
    hide ReadElement;
    hide SkipElement;
    hide IndexOf;
    hide Backward;
    SkipVersusRead(s);
    var e := ReadElement(s);
    if e.Element? && !e.last {
      SkipVersusParse(s[e.length..]);
    }
  }

  /**
    The scan's boundary is what the parser consumes, unless the parser gave up on a length: it
    then stopped at or before the boundary.
   */
  lemma {:induction false} BoundaryIsConsumed(s: Text)
    ensures var p := ParseStream(s);
            && |p.rest| <= |s|
            && |s| - |p.rest| <= Boundary(s)
            && (p.fault == None || p.fault == Some(BadSeparator) ==> Boundary(s) == |s| - |p.rest|)
            && p.rest == s[|s| - |p.rest|..]
    decreases |s|
  {
    hide ParseFront;
    hide SkipInstruction;
    SkipVersusParse(s);
    var p := ParseFront(s);
    if p.Complete? {
      var tail := s[p.consumed..];
      BoundaryIsConsumed(tail);
      var rest := ParseStream(tail).rest;
      assert tail[|tail| - |rest|..] == s[|s| - |rest|..];
    }
  }

  /** A stream the parser accepts has no negative length anywhere the scan looks. */
  lemma {:induction false} ReadableGoesForward(s: Text)
    requires ParseStream(s).fault == None
    ensures ForwardLengths(s)
    decreases |s|
  {
    hide ReadElement;
    hide SkipElement;
    SkipVersusRead(s);
    var p := ParseFront(s);
    if p.Complete? {
      ElementsGoForward(s);
    } else {
      UnfinishedGoesForward(s);
    }
  }

  lemma {:induction false} ElementsGoForward(s: Text)
    requires ParseFront(s).Complete?
    requires ParseStream(s[ParseFront(s).consumed..]).fault == None
    ensures ForwardLengths(s)
    decreases |s|, 0
  {
    hide ReadElement;
    hide SkipElement;
    SkipVersusRead(s);
    var e := ReadElement(s);
    var tail := s[e.length..];
    if e.last {
      ReadableGoesForward(tail);
    } else {
      var n := ParseFront(tail).consumed;
      assert tail[n..] == s[ParseFront(s).consumed..];
      ElementsGoForward(tail);
    }
  }

  lemma {:induction false} UnfinishedGoesForward(s: Text)
    requires ParseFront(s).Incomplete?
    ensures ForwardLengths(s)
    decreases |s|
  {
    hide ReadElement;
    hide SkipElement;
    SkipVersusRead(s);
    var e := ReadElement(s);
    if e.Element? {
      UnfinishedGoesForward(s[e.length..]);
    }
  }

  // ---------- Lengths in a growing text ----------

  lemma {:induction false} ForwardLengthsOfPrefix(s: Text, t: Text)
    requires ForwardLengths(s + t)
    ensures ForwardLengths(s)
    decreases |s|
  {
    var dot := IndexOf(s, DOT, 0);
    if dot != -1 {
      IndexOfUnique(s + t, DOT, 0, dot);
      assert (s + t)[..dot] == s[..dot];
      var e := SkipElement(s);
      if e.Skip? {
        SkipElementStable(s, t);
        assert (s + t)[e.length..] == s[e.length..] + t;
        ForwardLengthsOfPrefix(s[e.length..], t);
      }
    }
  }

  lemma {:induction false} ForwardLengthsBehindInstruction(s: Text)
    requires ForwardLengths(s) && SkipInstruction(s).Some?
    ensures ForwardLengths(s[SkipInstruction(s).value..])
    decreases |s|
  {
    hide SkipElement;
    hide Backward;
    hide IndexOf;
    var e := SkipElement(s);
    if !e.last {
      ForwardLengthsBehindInstruction(s[e.length..]);
      var n := SkipInstruction(s[e.length..]).value;
      assert s[e.length..][n..] == s[e.length + n..];
    }
  }

  lemma {:induction false} ForwardLengthsBehindBoundary(s: Text, t: Text)
    requires ForwardLengths(s + t)
    ensures ForwardLengths(s[Boundary(s)..] + t)
    decreases |s|
  {
    hide SkipInstruction;
    hide ForwardLengths;
    var first := SkipInstruction(s);
    if first.Some? {
      var n := first.value;
      SkipInstructionStable(s, t);
      ForwardLengthsBehindInstruction(s + t);
      assert (s + t)[n..] == s[n..] + t;
      ForwardLengthsBehindBoundary(s[n..], t);
      assert s[n..][Boundary(s[n..])..] == s[Boundary(s)..];
    } else {
      assert s[0..] == s;
    }
  }
}
