/**
  Reading an attached Docker exec: stdout and stderr arrive multiplexed in 8-byte-headed frames,
  cut into chunks anywhere, and the read stops as soon as stdout has passed a cap.
 */
module ExecDemux {
  import opened Sequences

  newtype Byte = b: int | 0 <= b < 0x100

  type Bytes = seq<Byte>

  const STDOUT: Byte := 1
  const HEADER: nat := 8

  // ---------- Frames ----------

  datatype StreamFrame = StreamFrame(stream: Byte, payload: Bytes)

  function ReadUInt32BE(s: Bytes, at: nat): (n: nat)
    requires at + 4 <= |s|
    ensures n < 0x1_0000_0000
  {
    (s[at] as nat) * 0x100_0000 + (s[at + 1] as nat) * 0x1_0000 + (s[at + 2] as nat) * 0x100 + s[at + 3] as nat
  }

  function WriteUInt32BE(n: nat): (s: Bytes)
    requires n < 0x1_0000_0000
    ensures |s| == 4
  {
    [(n / 0x100_0000) as Byte, (n / 0x1_0000 % 0x100) as Byte, (n / 0x100 % 0x100) as Byte, (n % 0x100) as Byte]
  }

  /** Is the frame at the front there in full? */
  predicate HasFrame(s: Bytes) {
    |s| >= HEADER && |s| >= HEADER + ReadUInt32BE(s, 4)
  }

  function FrameLength(s: Bytes): (n: nat)
    requires HasFrame(s)
    ensures HEADER <= n <= |s|
  {
    HEADER + ReadUInt32BE(s, 4)
  }

  /** All complete frames of a byte string. */
  function Frames(s: Bytes): seq<StreamFrame>
    decreases |s|
  {
    if !HasFrame(s) then []
    else [StreamFrame(s[0], s[HEADER..FrameLength(s)])] + Frames(s[FrameLength(s)..])
  }

  /** The bytes behind the last complete frame. */
  function Tail(s: Bytes): Bytes
    decreases |s|
  {
    if !HasFrame(s) then s else Tail(s[FrameLength(s)..])
  }

  lemma {:induction false} HasFrameStable(s: Bytes, t: Bytes)
    requires HasFrame(s)
    ensures HasFrame(s + t) && FrameLength(s + t) == FrameLength(s)
    ensures (s + t)[0] == s[0] && (s + t)[HEADER..FrameLength(s)] == s[HEADER..FrameLength(s)]
    ensures (s + t)[FrameLength(s)..] == s[FrameLength(s)..] + t
  {
  }

  /** Frames found by going on from the unfinished tail are the frames of the whole. */
  lemma {:induction false} FramesAppend(s: Bytes, t: Bytes)
    ensures Frames(s + t) == Frames(s) + Frames(Tail(s) + t)
    ensures Tail(s + t) == Tail(Tail(s) + t)
    decreases |s|
  {
    hide HasFrame;
    if HasFrame(s) {
      HasFrameStable(s, t);
      FramesAppend(s[FrameLength(s)..], t);
    }
  }

  lemma {:induction false} TailIsUnfinished(s: Bytes)
    ensures !HasFrame(Tail(s))
    decreases |s|
  {
    if HasFrame(s) {
      TailIsUnfinished(s[FrameLength(s)..]);
    }
  }

  // ---------- Stdout up to the cap ----------

  function StdoutOf(frames: seq<StreamFrame>): seq<Bytes> {
    if frames == [] then []
    else (if frames[0].stream == STDOUT then [frames[0].payload] else []) + StdoutOf(frames[1..])
  }

  function Total(payloads: seq<Bytes>): nat {
    if payloads == [] then 0 else |payloads[0]| + Total(payloads[1..])
  }

  /** Payloads up to and including the first that takes the total past the cap. */
  function UpToCap(payloads: seq<Bytes>, already: nat, cap: nat): seq<Bytes> {
    if payloads == [] then []
    else if already + |payloads[0]| > cap then [payloads[0]]
    else [payloads[0]] + UpToCap(payloads[1..], already + |payloads[0]|, cap)
  }

  /** The cut is the shortest prefix over the cap, or everything if there is none. */
  lemma {:induction false} UpToCapIsShortest(payloads: seq<Bytes>, already: nat, cap: nat)
    requires already <= cap
    ensures var taken := UpToCap(payloads, already, cap);
            && taken <= payloads
            && (already + Total(payloads) <= cap ==> taken == payloads)
            && (already + Total(payloads) > cap ==>
                  taken != [] && already + Total(taken) > cap && already + Total(taken[..|taken| - 1]) <= cap)
  {
    if payloads != [] && already + |payloads[0]| <= cap {
      UpToCapIsShortest(payloads[1..], already + |payloads[0]|, cap);
      var taken := UpToCap(payloads, already, cap);
      assert taken[1..] == UpToCap(payloads[1..], already + |payloads[0]|, cap);
      if |taken| > 1 {
        assert taken[..|taken| - 1][1..] == taken[1..][..|taken| - 2];
      }
    }
  }

  lemma {:induction false} StdoutAppend(a: seq<StreamFrame>, b: seq<StreamFrame>)
    ensures StdoutOf(a + b) == StdoutOf(a) + StdoutOf(b)
  {
    if a == [] {
      assert a + b == b;
    } else {
      assert (a + b)[1..] == a[1..] + b;
      StdoutAppend(a[1..], b);
    }
  }

  lemma {:induction false} TotalAppend(a: seq<Bytes>, b: seq<Bytes>)
    ensures Total(a + b) == Total(a) + Total(b)
  {
    if a == [] {
      assert a + b == b;
    } else {
      assert (a + b)[1..] == a[1..] + b;
      TotalAppend(a[1..], b);
    }
  }

  lemma {:induction false} UpToCapAppend(a: seq<Bytes>, b: seq<Bytes>, already: nat, cap: nat)
    requires already + Total(a) <= cap
    ensures UpToCap(a + b, already, cap) == a + UpToCap(b, already + Total(a), cap)
  {
    if a == [] {
      assert a + b == b;
    } else {
      assert (a + b)[1..] == a[1..] + b;
      UpToCapAppend(a[1..], b, already + |a[0]|, cap);
    }
  }

  lemma {:induction false} UpToCapIgnoresTheRest(a: seq<Bytes>, b: seq<Bytes>, already: nat, cap: nat)
    requires already <= cap < already + Total(a)
    ensures UpToCap(a + b, already, cap) == UpToCap(a, already, cap)
  {
    assert (a + b)[0] == a[0] && (a + b)[1..] == a[1..] + b;
    if already + |a[0]| <= cap {
      UpToCapIgnoresTheRest(a[1..], b, already + |a[0]|, cap);
    }
  }

  // ---------- The reader ----------

  /** Bytes behind the point where a finished reader stopped are dropped with it. */
  datatype Reading = Reading(frames: seq<Bytes>, pending: Bytes, truncated: bool, done: bool)

  const STARTED := Reading([], [], false, false)

  function Absorb(r: Reading, cap: nat, chunk: Bytes): Reading {
    if r.done then r
    else
      var all := r.pending + chunk;
      var payloads := StdoutOf(Frames(all));
      var already := Total(r.frames);
      var over := already + Total(payloads) > cap;
      Reading(r.frames + UpToCap(payloads, already, cap), if over then [] else Tail(all), over, over)
  }

  function AbsorbAll(r: Reading, cap: nat, chunks: seq<Bytes>): Reading
    decreases |chunks|
  {
    if chunks == [] then r else AbsorbAll(Absorb(r, cap, chunks[0]), cap, chunks[1..])
  }

  class ExecReader {
    const capBytes: nat
    var frames: seq<Bytes>
    var pending: Bytes
    var collected: nat
    var truncated: bool
    var done: bool

    ghost predicate Valid()
      reads this
    {
      collected == Total(frames) && (!done ==> collected <= capBytes && !truncated)
    }

    function View(): Reading
      reads this
    {
      Reading(frames, if done then [] else pending, truncated, done)
    }

    constructor (capBytes: nat)
      ensures Valid() && View() == STARTED && this.capBytes == capBytes
    {
      this.capBytes := capBytes;
      frames, pending, collected, truncated, done := [], [], 0, false, false;
    }

    method OnData(chunk: Bytes)
      requires Valid()
      modifies this
      ensures Valid() && View() == Absorb(old(View()), capBytes, chunk)
    {
      assert HEADER == 8;
      hide *;
      ViewUnfold();
      ghost var before := View();
      if done {
        FinishedAbsorbsNothing(before, capBytes, chunk);
        return;
      }
      pending := pending + chunk;
      ghost var all := pending;
      ghost var seen: seq<Bytes> := [];
      AlongAtStart(before, all, capBytes);
      while true
        invariant !done && !truncated
        invariant Along(before, all, capBytes, seen, frames, collected, pending)
        decreases |pending|
      {
        AlongNext(before, all, capBytes, seen, frames, collected, pending, chunk);
        if |pending| < HEADER {
          ViewUnfold();
          return;
        }
        var length := ReadUInt32BE(pending, 4);
        if |pending| < HEADER + length {
          ViewUnfold();
          return;
        }
        var isStdout := pending[0] == STDOUT;
        var payload := pending[HEADER..HEADER + length];
        pending := pending[HEADER + length..];
        if !isStdout {
          continue;
        }
        frames := frames + [payload];
        collected := collected + |payload|;
        if collected > capBytes {
          truncated := true;
          done := true;
          ViewUnfold();
          return;
        }
        seen := seen + [payload];
      }
    }

    lemma {:induction false} ViewUnfold()
      ensures View() == Reading(frames, if done then [] else pending, truncated, done)
      ensures Valid() <==> collected == Total(frames) && (!done ==> collected <= capBytes && !truncated)
    {
    }

    /** The exec ended, or its stream closed or failed. */
    method OnEnd()
      requires Valid()
      modifies `done
      ensures Valid() && frames == old(frames) && truncated == old(truncated) && done
    {
      done := true;
    }

    /** What the promise resolves with. */
    function Stdout(): Bytes
      reads this
    {
      Flatten(frames)
    }
  }

  lemma {:induction false} AbsorbUnfold(r: Reading, cap: nat, chunk: Bytes)
    ensures r.done ==> Absorb(r, cap, chunk) == r
    ensures !r.done ==>
              var all := r.pending + chunk;
              var payloads := StdoutOf(Frames(all));
              var already := Total(r.frames);
              var over := already + Total(payloads) > cap;
              Absorb(r, cap, chunk) ==
                Reading(r.frames + UpToCap(payloads, already, cap), if over then [] else Tail(all), over, over)
  {
  }

  lemma {:induction false} FinishedAbsorbsNothing(r: Reading, cap: nat, chunk: Bytes)
    requires r.done
    ensures Absorb(r, cap, chunk) == r
  {
  }

  /** The data handler in the middle of `all`: the payloads `seen` are taken, `pending` is to come. */
  ghost predicate Along(before: Reading, all: Bytes, cap: nat, seen: seq<Bytes>,
                        frames: seq<Bytes>, collected: nat, pending: Bytes) {
    && frames == before.frames + seen
    && collected == Total(frames) == Total(before.frames) + Total(seen)
    && collected <= cap
    && StdoutOf(Frames(all)) == seen + StdoutOf(Frames(pending))
    && Tail(all) == Tail(pending)
  }

  lemma {:induction false} AlongAtStart(before: Reading, all: Bytes, cap: nat)
    requires Total(before.frames) <= cap
    ensures Along(before, all, cap, [], before.frames, Total(before.frames), all)
  {
    assert [] + StdoutOf(Frames(all)) == StdoutOf(Frames(all));
    assert before.frames + [] == before.frames;
  }

  /** One round of the handler's loop: what is true where it returns, and where it goes on. */
  lemma {:induction false} AlongNext(before: Reading, all: Bytes, cap: nat, seen: seq<Bytes>,
                  frames: seq<Bytes>, collected: nat, pending: Bytes, chunk: Bytes)
    requires Along(before, all, cap, seen, frames, collected, pending)
    requires !before.done && all == before.pending + chunk
    ensures collected == Total(frames) && collected <= cap
    ensures !HasFrame(pending) ==> Absorb(before, cap, chunk) == Reading(frames, pending, false, false)
    ensures |pending| < HEADER || |pending| < HEADER + ReadUInt32BE(pending, 4) <==> !HasFrame(pending)
    ensures HasFrame(pending) ==>
              var n := HEADER + ReadUInt32BE(pending, 4);
              var payload := pending[HEADER..n];
              && (pending[0] != STDOUT ==> Along(before, all, cap, seen, frames, collected, pending[n..]))
              && (pending[0] == STDOUT ==>
                    && Total(frames + [payload]) == collected + |payload|
                    && (collected + |payload| <= cap ==>
                          Along(before, all, cap, seen + [payload], frames + [payload], collected + |payload|, pending[n..]))
                    && (collected + |payload| > cap ==>
                          Absorb(before, cap, chunk) == Reading(frames + [payload], [], true, true)))
  {
    hide Frames;
    hide Tail;
    hide StdoutOf;
    hide Total;
    hide UpToCap;
    hide ReadUInt32BE;
    hide Absorb;
    FramesUnfold(pending);
    AbsorbUnfold(before, cap, chunk);
    if !HasFrame(pending) {
      NothingToCome(seen, Total(before.frames), cap);
    } else {
      var n := HEADER + ReadUInt32BE(pending, 4);
      OneMorePayload(before.frames, seen, pending[HEADER..n], StdoutOf(Frames(pending[n..])), cap);
    }
  }

  lemma {:induction false} TotalOfOne(payload: Bytes)
    ensures Total([payload]) == |payload|
  {
  }

  lemma {:induction false} FramesUnfold(s: Bytes)
    ensures |s| < HEADER || |s| < HEADER + ReadUInt32BE(s, 4) ==> StdoutOf(Frames(s)) == [] && Tail(s) == s
    ensures |s| >= HEADER && |s| >= HEADER + ReadUInt32BE(s, 4) ==>
              var n := HEADER + ReadUInt32BE(s, 4);
              && Tail(s) == Tail(s[n..])
              && StdoutOf(Frames(s)) ==
                   if s[0] == STDOUT then [s[HEADER..n]] + StdoutOf(Frames(s[n..])) else StdoutOf(Frames(s[n..]))
  {
    hide ReadUInt32BE;
    hide StdoutOf;
    if HasFrame(s) {
      var rest := s[FrameLength(s)..];
      StdoutUnfold(StreamFrame(s[0], s[HEADER..FrameLength(s)]), Frames(rest));
    } else {
      NoStdout();
    }
  }

  lemma {:induction false} NoStdout()
    ensures StdoutOf([]) == []
  {
  }

  lemma {:induction false} StdoutUnfold(frame: StreamFrame, more: seq<StreamFrame>)
    ensures StdoutOf([frame] + more) == if frame.stream == STDOUT then [frame.payload] + StdoutOf(more) else StdoutOf(more)
  {
    assert ([frame] + more)[1..] == more;
    assert [] + StdoutOf(more) == StdoutOf(more);
  }

  /** The loop ends for want of a frame: everything taken was within the cap. */
  lemma {:induction false} NothingToCome(seen: seq<Bytes>, already: nat, cap: nat)
    requires already + Total(seen) <= cap
    ensures seen + [] == seen && UpToCap(seen, already, cap) == seen
  {
    UpToCapIsShortest(seen, already, cap);
    assert seen + [] == seen;
  }

  /** The loop takes a payload, which may be the one that passes the cap. */
  lemma {:induction false} OneMorePayload(frames: seq<Bytes>, seen: seq<Bytes>, payload: Bytes, coming: seq<Bytes>, cap: nat)
    requires Total(frames) + Total(seen) <= cap
    ensures var longer := seen + [payload];
            && frames + seen + [payload] == frames + longer
            && seen + ([payload] + coming) == longer + coming
            && Total(longer) == Total(seen) + |payload|
            && Total(frames + longer) == Total(frames) + Total(longer)
            && (Total(frames) + Total(longer) > cap ==>
                  && UpToCap(longer + coming, Total(frames), cap) == longer
                  && Total(frames) + Total(longer + coming) > cap)
  {
    hide UpToCap;
    hide Total;
    var longer := seen + [payload];
    assert seen + ([payload] + coming) == longer + coming;
    TotalAppend(seen, [payload]);
    TotalOfOne(payload);
    TotalAppend(frames, longer);
    TotalAppend(longer, coming);
    UpToCapAppend(seen, [payload] + coming, Total(frames), cap);
    if Total(frames) + Total(longer) > cap {
      LastPayload(payload, coming, Total(frames) + Total(seen), cap);
    }
  }

  lemma {:induction false} LastPayload(payload: Bytes, coming: seq<Bytes>, already: nat, cap: nat)
    requires already + |payload| > cap
    ensures UpToCap([payload] + coming, already, cap) == [payload]
  {
  }

  // ---------- Independence of the chunking ----------

  lemma {:induction false} AbsorbDone(r: Reading, cap: nat, chunks: seq<Bytes>)
    requires r.done
    ensures AbsorbAll(r, cap, chunks) == r
    decreases |chunks|
  {
    if chunks != [] {
      AbsorbDone(r, cap, chunks[1..]);
    }
  }

  /** The reader has taken in exactly the byte string `s`. */
  ghost predicate HasRead(r: Reading, cap: nat, s: Bytes) {
    var payloads := StdoutOf(Frames(s));
    && r.frames == UpToCap(payloads, 0, cap)
    && r.truncated == r.done == (Total(payloads) > cap)
    && (!r.done ==> r.pending == Tail(s))
  }

  lemma {:induction false} HasReadMore(r: Reading, cap: nat, s: Bytes, chunk: Bytes)
    requires HasRead(r, cap, s)
    ensures HasRead(Absorb(r, cap, chunk), cap, s + chunk)
  {
    hide *;
    var before, coming := StdoutOf(Frames(s)), StdoutOf(Frames(Tail(s) + chunk));
    HasReadUnfold(r, cap, s);
    HasReadUnfold(Absorb(r, cap, chunk), cap, s + chunk);
    AbsorbUnfold(r, cap, chunk);
    FramesAppend(s, chunk);
    StdoutAppend(Frames(s), Frames(Tail(s) + chunk));
    TotalAppend(before, coming);
    if r.done {
      UpToCapIgnoresTheRest(before, coming, 0, cap);
    } else {
      UpToCapAppend(before, coming, 0, cap);
      UpToCapIsShortest(before, 0, cap);
    }
  }

  lemma {:induction false} HasReadUnfold(r: Reading, cap: nat, s: Bytes)
    ensures HasRead(r, cap, s) <==>
            var payloads := StdoutOf(Frames(s));
            && r.frames == UpToCap(payloads, 0, cap)
            && r.truncated == r.done == (Total(payloads) > cap)
            && (!r.done ==> r.pending == Tail(s))
  {
  }

  lemma {:induction false} HasReadAll(r: Reading, cap: nat, s: Bytes, chunks: seq<Bytes>)
    requires HasRead(r, cap, s)
    ensures HasRead(AbsorbAll(r, cap, chunks), cap, s + Flatten(chunks))
    decreases |chunks|
  {
    hide HasRead;
    hide Absorb;
    if chunks == [] {
      assert s + [] == s;
    } else {
      HasReadMore(r, cap, s, chunks[0]);
      HasReadAll(Absorb(r, cap, chunks[0]), cap, s + chunks[0], chunks[1..]);
      assert s + chunks[0] + Flatten(chunks[1..]) == s + Flatten(chunks);
    }
  }

  /**
    Stdout and the truncated flag are those of the bytes as a whole: the payloads of the complete
    stdout frames in order, up to and including the first that passes the cap, and truncated
    exactly if there is one.
   */
  lemma {:induction false} StdoutIsOfTheBytes(cap: nat, chunks: seq<Bytes>)
    ensures var r := AbsorbAll(STARTED, cap, chunks);
            var payloads := StdoutOf(Frames(Flatten(chunks)));
            && r.frames == UpToCap(payloads, 0, cap)
            && (r.truncated <==> Total(payloads) > cap)
            && (r.truncated <==> r.done)
            && (!r.done ==> r.pending == Tail(Flatten(chunks)) && !HasFrame(r.pending))
  {
    assert [] + Flatten(chunks) == Flatten(chunks);
    assert HasRead(STARTED, cap, []);
    HasReadAll(STARTED, cap, [], chunks);
    TailIsUnfinished(Flatten(chunks));
  }

  /** Once the bytes received pass the cap, no later chunk changes the answer. */
  lemma {:induction false} NothingBehindTheCap(cap: nat, chunks: seq<Bytes>, late: seq<Bytes>)
    requires Total(StdoutOf(Frames(Flatten(chunks)))) > cap
    ensures AbsorbAll(STARTED, cap, chunks + late) == AbsorbAll(STARTED, cap, chunks)
  {
    hide *;
    StdoutIsOfTheBytes(cap, chunks);
    AbsorbAppend(STARTED, cap, chunks, late);
    AbsorbDone(AbsorbAll(STARTED, cap, chunks), cap, late);
  }

  lemma {:induction false} AbsorbAppend(r: Reading, cap: nat, chunks: seq<Bytes>, late: seq<Bytes>)
    ensures AbsorbAll(r, cap, chunks + late) == AbsorbAll(AbsorbAll(r, cap, chunks), cap, late)
    decreases |chunks|
  {
    hide Absorb;
    if chunks == [] {
      assert chunks + late == late;
    } else {
      assert (chunks + late)[1..] == chunks[1..] + late;
      AbsorbAppend(Absorb(r, cap, chunks[0]), cap, chunks[1..], late);
    }
  }

  // ---------- Against the multiplexer ----------

  /** Frames of Docker's stream 1 among the first `k`. */
  function StreamOneBefore(frames: seq<StreamFrame>, k: nat): nat
    requires k <= |frames|
  {
    if k == 0 then 0 else StreamOneBefore(frames, k - 1) + if frames[k - 1].stream == 1 then 1 else 0
  }

  /** Stdout is every payload of stream 1, in order, and of no other stream. */
  lemma {:induction false} StdoutIsStreamOne(frames: seq<StreamFrame>, k: nat)
    requires k <= |frames|
    ensures |StdoutOf(frames)| == StreamOneBefore(frames, |frames|) >= StreamOneBefore(frames, k)
    ensures k < |frames| && frames[k].stream == 1 ==>
              var i := StreamOneBefore(frames, k); i < |StdoutOf(frames)| && StdoutOf(frames)[i] == frames[k].payload
  {
    var (front, back) := (frames[..k], frames[k..]);
    assert frames == front + back;
    StdoutAppend(front, back);
    StdoutCount(frames, k);
    StdoutCount(frames, |frames|);
    assert frames[..|frames|] == frames;
    if k < |frames| {
      assert back == [frames[k]] + frames[k + 1..];
      StdoutUnfold(frames[k], frames[k + 1..]);
    }
  }

  lemma {:induction false} StdoutCount(frames: seq<StreamFrame>, k: nat)
    requires k <= |frames|
    ensures |StdoutOf(frames[..k])| == StreamOneBefore(frames, k)
  {
    if k > 0 {
      assert frames[..k] == frames[..k - 1] + [frames[k - 1]];
      StdoutAppend(frames[..k - 1], [frames[k - 1]]);
      StdoutUnfold(frames[k - 1], []);
      assert [frames[k - 1]] + [] == [frames[k - 1]];
      StdoutCount(frames, k - 1);
    }
  }

  /** What Docker writes for a frame: stream id, three zero bytes, big-endian length, payload. */
  function Mux(frames: seq<StreamFrame>): Bytes
    requires forall i :: 0 <= i < |frames| ==> |frames[i].payload| < 0x1_0000_0000
  {
    if frames == [] then []
    else [frames[0].stream, 0, 0, 0] + WriteUInt32BE(|frames[0].payload|) + frames[0].payload + Mux(frames[1..])
  }

  lemma {:induction false} UInt32RoundTrip(n: nat)
    requires n < 0x1_0000_0000
    ensures ReadUInt32BE(WriteUInt32BE(n), 0) == n
  {
    var a, b, c := n / 0x100, n / 0x1_0000, n / 0x100_0000;
    assert n == a * 0x100 + n % 0x100;
    assert a == b * 0x100 + a % 0x100 by {
      assert b == a / 0x100;
    }
    assert b == c * 0x100 + b % 0x100 by {
      assert c == b / 0x100;
    }
  }

  lemma {:induction false} MuxThenFrames(frames: seq<StreamFrame>)
    requires forall i :: 0 <= i < |frames| ==> |frames[i].payload| < 0x1_0000_0000
    ensures Frames(Mux(frames)) == frames && Tail(Mux(frames)) == []
  {
    hide ReadUInt32BE;
    hide WriteUInt32BE;
    if frames != [] {
      var s, f, more := Mux(frames), frames[0], Mux(frames[1..]);
      FrontOfMux(f, more);
      MuxThenFrames(frames[1..]);
      assert frames == [f] + frames[1..];
    }
  }

  lemma {:induction false} FrontOfMux(f: StreamFrame, more: Bytes)
    requires |f.payload| < 0x1_0000_0000
    ensures var s := [f.stream, 0, 0, 0] + WriteUInt32BE(|f.payload|) + f.payload + more;
            && HasFrame(s) && FrameLength(s) == HEADER + |f.payload|
            && s[0] == f.stream && s[HEADER..FrameLength(s)] == f.payload && s[FrameLength(s)..] == more
  {
    hide WriteUInt32BE;
    var length := WriteUInt32BE(|f.payload|);
    var s := [f.stream, 0, 0, 0] + length + f.payload + more;
    UInt32RoundTrip(|f.payload|);
    assert ReadUInt32BE(s, 4) == ReadUInt32BE(length, 0) by {
      assert s[4] == length[0] && s[5] == length[1] && s[6] == length[2] && s[7] == length[3];
    }
  }

  /** Whatever the chunks, the stdout of the exec comes back, cut only at the cap. */
  lemma {:induction false} MuxThenRead(frames: seq<StreamFrame>, cap: nat, chunks: seq<Bytes>)
    requires forall i :: 0 <= i < |frames| ==> |frames[i].payload| < 0x1_0000_0000
    requires Flatten(chunks) == Mux(frames)
    ensures var r := AbsorbAll(STARTED, cap, chunks);
            && r.frames <= StdoutOf(frames)
            && (r.truncated <==> Total(StdoutOf(frames)) > cap)
            && (!r.truncated ==> r.frames == StdoutOf(frames) && r.pending == [])
            && (r.truncated ==> Total(r.frames) > cap && Total(r.frames[..|r.frames| - 1]) <= cap)
  {
    hide HasFrame;
    hide Mux;
    MuxThenFrames(frames);
    assert [] + Flatten(chunks) == Flatten(chunks);
    assert HasRead(STARTED, cap, []) by {
      StartsEmpty(cap);
    }
    HasReadAll(STARTED, cap, [], chunks);
    UpToCapIsShortest(StdoutOf(frames), 0, cap);
  }

  lemma {:induction false} StartsEmpty(cap: nat)
    ensures HasRead(STARTED, cap, [])
  {
  }
}
