/** The resampler of VoiceManager.ts over exact rationals. A position in the input is counted in
    1/8000ths of a sample, so that the step `inputRate / 8000` is the integer `inputRate`. */
module Resampler {
  import opened Basics

  const UNIT := 8000

  type int16 = v: int | -32768 <= v <= 32767

  /** Linear interpolation at `pos`; at the last sample of the input the value is held. */
  function Lerp(input: seq<real>, pos: nat): real
    requires pos / UNIT < |input|
  {
    var idx := pos / UNIT;
    var next := Min(idx + 1, |input| - 1);
    var frac := (pos % UNIT) as real / UNIT as real;
    input[idx] * (1.0 - frac) + input[next] * frac
  }

  /** Interpolation is linear: samples on a line give the points of that line. */
  lemma LerpOnLine(input: seq<real>, pos: nat, a: real, b: real)
    requires pos / UNIT + 1 < |input| && forall i :: 0 <= i < |input| ==> input[i] == a + b * i as real
    ensures Lerp(input, pos) == a + b * (pos as real / UNIT as real)
  {
    var i, part := pos / UNIT, pos % UNIT;
    var frac := part as real / UNIT as real;
    assert pos as real == i as real * UNIT as real + part as real;
    assert pos as real / UNIT as real == i as real + frac;
    assert input[i + 1] == input[i] + b;
    assert input[i] * (1.0 - frac) + (input[i] + b) * frac == input[i] + b * frac;
  }

  /** Math.round of the scaled, clamped sample. */
  function FloatToInt16(sample: real): int16
  {
    var clamped := if sample < -1.0 then -1.0 else if sample > 1.0 then 1.0 else sample;
    if clamped < 0.0 then (clamped * 32768.0 + 0.5).Floor else (clamped * 32767.0 + 0.5).Floor
  }

  function ToPcm(samples: seq<real>): (r: seq<int16>)
    ensures |r| == |samples| && forall i :: 0 <= i < |r| ==> r[i] == FloatToInt16(samples[i])
  {
    seq(|samples|, i requires 0 <= i < |samples| => FloatToInt16(samples[i]))
  }

  // ---------- one input buffer ----------

  /** The samples taken from one buffer from position `pos` on. */
  function Resample(input: seq<real>, pos: nat, rate: nat): seq<real>
    requires rate > 0
    decreases UNIT * |input| - pos
  {
    if pos >= UNIT * |input| then [] else [Lerp(input, pos)] + Resample(input, pos + rate, rate)
  }

  /** How many samples are due before input position `end` when the next one is at `pos`. */
  function Due(end: int, pos: nat, rate: nat): nat
    requires rate > 0
  {
    if pos >= end then 0 else (end - pos + rate - 1) / rate
  }

  lemma DueNext(end: int, pos: nat, rate: nat)
    requires rate > 0 && pos < end
    ensures Due(end, pos, rate) == 1 + Due(end, pos + rate, rate)
  {
    var a := end - pos - 1;
    assert end - pos + rate - 1 == a + rate;
    DivStep(a, rate);
    if pos + rate >= end { DivSmall(a, rate); }
  }

  lemma DivStep(a: nat, m: nat)
    requires m > 0
    ensures (a + m) / m == 1 + a / m
  {
    var q, r := a / m, a % m;
    assert a + m == (q + 1) * m + r;
    DivUnique(a + m, q + 1, r, m);
  }

  lemma DivSmall(a: nat, m: nat)
    requires a < m
    ensures a / m == 0
  {
    DivUnique(a, 0, a, m);
  }

  lemma {:induction false} ResampleAt(input: seq<real>, pos: nat, rate: nat, k: nat)
    requires rate > 0
    ensures |Resample(input, pos, rate)| == Due(UNIT * |input|, pos, rate)
    ensures k < Due(UNIT * |input|, pos, rate) ==>
              (pos + k * rate) / UNIT < |input| && Resample(input, pos, rate)[k] == Lerp(input, pos + k * rate)
    decreases UNIT * |input| - pos
  {
    hide Lerp, Due;
    if pos < UNIT * |input| {
      DueNext(UNIT * |input|, pos, rate);
      ResampleAt(input, pos + rate, rate, if k == 0 then 0 else k - 1);
      if k > 0 { OneStepOn(pos, rate, k - 1); }
    } else {
      DuePast(UNIT * |input|, 0, pos, rate);
    }
  }

  // ---------- a stream in buffers of any sizes ----------

  /** What has been produced, and the carried offset. */
  datatype Stream = Stream(out: seq<real>, offset: nat)

  function Feed(s: Stream, input: seq<real>, rate: nat): Stream
    requires rate > 0
  {
    var r := Resample(input, s.offset, rate);
    DueReaches(UNIT * |input|, s.offset, rate);
    ResampleAt(input, s.offset, rate, 0);
    Stream(s.out + r, s.offset + |r| * rate - UNIT * |input|)
  }

  /** The position after the samples due is at or past the end, by less than one step. */
  lemma DueReaches(end: nat, pos: nat, rate: nat)
    requires rate > 0
    ensures pos + Due(end, pos, rate) * rate >= end
    ensures pos < end ==> pos + Due(end, pos, rate) * rate < end + rate
  {
    if pos < end {
      var x := end - pos + rate - 1;
      assert x == x / rate * rate + x % rate;
    }
  }

  function FeedAll(s: Stream, chunks: seq<seq<real>>, rate: nat): Stream
    requires rate > 0
    decreases |chunks|
  {
    if chunks == [] then s else FeedAll(Feed(s, chunks[0], rate), chunks[1..], rate)
  }

  /** The value at a position of the stream: interpolated inside the buffer that holds it. */
  function ValueAt(chunks: seq<seq<real>>, pos: nat): real
    requires pos / UNIT < |Flatten(chunks)|
    decreases |chunks|
  {
    if pos / UNIT < |chunks[0]| then Lerp(chunks[0], pos)
    else ValueAt(chunks[1..], pos - UNIT * |chunks[0]|)
  }

  /** Whatever the buffers, the number of samples is ceil((8000 N - offset) / inputRate), and the
      carried offset is what is left of the last step; it is never negative. */
  lemma {:induction false} OutputCount(chunks: seq<seq<real>>, offset: nat, rate: nat)
    requires rate > 0
    ensures var n := UNIT * |Flatten(chunks)|;
            var s := FeedAll(Stream([], offset), chunks, rate);
            |s.out| == Due(n, offset, rate) && s.offset == offset + |s.out| * rate - n
    decreases |chunks|
  {
    hide Resample, Due;
    if chunks == [] {
      NoneDue(offset, rate);
    } else {
      var c, rest := chunks[0], chunks[1..];
      var m, next := FirstBuffer(chunks, offset, rate);
      OutputCount(rest, next, rate);
      DueSplits(UNIT * |c|, UNIT * |Flatten(rest)|, offset, rate);
      var t := FeedAll(Stream([], next), rest, rate);
      AddSteps(m, |t.out|, rate);
    }
  }

  lemma AddSteps(a: nat, b: nat, rate: nat)
    ensures (a + b) * rate == a * rate + b * rate
  {
  }

  /** The stream after the first buffer, and the rest of it started at the carried offset. */
  lemma FirstBuffer(chunks: seq<seq<real>>, offset: nat, rate: nat) returns (m: nat, next: nat)
    requires rate > 0 && chunks != []
    ensures m == Due(UNIT * |chunks[0]|, offset, rate) && next == offset + m * rate - UNIT * |chunks[0]|
    ensures var t := FeedAll(Stream([], next), chunks[1..], rate);
            FeedAll(Stream([], offset), chunks, rate) == Stream(Resample(chunks[0], offset, rate) + t.out, t.offset)
    ensures |Resample(chunks[0], offset, rate)| == m
  {
    hide Resample, Due;
    var c := chunks[0];
    var first := Resample(c, offset, rate);
    m := |first|;
    ResampleAt(c, offset, rate, 0);
    DueReaches(UNIT * |c|, offset, rate);
    next := offset + m * rate - UNIT * |c|;
    assert [] + first == first;
    FeedAllAppends(Stream(first, next), chunks[1..], rate);
  }

  /** Whatever the buffers, sample k of the output is taken at position k * inputRate. */
  lemma {:induction false} OutputPositions(chunks: seq<seq<real>>, offset: nat, rate: nat, k: nat)
    requires rate > 0 && k < |FeedAll(Stream([], offset), chunks, rate).out|
    ensures (offset + k * rate) / UNIT < |Flatten(chunks)|
    ensures FeedAll(Stream([], offset), chunks, rate).out[k] == ValueAt(chunks, offset + k * rate)
    decreases |chunks|
  {
    hide Lerp, Resample, Due, ValueAt;
    if chunks != [] {
      var m, next := FirstBuffer(chunks, offset, rate);
      if k < m {
        ResampleAt(chunks[0], offset, rate, k);
        InFirst(chunks, offset + k * rate);
      } else {
        OutputPositions(chunks[1..], next, rate, k - m);
        AddSteps(m, k - m, rate);
        PastFirst(chunks, offset + k * rate, next + (k - m) * rate);
      }
    }
  }

  lemma NoneDue(offset: nat, rate: nat)
    requires rate > 0
    ensures Due(0, offset, rate) == 0
  {
  }

  lemma InFirst(chunks: seq<seq<real>>, pos: nat)
    requires chunks != [] && pos / UNIT < |chunks[0]|
    ensures pos / UNIT < |Flatten(chunks)| && ValueAt(chunks, pos) == Lerp(chunks[0], pos)
  {
  }

  lemma PastFirst(chunks: seq<seq<real>>, pos: nat, later: nat)
    requires chunks != [] && pos == later + UNIT * |chunks[0]| && later / UNIT < |Flatten(chunks[1..])|
    ensures pos / UNIT == later / UNIT + |chunks[0]| < |Flatten(chunks)|
    ensures ValueAt(chunks, pos) == ValueAt(chunks[1..], later)
  {
  }

  lemma {:induction false} FeedAllAppends(s: Stream, chunks: seq<seq<real>>, rate: nat)
    requires rate > 0
    ensures var t := FeedAll(Stream([], s.offset), chunks, rate);
            FeedAll(s, chunks, rate) == Stream(s.out + t.out, t.offset)
    decreases |chunks|
  {
    hide Resample;
    if chunks == [] {
      assert s.out + [] == s.out;
    } else {
      var a := Feed(s, chunks[0], rate);
      var b := Feed(Stream([], s.offset), chunks[0], rate);
      FeedAllAppends(a, chunks[1..], rate);
      FeedAllAppends(b, chunks[1..], rate);
      assert a.offset == b.offset && a.out == s.out + b.out;
      var t := FeedAll(Stream([], a.offset), chunks[1..], rate);
      assert (s.out + b.out) + t.out == s.out + (b.out + t.out);
    }
  }

  /** Samples due before `a + b` are those due before `a` and then those due in the next `b`. */
  lemma DueSplits(a: nat, b: nat, pos: nat, rate: nat)
    requires rate > 0
    ensures var m := Due(a, pos, rate);
            pos + m * rate >= a && Due(a + b, pos, rate) == m + Due(b, pos + m * rate - a, rate)
    decreases a - pos
  {
    hide Due;
    if pos < a {
      DueNext(a, pos, rate);
      DueNext(a + b, pos, rate);
      DueSplits(a, b, pos + rate, rate);
      OneStepOn(pos, rate, Due(a, pos + rate, rate));
    } else {
      DuePast(a, b, pos, rate);
    }
  }

  lemma OneStepOn(pos: nat, rate: nat, m: nat)
    ensures pos + rate + m * rate == pos + (1 + m) * rate
  {
  }

  lemma DuePast(a: nat, b: nat, pos: nat, rate: nat)
    requires rate > 0 && pos >= a
    ensures Due(a, pos, rate) == 0 && Due(a + b, pos, rate) == Due(b, pos - a, rate)
  {
  }

  // ---------- when the buffers show in the values ----------

  /** The position falls strictly between the last sample of a buffer and the next one. */
  ghost predicate Straddles(chunks: seq<seq<real>>, pos: nat)
    requires pos / UNIT < |Flatten(chunks)|
    decreases |chunks|
  {
    if pos / UNIT < |chunks[0]| then
      pos % UNIT != 0 && pos / UNIT + 1 == |chunks[0]| < |Flatten(chunks)|
    else
      Straddles(chunks[1..], pos - UNIT * |chunks[0]|)
  }

  /** A sample taken from the buffers equals the one taken from the whole stream exactly when its
      position does not straddle two buffers, or the two samples around it are equal. */
  lemma {:induction false} ChunkingShows(chunks: seq<seq<real>>, pos: nat)
    requires pos / UNIT < |Flatten(chunks)|
    ensures var s, i := Flatten(chunks), pos / UNIT;
            ValueAt(chunks, pos) == Lerp(s, pos) <==>
            (Straddles(chunks, pos) ==> i + 1 < |s| && s[i] == s[i + 1])
    decreases |chunks|
  {
    var c, rest := chunks[0], Flatten(chunks[1..]);
    var s, i := Flatten(chunks), pos / UNIT;
    assert s == c + rest;
    if i < |c| {
      if i + 1 < |c| {
        assert s[i] == c[i] && s[i + 1] == c[i + 1];
      } else if rest == [] {
        assert s == c;
      } else {
        assert c[i] == s[i] && rest[0] == s[i + 1];
        HeldSample(c[i], rest[0], pos % UNIT);
      }
    } else {
      var later := pos - UNIT * |c|;
      ChunkingShows(chunks[1..], later);
      LerpShift(c, rest, pos, later);
      assert s[i] == rest[later / UNIT];
      if i + 1 < |s| { assert s[i + 1] == rest[later / UNIT + 1]; }
    }
  }

  lemma HeldSample(a: real, b: real, part: nat)
    requires part < UNIT
    ensures var frac := part as real / UNIT as real;
            a * (1.0 - frac) + a * frac == a
            && (a == a * (1.0 - frac) + b * frac <==> (part == 0 || a == b))
  {
    var frac := part as real / UNIT as real;
    assert a * (1.0 - frac) == a - a * frac;
    assert b * frac - a * frac == (b - a) * frac;
    if part > 0 {
      assert frac > 0.0;
      if (b - a) * frac == 0.0 { assert b - a == 0.0; }
    }
  }

  lemma LerpShift(c: seq<real>, rest: seq<real>, pos: nat, later: nat)
    requires pos == later + UNIT * |c| && later / UNIT < |rest|
    ensures pos / UNIT == later / UNIT + |c| && pos % UNIT == later % UNIT
    ensures Lerp(c + rest, pos) == Lerp(rest, later)
  {
  }

  /** With an input rate that is a multiple of 8000 the buffers never show: any split of the
      stream gives the samples of the stream taken in one piece. */
  lemma WholeRatioUnaffected(chunks: seq<seq<real>>, rate: nat)
    requires rate > 0 && rate % UNIT == 0
    ensures FeedAll(Stream([], 0), chunks, rate) == FeedAll(Stream([], 0), [Flatten(chunks)], rate)
  {
    hide FeedAll, ValueAt, Straddles, Lerp;
    var whole := [Flatten(chunks)];
    FlattenOne(Flatten(chunks));
    var s, t := FeedAll(Stream([], 0), chunks, rate), FeedAll(Stream([], 0), whole, rate);
    OutputCount(chunks, 0, rate);
    OutputCount(whole, 0, rate);
    forall k | 0 <= k < |s.out| ensures s.out[k] == t.out[k] {
      OutputPositions(chunks, 0, rate, k);
      OutputPositions(whole, 0, rate, k);
      OnSample(k, rate);
      NoStraddle(chunks, k * rate);
      NoStraddle(whole, k * rate);
      ChunkingShows(chunks, k * rate);
      ChunkingShows(whole, k * rate);
    }
  }

  lemma OnSample(k: nat, rate: nat)
    requires rate % UNIT == 0
    ensures k * rate % UNIT == 0
  {
    var q := rate / UNIT;
    assert k * rate == (k * q) * UNIT;
  }

  lemma {:induction false} NoStraddle(chunks: seq<seq<real>>, pos: nat)
    requires pos / UNIT < |Flatten(chunks)| && pos % UNIT == 0
    ensures !Straddles(chunks, pos)
    decreases |chunks|
  {
    if pos / UNIT >= |chunks[0]| {
      NoStraddle(chunks[1..], pos - UNIT * |chunks[0]|);
    }
  }

  /** At any other rate some split shows: a buffer that ends where the second sample is still to be
      interpolated, and after it one with another value. */
  lemma SomeSplitShows(rate: nat) returns (chunks: seq<seq<real>>)
    requires rate % UNIT != 0
    ensures FeedAll(Stream([], 0), chunks, rate) != FeedAll(Stream([], 0), [Flatten(chunks)], rate)
  {
    hide FeedAll, ValueAt, Straddles, Lerp;
    var q := rate / UNIT;
    var c: seq<real> := seq(q + 1, _ => 0.0);
    chunks := [c, [1.0]];
    var s := c + [1.0];
    assert chunks[1..] == [[1.0]];
    FlattenOne([1.0]);
    assert Flatten(chunks) == s;
    FlattenOne(s);
    OutputCount(chunks, 0, rate);
    OutputCount([s], 0, rate);
    SecondDue(UNIT * |s|, rate);
    OutputPositions(chunks, 0, rate, 1);
    OutputPositions([s], 0, rate, 1);
    assert Straddles(chunks, rate) by { EndOfFirst(chunks, rate); }
    ChunkingShows(chunks, rate);
    ChunkingShows([s], rate);
    InOneBuffer(s, rate);
    assert s[q] == 0.0 && s[q + 1] == 1.0;
  }

  lemma SecondDue(end: nat, rate: nat)
    requires 0 < rate < end
    ensures Due(end, 0, rate) > 1
  {
    DueNext(end, 0, rate);
    DueNext(end, rate, rate);
  }

  lemma EndOfFirst(chunks: seq<seq<real>>, pos: nat)
    requires chunks != [] && pos / UNIT + 1 == |chunks[0]| < |Flatten(chunks)| && pos % UNIT != 0
    ensures Straddles(chunks, pos)
  {
  }

  /** Every split of every stream gives the samples of the stream exactly at the rates that are
      multiples of 8000. */
  lemma AnySplitExactly(rate: nat)
    requires rate > 0
    ensures (forall chunks :: FeedAll(Stream([], 0), chunks, rate) == FeedAll(Stream([], 0), [Flatten(chunks)], rate))
       <==> rate % UNIT == 0
  {
    hide FeedAll;
    if rate % UNIT == 0 {
      forall chunks: seq<seq<real>>
        ensures FeedAll(Stream([], 0), chunks, rate) == FeedAll(Stream([], 0), [Flatten(chunks)], rate)
      {
        WholeRatioUnaffected(chunks, rate);
      }
    } else {
      var chunks := SomeSplitShows(rate);
    }
  }

  const BUFFER := 1024

  lemma {:induction false} BuffersLength(chunks: seq<seq<real>>)
    requires forall c :: c in chunks ==> |c| == BUFFER
    ensures |Flatten(chunks)| == BUFFER * |chunks|
    decreases |chunks|
  {
    if chunks != [] { BuffersLength(chunks[1..]); }
  }

  /** Between full buffers: a position past the last sample of buffer n straddles. */
  lemma {:induction false} LastOfBuffer(chunks: seq<seq<real>>, n: nat, part: nat)
    requires forall c :: c in chunks ==> |c| == BUFFER
    requires n + 1 < |chunks| && 0 < part < UNIT
    ensures |Flatten(chunks)| == BUFFER * |chunks|
    ensures var pos := UNIT * (BUFFER * n + BUFFER - 1) + part;
            pos / UNIT == BUFFER * n + BUFFER - 1 && Straddles(chunks, pos)
    decreases n
  {
    BuffersLength(chunks);
    var i := BUFFER * n + BUFFER - 1;
    DivUnique(UNIT * i + part, i, part, UNIT);
    if n > 0 {
      LastOfBuffer(chunks[1..], n - 1, part);
      assert UNIT * i + part - UNIT * |chunks[0]| == UNIT * (BUFFER * (n - 1) + BUFFER - 1) + part;
    }
  }

  /** With 44.1 kHz input they do show: of five buffers of 1024 samples, the fifth does not go on from
      the fourth as the stream does, whatever the samples, unless those at the seam are equal. */
  lemma OddRatioShows(chunks: seq<seq<real>>)
    requires |chunks| == 5 && forall c :: c in chunks ==> |c| == BUFFER
    requires |Flatten(chunks)| == 5 * BUFFER && Flatten(chunks)[4 * BUFFER - 1] != Flatten(chunks)[4 * BUFFER]
    ensures FeedAll(Stream([], 0), chunks, 44100) != FeedAll(Stream([], 0), [Flatten(chunks)], 44100)
  {
    hide FeedAll, ValueAt, Straddles, Lerp, Flatten;
    var k, pos := 743, 743 * 44100;
    var whole := [Flatten(chunks)];
    FlattenOne(Flatten(chunks));
    OutputCount(chunks, 0, 44100);
    OutputCount(whole, 0, 44100);
    assert pos == UNIT * (BUFFER * 3 + BUFFER - 1) + 6300;
    LastOfBuffer(chunks, 3, 6300);
    OutputPositions(chunks, 0, 44100, k);
    OutputPositions(whole, 0, 44100, k);
    ChunkingShows(chunks, pos);
    ChunkingShows(whole, pos);
    InOneBuffer(Flatten(chunks), pos);
  }

  lemma InOneBuffer(s: seq<real>, pos: nat)
    requires pos / UNIT < |s| && Flatten([s]) == s
    ensures !Straddles([s], pos)
  {
  }
}
