/** The relay of VoiceManager.ts from resampled audio to Bluetooth frames: the frame pump and
    the 16-bit little-endian byte form. */
module VoiceRelay {
  import opened Basics
  import opened Resampler

  const FRAME := 320
  const MAX_PENDING := 3200
  const KEEP_PENDING := 1600
  const MAX_BUFFER := 1024

  /** What leaves the pending list: a frame that is sent, or samples spliced away. */
  datatype Piece = Frame(samples: seq<int16>) | Dropped(samples: seq<int16>)

  datatype Relay = Relay(pending: seq<int16>, offset: nat, log: seq<Piece>)

  const FRESH := Relay([], 0, [])

  function Cap(pending: seq<int16>, log: seq<Piece>): (seq<int16>, seq<Piece>)
  {
    if |pending| > MAX_PENDING then
      (pending[|pending| - KEEP_PENDING..], log + [Dropped(pending[..|pending| - KEEP_PENDING])])
    else (pending, log)
  }

  function Pump(pending: seq<int16>, log: seq<Piece>): (seq<int16>, seq<Piece>)
    decreases |pending|
  {
    if |pending| < FRAME then (pending, log)
    else Pump(pending[FRAME..], log + [Frame(pending[..FRAME])])
  }

  /** One onaudioprocess event. */
  function Process(r: Relay, input: seq<real>, rate: nat): Relay
    requires rate > 0
  {
    var s := Feed(Stream([], r.offset), input, rate);
    var (capped, log) := Cap(r.pending + ToPcm(s.out), r.log);
    var (rest, log') := Pump(capped, log);
    Relay(rest, s.offset, log')
  }

  function Run(r: Relay, inputs: seq<seq<real>>, rate: nat): Relay
    requires rate > 0
    decreases |inputs|
  {
    if inputs == [] then r else Run(Process(r, inputs[0], rate), inputs[1..], rate)
  }

  // ---------- conservation ----------

  function Samples(log: seq<Piece>): seq<int16>
  {
    if log == [] then [] else Samples(log[..|log| - 1]) + log[|log| - 1].samples
  }

  function FrameCount(log: seq<Piece>): nat
  {
    if log == [] then 0 else FrameCount(log[..|log| - 1]) + (if log[|log| - 1].Frame? then 1 else 0)
  }

  function DroppedCount(log: seq<Piece>): nat
  {
    if log == [] then 0 else DroppedCount(log[..|log| - 1]) + (if log[|log| - 1].Dropped? then |log[|log| - 1].samples| else 0)
  }

  ghost predicate WholeFrames(log: seq<Piece>)
  {
    forall p :: p in log && p.Frame? ==> |p.samples| == FRAME
  }

  lemma SamplesSnoc(log: seq<Piece>, p: Piece)
    ensures Samples(log + [p]) == Samples(log) + p.samples
  {
    assert (log + [p])[..|log|] == log;
  }

  lemma {:induction false} PumpConserves(pending: seq<int16>, log: seq<Piece>)
    requires WholeFrames(log)
    ensures var (rest, log') := Pump(pending, log);
            Samples(log') + rest == Samples(log) + pending && |rest| < FRAME && WholeFrames(log')
            && DroppedCount(log') == DroppedCount(log)
    decreases |pending|
  {
    if |pending| >= FRAME {
      var p := Frame(pending[..FRAME]);
      SamplesSnoc(log, p);
      assert (log + [p])[..|log|] == log;
      PumpConserves(pending[FRAME..], log + [p]);
      assert pending == pending[..FRAME] + pending[FRAME..];
    }
  }

  lemma CapConserves(pending: seq<int16>, log: seq<Piece>)
    requires WholeFrames(log)
    ensures var (rest, log') := Cap(pending, log);
            Samples(log') + rest == Samples(log) + pending && WholeFrames(log')
            && (|pending| <= MAX_PENDING ==> log' == log)
  {
    hide Samples;
    if |pending| > MAX_PENDING {
      var n := |pending| - KEEP_PENDING;
      SamplesSnoc(log, Dropped(pending[..n]));
      assert pending == pending[..n] + pending[n..];
    }
  }

  /** One event keeps every sample: in a frame, among the dropped, or pending, in order. */
  lemma ProcessConserves(r: Relay, input: seq<real>, rate: nat)
    requires rate > 0 && WholeFrames(r.log)
    ensures var t, s := Process(r, input, rate), Feed(Stream([], r.offset), input, rate);
            Samples(t.log) + t.pending == Samples(r.log) + (r.pending + ToPcm(s.out))
            && |t.pending| < FRAME && WholeFrames(t.log) && t.offset == s.offset
            && (|r.pending| + |s.out| <= MAX_PENDING ==> DroppedCount(t.log) == DroppedCount(r.log))
  {
    hide Feed, ToPcm, Cap, Pump, Samples, WholeFrames, DroppedCount;
    var s := Feed(Stream([], r.offset), input, rate);
    var all := r.pending + ToPcm(s.out);
    CapConserves(all, r.log);
    var (capped, log) := Cap(all, r.log);
    PumpConserves(capped, log);
  }

  lemma {:induction false} PumpAppends(pending: seq<int16>, log: seq<Piece>)
    ensures var (rest, log') := Pump(pending, log);
            |log'| >= |log| && log'[..|log|] == log && forall k :: |log| <= k < |log'| ==> log'[k].Frame?
    decreases |pending|
  {
    if |pending| >= FRAME {
      PumpAppends(pending[FRAME..], log + [Frame(pending[..FRAME])]);
    }
  }

  /** One event: exactly when more than 3200 samples are pending with the new ones, all but the last 1600
      are dropped; and then only frames are sent. */
  lemma CapExactly(r: Relay, input: seq<real>, rate: nat)
    requires rate > 0
    ensures var t := Process(r, input, rate);
            var all := r.pending + ToPcm(Feed(Stream([], r.offset), input, rate).out);
            && |t.log| >= |r.log| && t.log[..|r.log|] == r.log
            && if |all| > 3200
               then |t.log| > |r.log| && t.log[|r.log|] == Dropped(all[..|all| - 1600])
                    && forall k :: |r.log| < k < |t.log| ==> t.log[k].Frame?
               else forall k :: |r.log| <= k < |t.log| ==> t.log[k].Frame?
  {
    hide Feed, ToPcm, Pump;
    var all := r.pending + ToPcm(Feed(Stream([], r.offset), input, rate).out);
    var (capped, log) := Cap(all, r.log);
    PumpAppends(capped, log);
    var t := Process(r, input, rate);
    assert t.log[..|r.log|] == t.log[..|log|][..|r.log|];
    if |all| > 3200 { assert t.log[|r.log|] == t.log[..|log|][|r.log|]; }
  }

  lemma {:induction false} CountsAddUp(log: seq<Piece>)
    requires WholeFrames(log)
    ensures |Samples(log)| == FRAME * FrameCount(log) + DroppedCount(log)
    decreases |log|
  {
    if log != [] {
      assert log[|log| - 1] in log;
      CountsAddUp(log[..|log| - 1]);
    }
  }

  lemma ToPcmConcat(a: seq<real>, b: seq<real>)
    ensures ToPcm(a + b) == ToPcm(a) + ToPcm(b)
  {
    hide FloatToInt16;
  }

  /** Over every stream: 320 * frames + dropped + pending = produced, fewer than 320 samples stay
      pending, and frames, dropped runs and pending samples are the produced stream in order. */
  lemma {:induction false} RelayConserves(inputs: seq<seq<real>>, rate: nat)
    requires rate > 0
    ensures var r, s := Run(FRESH, inputs, rate), FeedAll(Stream([], 0), inputs, rate);
            Samples(r.log) + r.pending == ToPcm(s.out) && r.offset == s.offset && |r.pending| < FRAME
            && FRAME * FrameCount(r.log) + DroppedCount(r.log) + |r.pending| == |s.out|
  {
    RunFrom(FRESH, inputs, rate);
    var r, s := Run(FRESH, inputs, rate), FeedAll(Stream([], 0), inputs, rate);
    assert [] + ToPcm(s.out) == ToPcm(s.out);
    CountsAddUp(r.log);
  }

  lemma {:induction false} RunFrom(r: Relay, inputs: seq<seq<real>>, rate: nat)
    requires rate > 0 && WholeFrames(r.log) && |r.pending| < FRAME
    ensures var t, s := Run(r, inputs, rate), FeedAll(Stream([], r.offset), inputs, rate);
            Samples(t.log) + t.pending == Samples(r.log) + r.pending + ToPcm(s.out)
            && t.offset == s.offset && |t.pending| < FRAME && WholeFrames(t.log)
    decreases |inputs|
  {
    hide Process, Feed, ToPcm, Samples, WholeFrames;
    if inputs == [] {
      EmptyPcm();
      assert Samples(r.log) + r.pending + [] == Samples(r.log) + r.pending;
    } else {
      var u, s := Process(r, inputs[0], rate), Feed(Stream([], r.offset), inputs[0], rate);
      ProcessConserves(r, inputs[0], rate);
      RunFrom(u, inputs[1..], rate);
      FeedAllAppends(s, inputs[1..], rate);
      var t := FeedAll(Stream([], s.offset), inputs[1..], rate);
      ToPcmConcat(s.out, t.out);
      assert Samples(u.log) + u.pending + ToPcm(t.out)
          == Samples(r.log) + r.pending + (ToPcm(s.out) + ToPcm(t.out));
    }
  }

  lemma EmptyPcm()
    ensures ToPcm([]) == []
  {
  }

  // ---------- nothing is dropped in practice ----------

  lemma DueBounded(size: nat, offset: nat, rate: nat)
    requires rate >= UNIT
    ensures Due(UNIT * size, offset, rate) <= size
  {
    DueReaches(UNIT * size, offset, rate);
    var m := Due(UNIT * size, offset, rate);
    if m > size {
      MulMono(UNIT, rate, m - 1);
    }
  }

  /** With the 1024-sample buffers of the script processor and an input rate of at least 8000 Hz
      the cap never strikes, so the frames are the resampled stream itself, 320 samples each. */
  lemma {:induction false} NothingDropped(r: Relay, inputs: seq<seq<real>>, rate: nat)
    requires rate >= UNIT && WholeFrames(r.log) && |r.pending| < FRAME && DroppedCount(r.log) == 0
    requires forall c :: c in inputs ==> |c| <= MAX_BUFFER
    ensures DroppedCount(Run(r, inputs, rate).log) == 0
    decreases |inputs|
  {
    hide Process, ToPcm, Samples, WholeFrames, DroppedCount, Resample;
    if inputs != [] {
      var c := inputs[0];
      ProcessConserves(r, c, rate);
      ResampleAt(c, r.offset, rate, 0);
      DueBounded(|c|, r.offset, rate);
      assert [] + Resample(c, r.offset, rate) == Resample(c, r.offset, rate);
      NothingDropped(Process(r, c, rate), inputs[1..], rate);
    }
  }

  /** End to end: for a rate that is a multiple of 8000, two splits of one stream into buffers of at
      most 1024 samples send the same audio, up to fewer than 320 samples that are still pending. */
  lemma SplitsSendTheSame(inputs: seq<seq<real>>, others: seq<seq<real>>, rate: nat)
    requires rate > 0 && rate % UNIT == 0 && Flatten(inputs) == Flatten(others)
    requires forall c :: c in inputs + others ==> |c| <= MAX_BUFFER
    ensures var r, t := Run(FRESH, inputs, rate), Run(FRESH, others, rate);
            Samples(r.log) == Samples(t.log) && r.pending == t.pending
            && DroppedCount(r.log) == DroppedCount(t.log) == 0
  {
    hide Run, FeedAll, Samples, FrameCount, DroppedCount, ToPcm;
    var r, t := Run(FRESH, inputs, rate), Run(FRESH, others, rate);
    WholeRatioUnaffected(inputs, rate);
    WholeRatioUnaffected(others, rate);
    RelayConserves(inputs, rate);
    RelayConserves(others, rate);
    NoneDropped();
    forall c | c in inputs ensures |c| <= MAX_BUFFER { assert c in inputs + others; }
    forall c | c in others ensures |c| <= MAX_BUFFER { assert c in inputs + others; }
    NothingDropped(FRESH, inputs, rate);
    NothingDropped(FRESH, others, rate);
    SamePending(FrameCount(r.log), |r.pending|, FrameCount(t.log), |t.pending|);
    RunFrom(FRESH, inputs, rate);
    RunFrom(FRESH, others, rate);
    var n := |Samples(r.log)|;
    CountsAddUp(r.log);
    CountsAddUp(t.log);
    assert (Samples(r.log) + r.pending)[..n] == (Samples(t.log) + t.pending)[..n];
    assert (Samples(r.log) + r.pending)[n..] == (Samples(t.log) + t.pending)[n..];
  }

  lemma NoneDropped()
    ensures DroppedCount([]) == 0 && WholeFrames([])
  {
  }

  lemma SamePending(a: nat, x: nat, b: nat, y: nat)
    requires FRAME * a + x == FRAME * b + y && x < FRAME && y < FRAME
    ensures a == b && x == y
  {
  }

  // ---------- 16-bit little-endian bytes ----------

  function SampleBytes(s: int16): (b: bytes)
    ensures |b| == 2
  {
    var v: int := if s < 0 then s as int + 0x1_0000 else s;
    [v % 0x100, v / 0x100]
  }

  function SampleOf(lo: byte, hi: byte): int16
  {
    var v := hi as int * 0x100 + lo as int;
    if v >= 0x8000 then v - 0x1_0000 else v
  }

  /** Low byte first, of the sample's 16-bit two's complement. */
  lemma SampleLayout(s: int16)
    ensures SampleBytes(s)[0] as int + 0x100 * SampleBytes(s)[1] as int == (if s < 0 then s as int + 0x1_0000 else s as int)
  {
  }

  lemma SampleRoundTrip(s: int16)
    ensures SampleOf(SampleBytes(s)[0], SampleBytes(s)[1]) == s
  {
  }

  function PcmBytes(samples: seq<int16>): (r: bytes)
    ensures |r| == 2 * |samples|
  {
    if samples == [] then []
    else
      SampleBytes(samples[0]) + PcmBytes(samples[1..])
  }

  function PcmSamples(b: bytes): seq<int16>
    decreases |b|
  {
    if |b| < 2 then []
    else
      [SampleOf(b[0], b[1])] + PcmSamples(b[2..])
  }

  /** The bytes of a frame read back as the same samples. */
  lemma {:induction false} PcmRoundTrip(samples: seq<int16>)
    ensures PcmSamples(PcmBytes(samples)) == samples
    decreases |samples|
  {
    if samples != [] {
      PcmRoundTrip(samples[1..]);
      SampleRoundTrip(samples[0]);
      assert PcmBytes(samples)[2..] == PcmBytes(samples[1..]);
    }
  }

  /** A sample is clamped to [-1, 1], scaled by 32768 below zero and by 32767 above, and rounded to the
      nearest integer, halves upwards. */
  lemma RoundedExactly(x: real, v: int16)
    ensures FloatToInt16(x) == v <==>
            if x >= 1.0 then v == 32767
            else if x <= -1.0 then v == -32768
            else -0.5 < v as real - x * (if x < 0.0 then 32768.0 else 32767.0) <= 0.5
  {
  }

  /** A sample in range comes back within two quantisation steps. */
  lemma QuantisationError(x: real)
    requires -1.0 <= x <= 1.0
    ensures -2.0 < FloatToInt16(x) as real - x * 32768.0 < 2.0
  {
  }

  // ---------- the loops ----------

  lemma {:induction false} PcmAt(samples: seq<int16>, i: nat)
    requires i < |samples|
    ensures PcmBytes(samples)[2 * i] == SampleBytes(samples[i])[0] && PcmBytes(samples)[2 * i + 1] == SampleBytes(samples[i])[1]
    decreases i
  {
    hide SampleBytes;
    if i > 0 {
      PcmAt(samples[1..], i - 1);
      assert PcmBytes(samples)[2..] == PcmBytes(samples[1..]);
    }
  }

  method Int16SamplesToBytes(samples: seq<int16>) returns (b: array<byte>)
    ensures b[..] == PcmBytes(samples)
  {
    hide PcmBytes, SampleBytes;
    b := new byte[2 * |samples|];
    for i := 0 to |samples|
      invariant forall k :: 0 <= k < 2 * i ==> b[k] == PcmBytes(samples)[k]
    {
      var value: int := if samples[i] < 0 then samples[i] as int + 0x1_0000 else samples[i];
      PcmAt(samples, i);
      SampleBytesOf(samples[i], value);
      b[2 * i] := value % 0x100;
      b[2 * i + 1] := value / 0x100 % 0x100;
    }
  }

  /** What the two assignments write is the sample's bytes. */
  lemma SampleBytesOf(s: int16, value: int)
    requires value == if s < 0 then s as int + 0x1_0000 else s
    ensures SampleBytes(s) == [value % 0x100, value / 0x100 % 0x100]
  {
  }

  /** The decode loop of scheduleIncomingBleFrame, before the division by 32768. */
  method DecodePcm(b: bytes) returns (samples: seq<int16>)
    ensures samples == PcmSamples(b)
  {
    var sampleCount := |b| / 2;
    samples := [];
    assert b[0..] == b;
    for i := 0 to sampleCount
      invariant samples + PcmSamples(b[2 * i..]) == PcmSamples(b)
    {
      var sample := b[2 * i + 1] as int * 0x100 + b[2 * i] as int;
      assert sample < 0x1_0000;
      assert b[2 * i..][2..] == b[2 * (i + 1)..];
      samples := samples + [if sample >= 0x8000 then sample - 0x1_0000 else sample];
    }
  }

  class BleRelayChain {
    var pendingSamples: seq<int16>
    var resampleOffset: nat
    var sentFrames: seq<bytes>
    ghost var log: seq<Piece>

    ghost function State(): Relay
      reads this
    {
      Relay(pendingSamples, resampleOffset, log)
    }

    constructor ()
      ensures State() == FRESH && sentFrames == []
    {
      pendingSamples, resampleOffset, sentFrames, log := [], 0, [], [];
    }

    method AppendResampledPcm16(input: seq<real>, inputRate: nat)
      requires inputRate > 0
      modifies this`pendingSamples, this`resampleOffset
      ensures var s := Feed(Stream([], old(resampleOffset)), input, inputRate);
              pendingSamples == old(pendingSamples) + ToPcm(s.out) && resampleOffset == s.offset
    {
      hide Lerp, FloatToInt16;
      var pos := resampleOffset;
      ghost var taken := [];
      while pos < UNIT * |input|
        invariant pos == old(resampleOffset) + |taken| * inputRate
        invariant taken + Resample(input, pos, inputRate) == Resample(input, old(resampleOffset), inputRate)
        invariant pendingSamples == old(pendingSamples) + ToPcm(taken)
        decreases UNIT * |input| - pos
      {
        var sample := Lerp(input, pos);
        assert taken + ([sample] + Resample(input, pos + inputRate, inputRate))
            == (taken + [sample]) + Resample(input, pos + inputRate, inputRate);
        ToPcmConcat(taken, [sample]);
        taken := taken + [sample];
        pendingSamples := pendingSamples + [FloatToInt16(sample)];
        pos := pos + inputRate;
      }
      assert [] + taken == taken;
      resampleOffset := pos - UNIT * |input|;
    }

    method OnAudioProcess(input: seq<real>, inputRate: nat)
      requires inputRate > 0 && sentFrames == SentBytes(log)
      modifies this
      ensures State() == Process(old(State()), input, inputRate)
      ensures sentFrames == SentBytes(log)
    {
      hide Feed, ToPcm, PcmBytes;
      AppendResampledPcm16(input, inputRate);
      if |pendingSamples| > MAX_PENDING {
        SentSnoc(log, Dropped(pendingSamples[..|pendingSamples| - KEEP_PENDING]));
        log := log + [Dropped(pendingSamples[..|pendingSamples| - KEEP_PENDING])];
        pendingSamples := pendingSamples[|pendingSamples| - KEEP_PENDING..];
      }
      ghost var capped, cappedLog := pendingSamples, log;
      while |pendingSamples| >= FRAME
        invariant Pump(pendingSamples, log) == Pump(capped, cappedLog)
        invariant resampleOffset == Feed(Stream([], old(resampleOffset)), input, inputRate).offset
        invariant sentFrames == SentBytes(log)
      {
        var frame := pendingSamples[..FRAME];
        pendingSamples := pendingSamples[FRAME..];
        var pcmBytes := Int16SamplesToBytes(frame);
        SentSnoc(log, Frame(frame));
        log := log + [Frame(frame)];
        sentFrames := sentFrames + [pcmBytes[..]];
      }
    }
  }

  /** The byte arrays handed to sendPcmFrame. */
  function SentBytes(log: seq<Piece>): seq<bytes>
  {
    if log == [] then []
    else
      var p := log[|log| - 1];
      SentBytes(log[..|log| - 1]) + (if p.Frame? then [PcmBytes(p.samples)] else [])
  }

  lemma SentSnoc(log: seq<Piece>, p: Piece)
    ensures SentBytes(log + [p]) == SentBytes(log) + (if p.Frame? then [PcmBytes(p.samples)] else [])
  {
    assert (log + [p])[..|log|] == log;
  }
}
