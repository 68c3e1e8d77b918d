/** The two-priority write queue of PeatBleService.kt as a step function, and its discipline
    over every interleaving of enqueues and timer ticks. */
module BleWriteQueue {
  import opened Basics
  import opened BleChunks

  const AUDIO_TRIM := 20
  const DATA_TRIM := 100

  /** A queue with the history of the packets that have left it: true for sent, false for
      dropped, in the order in which they were offered. */
  datatype Lane = Lane(queue: seq<bytes>, fates: seq<bool>)

  /** `timers` counts the delayed coroutines that have not run yet; `wire` is what has been
      handed to the Bluetooth stack. */
  datatype Queues = Queues(audio: Lane, data: Lane, inFlight: bool, timers: nat, wire: seq<bytes>)

  const IDLE := Queues(Lane([], []), Lane([], []), false, 0, [])

  predicate IsAudio(p: bytes)
  {
    p != [] && p[0] == AUDIO_FRAME_PREFIX
  }

  /** Poll until at most `cap` packets are left. */
  function Trim(l: Lane, cap: nat): Lane
    decreases |l.queue|
  {
    if |l.queue| > cap then Trim(Lane(l.queue[1..], l.fates + [false]), cap) else l
  }

  function Add(l: Lane, p: bytes): Lane
  {
    l.(queue := l.queue + [p])
  }

  function Sent(l: Lane): Lane
    requires l.queue != []
  {
    Lane(l.queue[1..], l.fates + [true])
  }

  /** drainWriteQueue: one packet leaves, audio first, unless a write is in flight. */
  function Drain(s: Queues): Queues
  {
    if s.inFlight then s
    else if s.audio.queue != [] then
      Queues(Sent(s.audio), s.data, true, s.timers + 1, s.wire + [s.audio.queue[0]])
    else if s.data.queue != [] then
      Queues(s.audio, Sent(s.data), true, s.timers + 1, s.wire + [s.data.queue[0]])
    else s
  }

  /** enqueueForSend: the queue is trimmed before the packet is added. */
  function Enqueue(s: Queues, p: bytes): Queues
  {
    Drain(if IsAudio(p) then s.(audio := Add(Trim(s.audio, AUDIO_TRIM), p))
          else s.(data := Add(Trim(s.data, DATA_TRIM), p)))
  }

  function EnqueueAll(s: Queues, ps: seq<bytes>): Queues
    decreases |ps|
  {
    if ps == [] then s else EnqueueAll(Enqueue(s, ps[0]), ps[1..])
  }

  lemma {:induction false} EnqueueAllSnoc(s: Queues, ps: seq<bytes>, p: bytes)
    ensures EnqueueAll(s, ps + [p]) == Enqueue(EnqueueAll(s, ps), p)
    decreases |ps|
  {
    hide Enqueue;
    if ps == [] {
      assert [p][1..] == [] && ps + [p] == [p];
      assert EnqueueAll(Enqueue(s, p), []) == Enqueue(s, p);
    } else {
      assert (ps + [p])[1..] == ps[1..] + [p];
      EnqueueAllSnoc(Enqueue(s, ps[0]), ps[1..], p);
    }
  }

  /** The coroutine that runs 20 ms after a write. */
  function Tick(s: Queues): Queues
    requires s.timers > 0
  {
    Drain(s.(inFlight := false, timers := s.timers - 1))
  }

  // ---------- runs ----------

  datatype Event = Offer(packet: bytes) | TimerFires

  function Step(s: Queues, e: Event): Queues
  {
    match e
    case Offer(p) => Enqueue(s, p)
    case TimerFires => if s.timers > 0 then Tick(s) else s
  }

  function Run(evs: seq<Event>): Queues
  {
    if evs == [] then IDLE else Step(Run(evs[..|evs| - 1]), evs[|evs| - 1])
  }

  /** The packets of one class offered during a run. */
  function Offered(evs: seq<Event>, audio: bool): seq<bytes>
  {
    if evs == [] then []
    else
      var e := evs[|evs| - 1];
      Offered(evs[..|evs| - 1], audio) + (if e.Offer? && IsAudio(e.packet) == audio then [e.packet] else [])
  }

  function OfClass(ps: seq<bytes>, audio: bool): seq<bytes>
  {
    if ps == [] then []
    else OfClass(ps[..|ps| - 1], audio) + (if IsAudio(ps[|ps| - 1]) == audio then [ps[|ps| - 1]] else [])
  }

  function Chosen(ps: seq<bytes>, fates: seq<bool>): seq<bytes>
    requires |ps| == |fates|
  {
    if ps == [] then []
    else Chosen(ps[..|ps| - 1], fates[..|ps| - 1]) + (if fates[|ps| - 1] then [ps[|ps| - 1]] else [])
  }

  function Count(fates: seq<bool>, fate: bool): nat
  {
    if fates == [] then 0
    else Count(fates[..|fates| - 1], fate) + (if fates[|fates| - 1] == fate then 1 else 0)
  }

  // ---------- what every run keeps ----------

  ghost predicate Disciplined(s: Queues)
  {
    |s.audio.queue| <= AUDIO_TRIM + 1 && |s.data.queue| <= DATA_TRIM + 1
    && s.timers == (if s.inFlight then 1 else 0)
    && (!s.inFlight ==> s.audio.queue == [] && s.data.queue == [])
  }

  /** The packets offered to a lane split, in order, into those that have left it (sent or
      dropped) and those still waiting; the ones sent are a subsequence in the same order. */
  ghost predicate Accounts(l: Lane, offered: seq<bytes>, sent: seq<bytes>)
  {
    |l.fates| + |l.queue| == |offered| && l.queue == offered[|l.fates|..]
    && Chosen(offered[..|l.fates|], l.fates) == sent
  }

  lemma {:induction false} TrimAccounts(l: Lane, cap: nat, offered: seq<bytes>, sent: seq<bytes>)
    requires Accounts(l, offered, sent)
    ensures Accounts(Trim(l, cap), offered, sent)
    decreases |l.queue|
  {
    if |l.queue| > cap {
      LeaveAccounts(l, false, offered, sent);
      TrimAccounts(Lane(l.queue[1..], l.fates + [false]), cap, offered, sent);
    }
  }

  lemma LeaveAccounts(l: Lane, fate: bool, offered: seq<bytes>, sent: seq<bytes>)
    requires Accounts(l, offered, sent) && l.queue != []
    ensures Accounts(Lane(l.queue[1..], l.fates + [fate]), offered, if fate then sent + [l.queue[0]] else sent)
  {
    var n := |l.fates|;
    var upto, fates := offered[..n + 1], l.fates + [fate];
    assert upto[..n] == offered[..n] && fates[..n] == l.fates && upto[n] == l.queue[0];
  }

  lemma AddAccounts(l: Lane, p: bytes, offered: seq<bytes>, sent: seq<bytes>)
    requires Accounts(l, offered, sent)
    ensures Accounts(Add(l, p), offered + [p], sent)
  {
    assert (offered + [p])[..|l.fates|] == offered[..|l.fates|];
  }

  lemma OfClassSnoc(ps: seq<bytes>, p: bytes, audio: bool)
    ensures OfClass(ps + [p], audio) == OfClass(ps, audio) + (if IsAudio(p) == audio then [p] else [])
  {
    assert (ps + [p])[..|ps|] == ps;
  }

  ghost predicate Balanced(s: Queues, audio: seq<bytes>, data: seq<bytes>)
  {
    Accounts(s.audio, audio, OfClass(s.wire, true)) && Accounts(s.data, data, OfClass(s.wire, false))
    && (forall p :: p in audio ==> IsAudio(p)) && (forall p :: p in data ==> !IsAudio(p))
  }

  lemma DrainBalanced(s: Queues, audio: seq<bytes>, data: seq<bytes>)
    requires Balanced(s, audio, data)
    ensures Balanced(Drain(s), audio, data)
  {
    hide Chosen, OfClass, IsAudio;
    if !s.inFlight && s.audio.queue != [] {
      var p := s.audio.queue[0];
      assert p == audio[|s.audio.fates|] && p in audio;
      LeaveAccounts(s.audio, true, audio, OfClass(s.wire, true));
      OfClassSnoc(s.wire, p, true); OfClassSnoc(s.wire, p, false);
    } else if !s.inFlight && s.data.queue != [] {
      var p := s.data.queue[0];
      assert p == data[|s.data.fates|] && p in data;
      LeaveAccounts(s.data, true, data, OfClass(s.wire, false));
      OfClassSnoc(s.wire, p, true); OfClassSnoc(s.wire, p, false);
    }
  }

  lemma EnqueueBalanced(s: Queues, p: bytes, audio: seq<bytes>, data: seq<bytes>)
    requires Balanced(s, audio, data)
    ensures if IsAudio(p) then Balanced(Enqueue(s, p), audio + [p], data) else Balanced(Enqueue(s, p), audio, data + [p])
  {
    hide Chosen, OfClass, Trim, IsAudio, Accounts;
    TrimAccounts(s.audio, AUDIO_TRIM, audio, OfClass(s.wire, true));
    TrimAccounts(s.data, DATA_TRIM, data, OfClass(s.wire, false));
    if IsAudio(p) {
      AddAccounts(Trim(s.audio, AUDIO_TRIM), p, audio, OfClass(s.wire, true));
      DrainBalanced(s.(audio := Add(Trim(s.audio, AUDIO_TRIM), p)), audio + [p], data);
    } else {
      AddAccounts(Trim(s.data, DATA_TRIM), p, data, OfClass(s.wire, false));
      DrainBalanced(s.(data := Add(Trim(s.data, DATA_TRIM), p)), audio, data + [p]);
    }
  }

  lemma EnqueueDisciplined(s: Queues, p: bytes)
    requires Disciplined(s)
    ensures Disciplined(Enqueue(s, p))
  {
    hide IsAudio;
    TrimSize(s.audio, AUDIO_TRIM);
    TrimSize(s.data, DATA_TRIM);
  }

  lemma {:induction false} TrimSize(l: Lane, cap: nat)
    ensures |Trim(l, cap).queue| == Min(|l.queue|, cap)
    decreases |l.queue|
  {
    if |l.queue| > cap {
      TrimSize(Lane(l.queue[1..], l.fates + [false]), cap);
    }
  }

  /** Over every run: the bounds 21 and 101, no stall, one timer per write in flight; and each
      class is sent in the order offered, with offered = sent + dropped + waiting. */
  lemma {:induction false} RunDisciplined(evs: seq<Event>)
    ensures Disciplined(Run(evs)) && Balanced(Run(evs), Offered(evs, true), Offered(evs, false))
    decreases |evs|
  {
    hide Chosen, OfClass, Enqueue, Balanced, IsAudio;
    if evs == [] {
      assert Balanced(IDLE, [], []) by { EmptyBalanced(); }
    } else {
      var before, e := evs[..|evs| - 1], evs[|evs| - 1];
      RunDisciplined(before);
      var s, a, d := Run(before), Offered(before, true), Offered(before, false);
      match e
      case Offer(p) =>
        EnqueueBalanced(s, p, a, d);
        EnqueueDisciplined(s, p);
        assert a + [] == a && d + [] == d;
      case TimerFires =>
        assert a + [] == a && d + [] == d;
        if s.timers > 0 {
          var t := s.(inFlight := false, timers := s.timers - 1);
          SameLanesBalanced(s, t, a, d);
          DrainBalanced(t, a, d);
        }
    }
  }

  lemma EmptyBalanced()
    ensures Balanced(IDLE, [], [])
  {
  }

  lemma SameLanesBalanced(s: Queues, t: Queues, a: seq<bytes>, d: seq<bytes>)
    requires Balanced(s, a, d) && t.audio == s.audio && t.data == s.data && t.wire == s.wire
    ensures Balanced(t, a, d)
  {
  }

  /** Conservation in numbers, for either class. */
  lemma Conservation(evs: seq<Event>, audio: bool)
    ensures var s := Run(evs);
            var l := if audio then s.audio else s.data;
            |Offered(evs, audio)| == |OfClass(s.wire, audio)| + Count(l.fates, false) + |l.queue|
  {
    RunDisciplined(evs);
    var s := Run(evs);
    var l := if audio then s.audio else s.data;
    ChosenCount(Offered(evs, audio)[..|l.fates|], l.fates);
  }

  lemma {:induction false} ChosenCount(ps: seq<bytes>, fates: seq<bool>)
    requires |ps| == |fates|
    ensures |Chosen(ps, fates)| + Count(fates, false) == |fates|
    decreases |ps|
  {
    if ps != [] {
      ChosenCount(ps[..|ps| - 1], fates[..|ps| - 1]);
    }
  }

  lemma CountSnoc(fates: seq<bool>, fate: bool)
    ensures Count(fates + [fate], false) == Count(fates, false) + if fate then 0 else 1
  {
    assert (fates + [fate])[..|fates|] == fates;
  }

  lemma {:induction false} TrimDrops(l: Lane, cap: nat)
    ensures Count(Trim(l, cap).fates, false) == Count(l.fates, false) + if |l.queue| > cap then |l.queue| - cap else 0
    decreases |l.queue|
  {
    if |l.queue| > cap {
      CountSnoc(l.fates, false);
      TrimDrops(Lane(l.queue[1..], l.fates + [false]), cap);
    }
  }

  lemma DrainDropsNone(s: Queues)
    ensures Count(Drain(s).audio.fates, false) == Count(s.audio.fates, false)
    ensures Count(Drain(s).data.fates, false) == Count(s.data.fates, false)
  {
    CountSnoc(s.audio.fates, true);
    CountSnoc(s.data.fates, true);
  }

  /** Over every run: an offer drops one packet, the oldest waiting one of its class, exactly if more than
      20 audio packets or more than 100 data packets wait; a timer drops none. */
  lemma DropsExactly(evs: seq<Event>, e: Event)
    ensures var s, t := Run(evs), Run(evs + [e]);
            && Count(t.audio.fates, false) == Count(s.audio.fates, false)
                 + (if e.Offer? && IsAudio(e.packet) && |s.audio.queue| > 20 then 1 else 0)
            && Count(t.data.fates, false) == Count(s.data.fates, false)
                 + (if e.Offer? && !IsAudio(e.packet) && |s.data.queue| > 100 then 1 else 0)
  {
    hide Drain, Trim, Count, IsAudio;
    assert (evs + [e])[..|evs|] == evs;
    var s := Run(evs);
    RunDisciplined(evs);
    TrimDrops(s.audio, AUDIO_TRIM);
    TrimDrops(s.data, DATA_TRIM);
    match e
    case Offer(p) =>
      DrainDropsNone(if IsAudio(p) then s.(audio := Add(Trim(s.audio, AUDIO_TRIM), p)) else s.(data := Add(Trim(s.data, DATA_TRIM), p)));
    case TimerFires => DrainDropsNone(s.(inFlight := false, timers := if s.timers > 0 then s.timers - 1 else 0));
  }

  /** A data packet leaves only when no audio waits. */
  lemma AudioFirst(evs: seq<Event>, e: Event)
    ensures var s, t := Run(evs), Run(evs + [e]);
            t.wire == s.wire
            || exists p :: t.wire == s.wire + [p] && (!IsAudio(p) ==> t.audio.queue == [])
  {
    hide Chosen, OfClass, Trim;
    assert (evs + [e])[..|evs|] == evs;
    var s, t := Run(evs), Run(evs + [e]);
    RunDisciplined(evs);
    match e
    case Offer(p) =>
      HeadIsAudio(evs, p);
    case TimerFires =>
      if t.wire != s.wire {
        assert t.wire == s.wire + [t.wire[|s.wire|]];
        if s.audio.queue != [] { FirstAudio(evs); }
      }
  }

  lemma FirstAudio(evs: seq<Event>)
    requires Run(evs).audio.queue != []
    ensures IsAudio(Run(evs).audio.queue[0])
  {
    RunDisciplined(evs);
    var l := Run(evs).audio;
    assert l.queue[0] == Offered(evs, true)[|l.fates|];
  }

  lemma HeadIsAudio(evs: seq<Event>, p: bytes)
    ensures var s, t := Run(evs), Enqueue(Run(evs), p);
            t.wire == s.wire
            || exists q :: t.wire == s.wire + [q] && (!IsAudio(q) ==> t.audio.queue == [])
  {
    hide Chosen, OfClass;
    RunDisciplined(evs);
    var s := Run(evs);
    if !s.inFlight {
      assert Trim(s.audio, AUDIO_TRIM) == s.audio && Trim(s.data, DATA_TRIM) == s.data;
      assert Enqueue(s, p).wire == s.wire + [p];
    }
  }

  // ---------- progress ----------

  function Ticks(s: Queues, n: nat): Queues
    decreases n
  {
    if n == 0 then s else Ticks(Step(s, TimerFires), n - 1)
  }

  /** Left alone, the timers empty both queues: all waiting audio, then all waiting data. */
  lemma {:induction false} TimersDrain(s: Queues)
    requires Disciplined(s)
    ensures var n := |s.audio.queue| + |s.data.queue| + 1;
            Ticks(s, n).wire == s.wire + s.audio.queue + s.data.queue && !Ticks(s, n).inFlight
    decreases |s.audio.queue| + |s.data.queue|
  {
    if s.inFlight {
      var t := Step(s, TimerFires);
      if s.audio.queue != [] {
        assert s.audio.queue == [s.audio.queue[0]] + s.audio.queue[1..];
        TimersDrain(t);
        assert t.wire + t.audio.queue + t.data.queue == s.wire + s.audio.queue + s.data.queue;
      } else if s.data.queue != [] {
        assert s.data.queue == [s.data.queue[0]] + s.data.queue[1..];
        TimersDrain(t);
        assert t.wire + t.audio.queue + t.data.queue == s.wire + s.audio.queue + s.data.queue;
      } else {
        assert Ticks(t, 0) == t;
      }
    } else {
      assert Ticks(Step(s, TimerFires), 0) == s;
    }
  }

  function Offers(p: bytes, n: nat): seq<Event>
  {
    if n == 0 then [] else Offers(p, n - 1) + [Offer(p)]
  }

  /** While a write is in flight an audio packet only joins its queue. */
  lemma JoinsQueue(s: Queues, p: bytes)
    requires IsAudio(p) && s.inFlight && |s.audio.queue| <= AUDIO_TRIM
    ensures Enqueue(s, p) == s.(audio := Lane(s.audio.queue + [p], s.audio.fates))
  {
  }

  lemma FirstOffer(p: bytes)
    requires IsAudio(p)
    ensures var s := Enqueue(IDLE, p); s.audio.queue == [] && s.inFlight
  {
  }

  lemma RunOffers(p: bytes, n: nat)
    requires n > 0
    ensures Run(Offers(p, n)) == Enqueue(Run(Offers(p, n - 1)), p)
  {
    hide Enqueue;
    assert Offers(p, n)[..|Offers(p, n)| - 1] == Offers(p, n - 1);
  }

  /** The bound 21 is met: the trim comes before the add. */
  lemma {:induction false} AudioBoundMet(p: bytes, n: nat)
    requires IsAudio(p) && 1 <= n <= AUDIO_TRIM + 2
    ensures |Run(Offers(p, n)).audio.queue| == n - 1 && Run(Offers(p, n)).inFlight
    decreases n
  {
    hide Run, Enqueue;
    RunOffers(p, n);
    if n > 1 {
      AudioBoundMet(p, n - 1);
      JoinsQueue(Run(Offers(p, n - 1)), p);
    } else {
      assert Run(Offers(p, 0)) == IDLE by { NothingOffered(p); }
      FirstOffer(p);
    }
  }

  lemma NothingOffered(p: bytes)
    ensures Run(Offers(p, 0)) == IDLE
  {
  }
}
