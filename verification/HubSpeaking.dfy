/** Who is speaking in a voice channel after any run, told by the requests alone. */
module HubSpeaking {
  import opened Basics
  import opened HubRoom
  import opened HubState
  import opened HubRuns
  import opened HubMembership
  import opened HubRequests

  // ---------- clients ----------

  /** Where the client, a member of the channel, said that it speaks. */
  ghost function TurnsOnAt(evs: seq<Event>, d: Client, r: string, ch: string): nat -> bool
  {
    (i: nat) => i < |evs| && Enabled(Run(evs[..i]), evs[i]) && evs[i] == Speaks(d, r, ch, true) && InVoice(Run(evs[..i]), d, r, ch)
  }

  /** Where it said that it does not, left the channel, or was gone. */
  ghost function TurnsOffAt(evs: seq<Event>, d: Client, r: string, ch: string): nat -> bool
  {
    (i: nat) => i < |evs| && Enabled(Run(evs[..i]), evs[i])
                && (evs[i] == Speaks(d, r, ch, false) || evs[i] == LeavesVoice(d, r, ch) || evs[i] == Disconnected(d))
  }

  lemma SpeakingAfter(h: Hub, e: Event, d: Client, r: string, ch: string)
    requires HubInv(h) && Enabled(h, e)
    ensures Speaking(Step(h, e), d, r, ch)
       <==> (e == Speaks(d, r, ch, true) && InVoice(h, d, r, ch))
            || (Speaking(h, d, r, ch) && !(e == Speaks(d, r, ch, false) || e == LeavesVoice(d, r, ch) || e == Disconnected(d)))
  {
    hide HubInv, Step, Enabled;
    WhatElse(h, e, d, r, ch, "");
    if Speaking(h, d, r, ch) { SpeakersAreMembers(h, d, r, ch); }
  }

  lemma SpeakersAreMembers(h: Hub, d: Client, r: string, ch: string)
    requires HubInv(h) && Speaking(h, d, r, ch)
    ensures InVoice(h, d, r, ch)
  {
    hide HubInv;
    VoiceOf(h, r, ch);
  }

  /** Over every run, a client is speaking in a channel exactly if, as a member of it, it has said so, and
      since then it has neither said that it is not, nor left the channel, nor been disconnected. */
  lemma {:induction false} SpeakingExactly(evs: seq<Event>, d: Client, r: string, ch: string)
    ensures Speaking(Run(evs), d, r, ch) <==> Since(|evs|, TurnsOnAt(evs, d, r, ch), TurnsOffAt(evs, d, r, ch))
    decreases |evs|
  {
    hide HubInv, Step, Enabled, Speaking, InVoice;
    if evs == [] {
      assert !Speaking(EMPTY_HUB, d, r, ch) by { NobodyAtFirst(d, r, ch); }
    } else {
      var n := |evs| - 1;
      SpeakingExactly(evs[..n], d, r, ch);
      RunKeeps(evs[..n]);
      if Enabled(Run(evs[..n]), evs[n]) { SpeakingAfter(Run(evs[..n]), evs[n], d, r, ch); }
      TurnsNext(evs, d, r, ch, n);
    }
  }

  lemma NobodyAtFirst(d: Client, r: string, ch: string)
    ensures !Speaking(EMPTY_HUB, d, r, ch)
  {
  }

  lemma TurnsNext(evs: seq<Event>, d: Client, r: string, ch: string, n: nat)
    requires |evs| == n + 1
    ensures Since(n + 1, TurnsOnAt(evs, d, r, ch), TurnsOffAt(evs, d, r, ch))
       <==> TurnsOnAt(evs, d, r, ch)(n) || (Since(n, TurnsOnAt(evs[..n], d, r, ch), TurnsOffAt(evs[..n], d, r, ch)) && !TurnsOffAt(evs, d, r, ch)(n))
  {
    hide Run, Enabled, InVoice;
    var init := evs[..n];
    forall i: nat | i < n
      ensures TurnsOnAt(evs, d, r, ch)(i) == TurnsOnAt(init, d, r, ch)(i) && TurnsOffAt(evs, d, r, ch)(i) == TurnsOffAt(init, d, r, ch)(i)
    {
      assert init[..i] == evs[..i];
    }
    SinceNext(n, TurnsOnAt(init, d, r, ch), TurnsOffAt(init, d, r, ch), TurnsOnAt(evs, d, r, ch), TurnsOffAt(evs, d, r, ch));
  }

  // ---------- Bluetooth peers ----------

  /** Under which id a speaking mark of `y` goes on after the event, if it does. */
  ghost function MarkAfter(h: Hub, e: Event, r: string, ch: string, y: string): Option<string>
  {
    if !Enabled(h, e) then Some(y) else
    match e
    case PeerSpeaks(c, room, channel, id, on) => if y == id && r == room && ch == channel && InRoom(h, c, r) && !on then None else Some(y)
    case PeerLeavesVoice(_, room, channel, id) => if y == id && r == room && ch == channel then None else Some(y)
    case RegistersPeer(c, id, order) => if InRoom(h, c, r) && y in order then Some(id) else Some(y)
    case UnregistersPeer(c, id) => if y == id && Resolves(h, c, id) && InRoom(h, c, r) then None else Some(y)
    case Disconnected(c) => if y in OwnedBy(h, c) then None else Some(y)
    case _ => Some(y)
  }

  /** Under which id a mark set under `y` by event `i` is at the end of the run. */
  ghost function MarkOf(evs: seq<Event>, r: string, ch: string, y: string, i: nat): Option<string>
    requires i < |evs|
  {
    if i == |evs| - 1 then Some(y)
    else
      match MarkOf(evs[..|evs| - 1], r, ch, y, i)
      case None => None
      case Some(x) => MarkAfter(Run(evs[..|evs| - 1]), evs[|evs| - 1], r, ch, x)
  }

  /** Event `i` sets the mark of `y`, which is seated in the channel. */
  ghost predicate Marks(h: Hub, e: Event, r: string, ch: string, y: string)
  {
    Enabled(h, e) && e.PeerSpeaks? && e.id == y && e.room == r && e.channel == ch && e.on && InRoom(h, e.c, r) && Sits(h, r, ch, y)
  }

  ghost predicate MarkedBy(evs: seq<Event>, r: string, ch: string, x: string, y: string, i: nat)
  {
    i < |evs| && Marks(Run(evs[..i]), evs[i], r, ch, y) && MarkOf(evs, r, ch, y, i) == Some(x)
  }

  lemma PeerSpeakingAfter(h: Hub, e: Event, r: string, ch: string, x: string)
    requires HubInv(h) && Enabled(h, e)
    ensures PeerSpeaking(Step(h, e), r, ch, x)
       <==> Marks(h, e, r, ch, x) || exists y :: PeerSpeaking(h, r, ch, y) && MarkAfter(h, e, r, ch, y) == Some(x)
  {
    hide HubInv, Step, Enabled, PeerSpeaking, PeerToSpeak, Marks, MarkAfter;
    WhatElse(h, e, e.c, r, ch, x);
    if e.RegistersPeer? { Fresh(h, e); }
    if PeerSpeaking(h, r, ch, x) { PeersSpeakSeated(h, r, ch, x); }
    MarksToBe(h, e, r, ch, x);
  }

  lemma MarksToBe(h: Hub, e: Event, r: string, ch: string, x: string)
    requires Enabled(h, e) && (e.RegistersPeer? ==> e.id !in e.order) && (PeerSpeaking(h, r, ch, x) ==> Sits(h, r, ch, x))
    ensures PeerToSpeak(h, e, r, ch, x)
       <==> Marks(h, e, r, ch, x) || exists y :: PeerSpeaking(h, r, ch, y) && MarkAfter(h, e, r, ch, y) == Some(x)
  {
    hide Enabled, OwnedBy, PeerSpeaking, Sits, InRoom, Resolves;
    assert PeerSpeaking(h, r, ch, x) && MarkAfter(h, e, r, ch, x) == Some(x) ==> PeerToSpeak(h, e, r, ch, x);
  }

  lemma Fresh(h: Hub, e: Event)
    requires HubInv(h) && Enabled(h, e) && e.RegistersPeer?
    ensures e.id !in e.order
  {
    Parts(h);
    NotStale(h, e.c, e.id, e.order);
  }

  lemma PeersSpeakSeated(h: Hub, r: string, ch: string, x: string)
    requires HubInv(h) && PeerSpeaking(h, r, ch, x)
    ensures Sits(h, r, ch, x)
  {
    hide HubInv;
    VoiceOf(h, r, ch);
  }

  /** Over every run, a Bluetooth peer is shown speaking exactly if a relay in the room has said so of it
      while it was seated, or of an id whose mark it has taken on since, and nothing took the mark away. */
  lemma {:induction false} PeerSpeakingExactly(evs: seq<Event>, r: string, ch: string, x: string)
    ensures PeerSpeaking(Run(evs), r, ch, x) <==> exists y, i: nat :: MarkedBy(evs, r, ch, x, y, i)
    decreases |evs|
  {
    hide HubInv, Step, Enabled, PeerSpeaking, Marks, MarkAfter, MarkOf;
    if evs == [] {
      assert !PeerSpeaking(EMPTY_HUB, r, ch, x) by { NoPeerAtFirst(r, ch, x); }
    } else {
      var n := |evs| - 1;
      var init, h, e := evs[..n], Run(evs[..n]), evs[n];
      RunKeeps(init);
      forall y ensures PeerSpeaking(h, r, ch, y) <==> exists z, i: nat :: MarkedBy(init, r, ch, y, z, i) {
        PeerSpeakingExactly(init, r, ch, y);
      }
      if Enabled(h, e) { PeerSpeakingAfter(h, e, r, ch, x); } else { NotMarked(h, e, r, ch, x); }
      MarksCarried(evs, r, ch, x, n);
    }
  }

  lemma MarksCarried(evs: seq<Event>, r: string, ch: string, x: string, n: nat)
    requires |evs| == n + 1
    ensures (exists z, i: nat :: MarkedBy(evs, r, ch, x, z, i))
       <==> Marks(Run(evs[..n]), evs[n], r, ch, x)
            || exists y :: (exists z, i: nat :: MarkedBy(evs[..n], r, ch, y, z, i)) && MarkAfter(Run(evs[..n]), evs[n], r, ch, y) == Some(x)
  {
    hide Run, Marks, MarkAfter, MarkOf;
    var init, h, e := evs[..n], Run(evs[..n]), evs[n];
    if Marks(h, e, r, ch, x) {
      MarkIsNew(evs, r, ch, x, n);
      assert MarkedBy(evs, r, ch, x, x, n);
    }
    if y :| (exists z, i: nat :: MarkedBy(init, r, ch, y, z, i)) && MarkAfter(h, e, r, ch, y) == Some(x) {
      var z, i: nat :| MarkedBy(init, r, ch, y, z, i);
      MarkGoesOn(evs, r, ch, z, i, n);
      assert MarkedBy(evs, r, ch, x, z, i);
    }
    if z, i: nat :| MarkedBy(evs, r, ch, x, z, i) {
      if i == n {
        MarkIsNew(evs, r, ch, z, n);
      } else {
        MarkGoesOn(evs, r, ch, z, i, n);
        assert MarkedBy(init, r, ch, MarkOf(init, r, ch, z, i).value, z, i);
      }
    }
  }

  lemma NoPeerAtFirst(r: string, ch: string, x: string)
    ensures !PeerSpeaking(EMPTY_HUB, r, ch, x)
  {
  }

  lemma NotMarked(h: Hub, e: Event, r: string, ch: string, x: string)
    requires !Enabled(h, e)
    ensures !Marks(h, e, r, ch, x) && forall y :: MarkAfter(h, e, r, ch, y) == Some(y)
  {
    hide Enabled;
  }

  lemma MarkIsNew(evs: seq<Event>, r: string, ch: string, y: string, n: nat)
    requires |evs| == n + 1
    ensures MarkOf(evs, r, ch, y, n) == Some(y)
  {
  }

  lemma MarkGoesOn(evs: seq<Event>, r: string, ch: string, y: string, i: nat, n: nat)
    requires |evs| == n + 1 && i < n
    ensures evs[..n][..i] == evs[..i]
    ensures MarkOf(evs, r, ch, y, i) ==
            match MarkOf(evs[..n], r, ch, y, i) { case None => None case Some(x) => MarkAfter(Run(evs[..n]), evs[n], r, ch, x) }
  {
    hide MarkAfter, Run;
  }
}
