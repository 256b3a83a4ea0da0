/**
 Clipboard fan-out to one peer: the bounded broadcast channel as one sender task
 sees it, the bytes the task puts on its socket, and what the peer's receive
 loop makes of them. Publishing, lagging, sending and ending interleave freely.
 */
module Fanout {
  import opened Wrappers
  import opened Protocol
  import opened Transport

  /** Frames the broadcast channel retains. */
  const CAPACITY := 16

  /**
   One subscription. `log` is everything ever broadcast, `start` its length when
   the task subscribed, `pos` the task's cursor, `popped` the log positions it
   took, `wire` the bytes it wrote.
   */
  datatype Tap = Tap(
    log: seq<Frame>,
    start: nat,
    pos: nat,
    popped: seq<nat>,
    lagged: nat,
    failed: bool,
    wire: seq<byte>,
    live: bool)

  function Subscribe(log: seq<Frame>): Tap {
    Tap(log, |log|, |log|, [], 0, false, [], true)
  }

  datatype TapAction =
    | Publish(frame: Frame)
    | Lag                    // the channel reports how many frames were lost
    | Send                   // a frame is taken and written completely
    | Break(written: nat)    // a frame is taken, its send fails after some bytes
    | Stop                   // told to close, or the remote ended

  predicate CanTake(t: Tap) {
    t.live && t.pos < |t.log| && |t.log| - t.pos <= CAPACITY
  }

  predicate TapEnabled(t: Tap, a: TapAction) {
    match a
    case Publish(_) => true
    case Lag => t.live && t.pos + CAPACITY < |t.log|
    case Send => CanTake(t) && Encodable(t.log[t.pos])
    case Break(written) =>
      CanTake(t) && written <= if Encodable(t.log[t.pos]) then |Encoding(t.log[t.pos])| else 0
    case Stop => t.live
  }

  function TapApply(t: Tap, a: TapAction): Tap
    requires TapEnabled(t, a)
  {
    match a
    case Publish(f) => t.(log := t.log + [f])
    case Lag =>
      var oldest := |t.log| - CAPACITY;
      t.(lagged := t.lagged + (oldest - t.pos), pos := oldest)
    case Send =>
      t.(pos := t.pos + 1, popped := t.popped + [t.pos], wire := t.wire + Encoding(t.log[t.pos]))
    case Break(written) =>
      var part := if Encodable(t.log[t.pos]) then Encoding(t.log[t.pos])[..written] else [];
      t.(pos := t.pos + 1, popped := t.popped + [t.pos], wire := t.wire + part, failed := true, live := false)
    case Stop => t.(live := false)
  }

  function TapRun(t: Tap, acts: seq<TapAction>): Option<Tap>
    decreases acts
  {
    if acts == [] then Some(t)
    else if TapEnabled(t, acts[0]) then TapRun(TapApply(t, acts[0]), acts[1..])
    else None
  }

  // ----- Order and conservation ------------------------------------------------------

  /** The cursor and the popped positions: increasing, since the subscription, behind the cursor. */
  ghost predicate Ordered(t: Tap) {
    && t.start <= t.pos <= |t.log|
    && (forall i :: 0 <= i < |t.popped| ==> t.start <= t.popped[i] < t.pos)
    && (forall i, j :: 0 <= i < j < |t.popped| ==> t.popped[i] < t.popped[j])
    && (t.failed ==> !t.live && t.popped != [])
  }

  /** Every broadcast frame is taken, reported lost, or still pending. */
  ghost predicate Conserved(t: Tap) {
    |t.popped| + t.lagged + (|t.log| - t.pos) == |t.log| - t.start
  }

  ghost function PoppedFrames(t: Tap): seq<Frame>
    requires Ordered(t)
  {
    seq(|t.popped|, i requires 0 <= i < |t.popped| => t.log[t.popped[i]])
  }

  /** The frames of which any byte can be on the wire. */
  ghost function Carried(t: Tap): seq<Frame>
    requires Ordered(t)
  {
    var fs := PoppedFrames(t);
    if t.failed && !Encodable(fs[|fs| - 1]) then fs[..|fs| - 1] else fs
  }

  /** The wire holds the popped frames one after the other; only a failed send leaves the last one short. */
  ghost predicate WireMatches(t: Tap)
    requires Ordered(t)
  {
    && AllEncodable(Carried(t))
    && t.wire <= EncodeAll(Carried(t))
    && (!t.failed ==> t.wire == EncodeAll(Carried(t)))
  }

  /** The popped frames without the one whose send failed. */
  ghost function FullySent(t: Tap): seq<Frame>
    requires Ordered(t)
  {
    PoppedFrames(t)[..|t.popped| - (if t.failed then 1 else 0)]
  }

  /** Every byte of those frames is on the wire. */
  ghost predicate SentOnWire(t: Tap)
    requires Ordered(t)
  {
    AllEncodable(FullySent(t)) && EncodeAll(FullySent(t)) <= t.wire
  }

  /** A frame behind the cursor that was not taken is older than the frames the channel retains. */
  ghost predicate LostOnlyOld(t: Tap) {
    forall p :: t.start <= p < t.pos && p !in t.popped ==> p + CAPACITY < |t.log|
  }

  ghost predicate TapInv(t: Tap) {
    Ordered(t) && Conserved(t) && WireMatches(t) && SentOnWire(t) && LostOnlyOld(t)
  }

  lemma WireExtended(fs: seq<Frame>, f: Frame, wire: seq<byte>, part: seq<byte>)
    requires AllEncodable(fs) && Encodable(f) && wire == EncodeAll(fs) && part <= Encoding(f)
    ensures AllEncodable(fs + [f]) && wire + part <= EncodeAll(fs + [f])
    ensures part == Encoding(f) ==> wire + part == EncodeAll(fs + [f])
  {
    EncodeAllConcat(fs, [f]);
    assert [f][1..] == [];
    assert EncodeAll([f]) == Encoding(f);
  }

  lemma TapTakes(t: Tap, a: TapAction)
    requires TapInv(t) && TapEnabled(t, a) && (a.Send? || a.Break?)
    ensures Ordered(TapApply(t, a)) && Conserved(TapApply(t, a))
    ensures PoppedFrames(TapApply(t, a)) == PoppedFrames(t) + [t.log[t.pos]]
  {
    TapOrders(t, a);
  }

  lemma TapOrders(t: Tap, a: TapAction)
    requires Ordered(t) && Conserved(t) && TapEnabled(t, a) && (a.Send? || a.Break?)
    ensures Ordered(TapApply(t, a)) && Conserved(TapApply(t, a))
  {
    var u := TapApply(t, a);
    assert u.popped == t.popped + [t.pos] && u.pos == t.pos + 1 && u.log == t.log && u.start == t.start;
  }

  lemma SendKeepsWire(t: Tap)
    requires TapInv(t) && TapEnabled(t, Send)
    ensures WireMatches(TapApply(t, Send)) && SentOnWire(TapApply(t, Send))
  {
    TapTakes(t, Send);
    WireExtended(Carried(t), t.log[t.pos], t.wire, Encoding(t.log[t.pos]));
    assert FullySent(TapApply(t, Send)) == Carried(TapApply(t, Send));
  }

  lemma BreakKeepsWire(t: Tap, written: nat)
    requires TapInv(t) && TapEnabled(t, Break(written))
    ensures WireMatches(TapApply(t, Break(written))) && SentOnWire(TapApply(t, Break(written)))
  {
    TapTakes(t, Break(written));
    if Encodable(t.log[t.pos]) {
      WireExtended(Carried(t), t.log[t.pos], t.wire, Encoding(t.log[t.pos])[..written]);
    } else {
      assert Carried(TapApply(t, Break(written))) == Carried(t);
    }
    assert FullySent(TapApply(t, Break(written))) == Carried(t);
  }

  lemma SamePoppedFrames(t: Tap, u: Tap)
    requires Ordered(t) && Ordered(u) && t.log <= u.log && t.popped == u.popped
    ensures PoppedFrames(t) == PoppedFrames(u)
  {
    forall i | 0 <= i < |t.popped|
      ensures t.log[t.popped[i]] == u.log[u.popped[i]]
    {
    }
  }

  lemma SameWire(t: Tap, u: Tap)
    requires Ordered(t) && Ordered(u) && t.log <= u.log && t.popped == u.popped
    requires WireMatches(t) && SentOnWire(t) && t.wire == u.wire && t.failed == u.failed
    ensures WireMatches(u) && SentOnWire(u)
  {
    SamePoppedFrames(t, u);
    assert Carried(t) == Carried(u) && FullySent(t) == FullySent(u);
  }

  lemma OthersOrdered(t: Tap, a: TapAction)
    requires Ordered(t) && Conserved(t) && TapEnabled(t, a) && !a.Send? && !a.Break?
    ensures Ordered(TapApply(t, a)) && Conserved(TapApply(t, a))
  {
  }

  lemma LossStep(t: Tap, a: TapAction)
    requires Ordered(t) && LostOnlyOld(t) && TapEnabled(t, a)
    ensures LostOnlyOld(TapApply(t, a))
  {
    var u := TapApply(t, a);
    forall p | t.start <= p < u.pos && p !in u.popped
      ensures p + CAPACITY < |u.log|
    {
      if a.Send? || a.Break? {
        assert u.popped == t.popped + [t.pos];
        assert u.popped[|t.popped|] == t.pos;
      }
      assert p !in t.popped;
    }
  }

  lemma TapStep(t: Tap, a: TapAction)
    requires TapInv(t) && TapEnabled(t, a)
    ensures TapInv(TapApply(t, a))
  {
    LossStep(t, a);
    match a {
      case Send =>
        TapTakes(t, a);
        SendKeepsWire(t);
      case Break(written) =>
        TapTakes(t, a);
        BreakKeepsWire(t, written);
      case _ =>
        OthersOrdered(t, a);
        SameWire(t, TapApply(t, a));
    }
  }

  lemma {:induction false} TapAlways(t: Tap, acts: seq<TapAction>)
    requires TapInv(t) && TapRun(t, acts).Some?
    ensures TapInv(TapRun(t, acts).value)
    ensures t.start == TapRun(t, acts).value.start && t.log <= TapRun(t, acts).value.log
    decreases acts
  {
    if acts != [] {
      TapStep(t, acts[0]);
      TapAlways(TapApply(t, acts[0]), acts[1..]);
    }
  }

  lemma SubscribedInv(log: seq<Frame>)
    ensures TapInv(Subscribe(log))
  {
  }

  /** The sends of a run that completed. */
  function Sends(acts: seq<TapAction>): nat {
    if acts == [] then 0 else (if acts[0].Send? then 1 else 0) + Sends(acts[1..])
  }

  lemma {:induction false} SendsAreFullySent(t: Tap, acts: seq<TapAction>)
    requires TapInv(t) && TapRun(t, acts).Some?
    ensures Ordered(TapRun(t, acts).value)
    ensures |FullySent(TapRun(t, acts).value)| == |FullySent(t)| + Sends(acts)
    decreases acts
  {
    if acts != [] {
      TapStep(t, acts[0]);
      SendsAreFullySent(TapApply(t, acts[0]), acts[1..]);
    }
  }

  /** The frames broadcast during a run. */
  function Published(acts: seq<TapAction>): seq<Frame> {
    if acts == [] then []
    else (if acts[0].Publish? then [acts[0].frame] else []) + Published(acts[1..])
  }

  /** The log is what has been broadcast, all of it and in order, whatever the task does. */
  lemma {:induction false} LogGrowsByBroadcast(t: Tap, acts: seq<TapAction>)
    requires TapRun(t, acts).Some?
    ensures TapRun(t, acts).value.log == t.log + Published(acts)
    decreases acts
  {
    if acts != [] {
      LogGrowsByBroadcast(TapApply(t, acts[0]), acts[1..]);
    }
  }

  /**
   Broadcast conservation: completed sends + frames reported lost + still pending
   + (one if the last send failed) is what was broadcast since the subscription;
   and the frames of the completed sends are on the wire to the last byte.
   */
  lemma BroadcastConserved(log: seq<Frame>, acts: seq<TapAction>)
    requires TapRun(Subscribe(log), acts).Some?
    ensures var t := TapRun(Subscribe(log), acts).value;
      && t.log == log + Published(acts)
      && Sends(acts) + t.lagged + (|t.log| - t.pos) + (if t.failed then 1 else 0) == |Published(acts)|
      && Ordered(t) && |FullySent(t)| == Sends(acts) && FullySent(t) <= PoppedFrames(t)
      && AllEncodable(FullySent(t)) && EncodeAll(FullySent(t)) <= t.wire
  {
    SubscribedInv(log);
    TapAlways(Subscribe(log), acts);
    SendsAreFullySent(Subscribe(log), acts);
    LogGrowsByBroadcast(Subscribe(log), acts);
  }

  /** In every run a frame is lost to a subscriber only once 16 newer ones have been broadcast. */
  lemma LostOnlyBehindRetained(log: seq<Frame>, acts: seq<TapAction>, p: nat)
    requires TapRun(Subscribe(log), acts).Some?
    ensures var t := TapRun(Subscribe(log), acts).value;
      |log| <= p < t.pos && p !in t.popped ==> |t.log| - 1 - p >= 16
  {
    SubscribedInv(log);
    TapAlways(Subscribe(log), acts);
  }

  /** Nothing follows a failed send: the wire is never written again. */
  lemma {:induction false} NothingAfterFailure(t: Tap, acts: seq<TapAction>)
    requires TapInv(t) && t.failed && TapRun(t, acts).Some?
    ensures TapRun(t, acts).value.wire == t.wire && TapRun(t, acts).value.popped == t.popped
    decreases acts
  {
    if acts != [] {
      TapStep(t, acts[0]);
      NothingAfterFailure(TapApply(t, acts[0]), acts[1..]);
    }
  }

  /** Nothing follows the end of a task either, told, failed or left by its remote. */
  lemma {:induction false} NothingAfterEnd(t: Tap, acts: seq<TapAction>)
    requires !t.live && TapRun(t, acts).Some?
    ensures var u := TapRun(t, acts).value;
      u.wire == t.wire && u.popped == t.popped && u.lagged == t.lagged && u.pos == t.pos && !u.live
    decreases acts
  {
    if acts != [] {
      NothingAfterEnd(TapApply(t, acts[0]), acts[1..]);
    }
  }

  /** After it has stopped, a task takes no frame and writes no byte, however the broadcast goes on. */
  lemma {:induction false} NothingAfterStop(t: Tap, acts: seq<TapAction>)
    requires t.live && TapRun(t, [Stop] + acts).Some?
    ensures var u := TapRun(t, [Stop] + acts).value;
      u.wire == t.wire && u.popped == t.popped && u.lagged == t.lagged && u.pos == t.pos
  {
    assert ([Stop] + acts)[1..] == acts;
    NothingAfterEnd(TapApply(t, Stop), acts);
  }

  /**
   What a live task can do next: with nothing pending only end; with up to 16 frames
   pending take the oldest, and write all of it or fail at any byte; with more first
   learn how many it lost, all but the last 16.
   */
  lemma NextOfTap(t: Tap)
    requires Ordered(t) && t.live
    ensures var pending := |t.log| - t.pos;
      && TapEnabled(t, Stop)
      && (TapEnabled(t, Lag) <==> pending > 16)
      && (pending > 16 ==>
            TapApply(t, Lag).pos == |t.log| - 16 && TapApply(t, Lag).lagged == t.lagged + pending - 16)
      && (0 < pending <= 16 ==>
            && (TapEnabled(t, Send) <==> |t.log[t.pos].payload| < 0x1_0000_0000)
            && (TapEnabled(t, Send) ==>
                  && (forall k: nat :: TapEnabled(t, Break(k)) <==> k <= |Encoding(t.log[t.pos])|)
                  && TapApply(t, Send).popped == t.popped + [t.pos] && TapApply(t, Send).pos == t.pos + 1
                  && TapApply(t, Send).live)
            && TapEnabled(t, Break(0)) && !TapApply(t, Break(0)).live)
      && (pending == 0 || pending > 16 ==> !TapEnabled(t, Send) && forall k: nat :: !TapEnabled(t, Break(k)))
  {
  }

  // ----- End to end ---------------------------------------------------------------------

  lemma PrefixNotLonger(fs: seq<Frame>, k: nat)
    requires AllEncodable(fs) && k <= |fs|
    ensures |EncodeAll(fs[..k])| <= |EncodeAll(fs)|
  {
    assert fs == fs[..k] + fs[k..];
    EncodeAllConcat(fs[..k], fs[k..]);
  }

  lemma WholeAtLeast(fs: seq<Frame>, n: nat, cut: nat)
    requires AllEncodable(fs) && n <= |fs| && |EncodeAll(fs[..n])| <= cut
    ensures Whole(fs, cut) >= n
  {
    WholeFits(fs, cut);
    var k := Whole(fs, cut);
    if k < n {
      assert fs[..n][..k + 1] == fs[..k + 1];
      PrefixNotLonger(fs[..n], k + 1);
    }
  }

  lemma Arrivals(t: Tap, arrived: nat, end: End)
    requires TapInv(t) && arrived <= |t.wire|
    ensures ReceiveAll(t.wire[..arrived], end).0 <= PoppedFrames(t)
    ensures arrived == |t.wire| ==> |ReceiveAll(t.wire[..arrived], end).0| >= |FullySent(t)|
  {
    var fs := Carried(t);
    assert fs <= PoppedFrames(t);
    assert t.wire[..arrived] == EncodeAll(fs)[..arrived];
    CutStream(fs, arrived, end);
    if arrived == |t.wire| {
      var n := |FullySent(t)|;
      assert fs[..n] == FullySent(t);
      WholeAtLeast(fs, n, arrived);
    }
  }

  /**
   The log positions popped are strictly increasing and lie after the
   subscription; whatever part of the wire arrives, in whatever pieces and with
   whatever end, the receive loop hands on a prefix of exactly those frames. When
   everything written arrives, that prefix has at least every completed send, and
   from a task that never failed it has all.
   */
  lemma {:induction false} EndToEnd(log: seq<Frame>, acts: seq<TapAction>, arrived: nat, end: End)
    requires TapRun(Subscribe(log), acts).Some? && arrived <= |TapRun(Subscribe(log), acts).value.wire|
    ensures var t := TapRun(Subscribe(log), acts).value;
      && (forall i :: 0 <= i < |t.popped| ==> |log| <= t.popped[i] < |t.log|)
      && (forall i, j :: 0 <= i < j < |t.popped| ==> t.popped[i] < t.popped[j])
      && var got := ReceiveAll(t.wire[..arrived], end).0;
         && |got| <= |t.popped|
         && (forall i :: 0 <= i < |got| ==> got[i] == t.log[t.popped[i]])
         && (arrived == |t.wire| ==> |got| >= Sends(acts))
         && (!t.failed && arrived == |t.wire| ==> |got| == |t.popped|)
  {
    SubscribedInv(log);
    TapAlways(Subscribe(log), acts);
    SendsAreFullySent(Subscribe(log), acts);
    Arrivals(TapRun(Subscribe(log), acts).value, arrived, end);
  }

  lemma {:induction false} NoGaps(t: Tap, i: nat)
    requires Ordered(t) && |t.popped| == t.pos - t.start && i < |t.popped|
    ensures t.popped[i] == t.start + i
  {
    AtLeast(t, i);
    AtMost(t, i);
  }

  lemma {:induction false} AtLeast(t: Tap, i: nat)
    requires Ordered(t) && i < |t.popped|
    ensures t.popped[i] >= t.start + i
  {
    if i > 0 {
      AtLeast(t, i - 1);
    }
  }

  lemma {:induction false} AtMost(t: Tap, i: nat)
    requires Ordered(t) && i < |t.popped|
    ensures t.popped[i] + (|t.popped| - i) <= t.pos
    decreases |t.popped| - i
  {
    if i + 1 < |t.popped| {
      AtMost(t, i + 1);
    }
  }

  lemma {:induction false} NothingSkipped(t: Tap)
    requires TapInv(t) && t.lagged == 0 && t.pos == |t.log|
    ensures PoppedFrames(t) == t.log[t.start..]
  {
    forall i | 0 <= i < |t.popped|
      ensures t.popped[i] == t.start + i
    {
      NoGaps(t, i);
    }
  }

  /** A task that never lagged, never failed and caught up gives its peer everything broadcast since it subscribed. */
  lemma {:induction false} CaughtUpDeliversAll(log: seq<Frame>, acts: seq<TapAction>, end: End)
    requires TapRun(Subscribe(log), acts).Some?
    requires var t := TapRun(Subscribe(log), acts).value; t.lagged == 0 && !t.failed && t.pos == |t.log|
    ensures var t := TapRun(Subscribe(log), acts).value;
      ReceiveAll(t.wire, end).0 == Published(acts)
  {
    var t := TapRun(Subscribe(log), acts).value;
    SubscribedInv(log);
    TapAlways(Subscribe(log), acts);
    assert t.wire[..|t.wire|] == t.wire;
    Arrivals(t, |t.wire|, end);
    NothingSkipped(t);
    LogGrowsByBroadcast(Subscribe(log), acts);
  }

  /** The same, through the receiver's own loop: from any delivery of what was written. */
  method Deliver(
    log: seq<Frame>, ghost acts: seq<TapAction>, ghost arrived: nat, chunks: seq<seq<byte>>, end: End)
    returns (written: seq<Frame>)
    requires TapRun(Subscribe(log), acts).Some? && arrived <= |TapRun(Subscribe(log), acts).value.wire|
    requires Flatten(chunks) == TapRun(Subscribe(log), acts).value.wire[..arrived]
    ensures var t := TapRun(Subscribe(log), acts).value;
      && |written| <= |t.popped|
      && (forall i :: 0 <= i < |t.popped| ==> |log| <= t.popped[i] < |t.log|)
      && (forall i, j :: 0 <= i < j < |t.popped| ==> t.popped[i] < t.popped[j])
      && (forall i :: 0 <= i < |written| ==> written[i] == t.log[t.popped[i]])
      && (arrived == |t.wire| ==> |written| >= Sends(acts))
  {
    EndToEnd(log, acts, arrived, end);
    var reader := new Reader(chunks, end);
    var frames, _ := ReceiveLoop(reader);
    written := frames;
  }
}
