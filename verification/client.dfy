/** The reconnecting client: what happens to queued frames, and how long it waits between connections. */
module Client {
  import opened Protocol

  /**
   One turn of the outer loop as the network decides it: whether the connect
   succeeds, how many sends go through before one fails, and the random jitter.
   */
  datatype Round = Round(connects: bool, sendsBeforeBreak: nat, jitter: real)

  datatype Sleep = Sleep(base: real, delay: real)

  function Min(a: real, b: real): real {
    if a <= b then a else b
  }

  function Pow2(k: nat): real {
    if k == 0 then 1.0 else 2.0 * Pow2(k - 1)
  }

  /** The delay after k doublings, before jitter. */
  function Base(k: nat): real {
    Min(Pow2(k), 30.0)
  }

  lemma {:induction false} Pow2AtLeastOne(k: nat)
    ensures Pow2(k) >= 1.0
  {
    if k > 0 {
      Pow2AtLeastOne(k - 1);
    }
  }

  /** Doubling with a cap at each turn is the same as capping the power once. */
  lemma BaseDoubles(k: nat)
    ensures Base(0) == 1.0
    ensures Base(k + 1) == Min(Base(k) * 2.0, 30.0)
    ensures 1.0 <= Base(k) <= 30.0
  {
    Pow2AtLeastOne(k);
  }

  /** Turns since the last one that connected; counted from the start when none has. */
  function Streak(rounds: seq<Round>, j: nat): nat
    requires j < |rounds|
  {
    if rounds[j].connects || j == 0 then 0 else Streak(rounds, j - 1) + 1
  }

  /** The delay as the loop computes it: reset by a connection, else doubled and capped. */
  function Backoff(rounds: seq<Round>, j: nat): real
    requires j < |rounds|
    decreases j, 1
  {
    if rounds[j].connects then 1.0 else Pending(rounds, j)
  }

  /** The delay set by the turns before turn j. */
  function Pending(rounds: seq<Round>, j: nat): real
    requires j <= |rounds|
    decreases j, 0
  {
    if j == 0 then 1.0 else Min(Backoff(rounds, j - 1) * 2.0, 30.0)
  }

  lemma {:induction false} BackoffIsBase(rounds: seq<Round>, j: nat)
    requires j < |rounds|
    ensures Backoff(rounds, j) == Base(Streak(rounds, j))
  {
    BaseDoubles(0);
    if !rounds[j].connects && j > 0 {
      BackoffIsBase(rounds, j - 1);
      BaseDoubles(Streak(rounds, j - 1));
    }
  }

  lemma {:induction false} BackoffPositive(rounds: seq<Round>, j: nat)
    requires j < |rounds|
    ensures Backoff(rounds, j) > 0.0
  {
    if j > 0 {
      BackoffPositive(rounds, j - 1);
    }
  }

  function Connects(rounds: seq<Round>): nat {
    if rounds == [] then 0
    else Connects(rounds[..|rounds| - 1]) + (if rounds[|rounds| - 1].connects then 1 else 0)
  }

  lemma ConnectsNext(rounds: seq<Round>, k: nat)
    requires k < |rounds|
    ensures Connects(rounds[..k + 1]) == Connects(rounds[..k]) + (if rounds[k].connects then 1 else 0)
  {
    assert rounds[..k + 1][..k] == rounds[..k];
  }

  // ----- What becomes of the frames -----------------------------------------------------

  /** One turn as it went: nothing, or frames sent until a send failed, or until the queue was closed and empty. */
  datatype Turn =
    | Refused
    | Broke(sent: seq<Frame>, lost: Frame)
    | Drained(sent: seq<Frame>)

  /** The frames a turn takes from the queue, in the order it takes them. */
  function Takes(t: Turn): seq<Frame> {
    match t
    case Refused => []
    case Broke(sent, lost) => sent + [lost]
    case Drained(sent) => sent
  }

  function Sends(t: Turn): seq<Frame> {
    if t.Refused? then [] else t.sent
  }

  function Loses(t: Turn): seq<Frame> {
    if t.Broke? then [t.lost] else []
  }

  function Gather<T>(turns: seq<Turn>, part: Turn -> seq<T>): seq<T> {
    if turns == [] then [] else Gather(turns[..|turns| - 1], part) + part(turns[|turns| - 1])
  }

  lemma GatherNext<T>(turns: seq<Turn>, t: Turn, part: Turn -> seq<T>)
    ensures Gather(turns + [t], part) == Gather(turns, part) + part(t)
  {
    assert (turns + [t])[..|turns|] == turns;
  }

  predicate AllEncodable(fs: seq<Frame>) {
    forall i :: 0 <= i < |fs| ==> Encodable(fs[i])
  }

  /**
   A turn that fits its round: a refused connect takes nothing; a connection sends
   at most as many frames as go through, all of them encodable, and breaks exactly
   at the frame after those or at one that cannot be encoded.
   */
  ghost predicate Fits(r: Round, t: Turn) {
    match t
    case Refused => !r.connects
    case Broke(sent, lost) =>
      && r.connects && AllEncodable(sent) && |sent| <= r.sendsBeforeBreak
      && (|sent| == r.sendsBeforeBreak || !Encodable(lost))
    case Drained(sent) => r.connects && AllEncodable(sent) && |sent| <= r.sendsBeforeBreak
  }

  ghost predicate AllFit(rounds: seq<Round>, turns: seq<Turn>) {
    |turns| <= |rounds| && forall j :: 0 <= j < |turns| ==> Fits(rounds[j], turns[j])
  }

  /** Only the last turn can have found the end of the queue. */
  ghost predicate DrainsLast(turns: seq<Turn>) {
    forall j :: 0 <= j < |turns| - 1 ==> !turns[j].Drained?
  }

  /** Frames are conserved: every one taken was sent or lost, one is lost for each broken connection. */
  lemma {:induction false} FramesConserved(rounds: seq<Round>, turns: seq<Turn>)
    requires AllFit(rounds, turns) && DrainsLast(turns)
    ensures |Gather(turns, Takes)| == |Gather(turns, Sends)| + |Gather(turns, Loses)|
    ensures |Gather(turns, Loses)|
      == Connects(rounds[..|turns|]) - (if turns != [] && turns[|turns| - 1].Drained? then 1 else 0)
    decreases |turns|
  {
    if turns != [] {
      var n := |turns| - 1;
      FramesConserved(rounds, turns[..n]);
      ConnectsNext(rounds, n);
      assert Fits(rounds[n], turns[n]);
    }
  }

  /** What one turn of a queue is: two turns that fit the same round and take from the same queue are equal. */
  lemma TurnDetermined(r: Round, t: Turn, u: Turn, queue: seq<Frame>)
    requires Fits(r, t) && Fits(r, u) && Takes(t) <= queue && Takes(u) <= queue
    requires t.Drained? ==> Takes(t) == queue
    requires u.Drained? ==> Takes(u) == queue
    ensures t == u
  {
    if !t.Refused? {
      assert forall i :: 0 <= i < |Takes(t)| ==> Takes(t)[i] == queue[i];
      assert forall i :: 0 <= i < |Takes(u)| ==> Takes(u)[i] == queue[i];
      assert t.Broke? ==> Takes(t)[|t.sent|] == t.lost;
      assert u.Broke? ==> Takes(u)[|u.sent|] == u.lost;
      assert forall i :: 0 <= i < |t.sent| ==> Takes(t)[i] == t.sent[i];
      assert forall i :: 0 <= i < |u.sent| ==> Takes(u)[i] == u.sent[i];
      assert |t.sent| == |u.sent|;
      assert t.sent == u.sent;
    }
  }

  /** A sleep of its base and up to a quarter of it as jitter. */
  ghost predicate Slept(sleep: Sleep, base: real, jitter: real) {
    sleep == Sleep(base, base + jitter * base * 0.25) && base <= sleep.delay < base * 1.25
  }

  ghost predicate AllSlept(rounds: seq<Round>, sleeps: seq<Sleep>) {
    |sleeps| <= |rounds| && forall j :: 0 <= j < |sleeps| ==> Slept(sleeps[j], Backoff(rounds, j), rounds[j].jitter)
  }

  /** One sleep, a quarter of jitter on top of the base, and the doubled base after it. */
  method Wait(backoff: real, jitter: real) returns (sleep: Sleep, next: real)
    requires backoff > 0.0 && 0.0 <= jitter < 1.0
    ensures Slept(sleep, backoff, jitter)
    ensures next == Min(backoff * 2.0, 30.0)
  {
    sleep := Sleep(backoff, backoff + jitter * backoff * 0.25);
    assert (1.0 - jitter) * backoff > 0.0;
    next := Min(backoff * 2.0, 30.0);
  }

  /**
   One established connection: frames go out until a send fails or the queue is
   closed and empty. It breaks exactly when a frame is left after those that went
   through, or one cannot be encoded.
   */
  method Session(queue: seq<Frame>, from: nat, sendsBeforeBreak: nat) returns (taken: nat, turn: Turn)
    requires from <= |queue|
    ensures from <= taken <= |queue| && queue[from..taken] == Takes(turn)
    ensures forall jitter :: Fits(Round(true, sendsBeforeBreak, jitter), turn)
    ensures turn.Drained? ==> taken == |queue|
    ensures turn.Broke? <==> exists k :: from <= k < |queue| && (k - from == sendsBeforeBreak || !Encodable(queue[k]))
  {
    taken := from;
    var sent := [];
    while taken < |queue|
      invariant from <= taken <= |queue|
      invariant sent == queue[from..taken] && AllEncodable(sent) && |sent| <= sendsBeforeBreak
    {
      var frame := queue[taken];
      taken := taken + 1;
      assert queue[from..taken] == sent + [frame];
      if !Encodable(frame) || |sent| == sendsBeforeBreak {
        assert queue[taken - 1] == frame;
        return taken, Broke(sent, frame);
      }
      sent := sent + [frame];
      assert AllEncodable(sent);
    }
    assert forall k :: from <= k < |queue| ==> queue[k] == sent[k - from];
    return taken, Drained(sent);
  }

  /** The turns so far take the queue from its start without gaps, and none found its end. */
  ghost predicate Underway(rounds: seq<Round>, queue: seq<Frame>, taken: nat, turns: seq<Turn>) {
    && taken <= |queue| && queue[..taken] == Gather(turns, Takes)
    && AllFit(rounds, turns) && forall j :: 0 <= j < |turns| ==> !turns[j].Drained?
  }

  /** One turn of the loop, whatever the network does in it. */
  method TakeTurn(rounds: seq<Round>, queue: seq<Frame>, from: nat, turns: seq<Turn>)
    returns (taken: nat, turn: Turn)
    requires Underway(rounds, queue, from, turns) && |turns| < |rounds|
    ensures turn.Refused? <==> !rounds[|turns|].connects
    ensures AllFit(rounds, turns + [turn]) && DrainsLast(turns + [turn])
    ensures taken <= |queue| && queue[..taken] == Gather(turns + [turn], Takes)
    ensures if turn.Drained? then taken == |queue| else Underway(rounds, queue, taken, turns + [turn])
  {
    var round := rounds[|turns|];
    taken, turn := from, Refused;
    if round.connects {
      taken, turn := Session(queue, from, round.sendsBeforeBreak);
    }
    assert Fits(round, turn) && queue[..taken] == queue[..from] + Takes(turn);
    GatherNext(turns, turn, Takes);
  }

  /**
   The client over any finite stretch of network behaviour. Its turns, one for each
   round, take the queue from its start without gaps, each as its round allows; only
   the last can end with the queue. Before its j-th sleep the client has doubled its
   delay once for every turn since the last connection.
   */
  method RunClient(rounds: seq<Round>, queue: seq<Frame>)
    returns (taken: nat, turns: seq<Turn>, sleeps: seq<Sleep>, finished: bool)
    requires forall i :: 0 <= i < |rounds| ==> 0.0 <= rounds[i].jitter < 1.0
    ensures taken <= |queue| && queue[..taken] == Gather(turns, Takes)
    ensures AllFit(rounds, turns) && DrainsLast(turns)
    ensures |Gather(turns, Sends)| + |Gather(turns, Loses)| == taken
    ensures |Gather(turns, Loses)| == Connects(rounds[..|turns|]) - (if finished then 1 else 0)
    ensures finished <==> turns != [] && turns[|turns| - 1].Drained?
    ensures if finished then taken == |queue| else |turns| == |rounds|
    ensures |sleeps| == |turns| - (if finished then 1 else 0) && AllSlept(rounds, sleeps)
  {
    var backoff := 1.0;
    taken, turns, sleeps, finished := 0, [], [], false;
    while |turns| < |rounds|
      invariant |turns| == |sleeps| <= |rounds|
      invariant Underway(rounds, queue, taken, turns)
      invariant backoff == Pending(rounds, |turns|) && AllSlept(rounds, sleeps)
    {
      var turn;
      taken, turn := TakeTurn(rounds, queue, taken, turns);
      turns := turns + [turn];
      if turn.Drained? {
        finished := true;
        FramesConserved(rounds, turns);
        return;
      }
      if !turn.Refused? {
        backoff := 1.0;
      }
      BackoffPositive(rounds, |turns| - 1);
      var sleep;
      sleep, backoff := Wait(backoff, rounds[|turns| - 1].jitter);
      sleeps := sleeps + [sleep];
    }
    FramesConserved(rounds, turns);
  }

  /** From the start, k refused connects in a row have doubled the delay k times. */
  lemma {:induction false} RefusedFromStart(rounds: seq<Round>, k: nat)
    requires k < |rounds| && forall i :: 0 <= i <= k ==> !rounds[i].connects
    ensures Streak(rounds, k) == k && Backoff(rounds, k) == Min(Pow2(k), 30.0)
  {
    if k > 0 {
      RefusedFromStart(rounds, k - 1);
    }
    BackoffIsBase(rounds, k);
  }

  /** After a connection, the wait that follows its end counts as the first doubling. */
  lemma {:induction false} RefusedAfterConnection(rounds: seq<Round>, c: nat, k: nat)
    requires c + k < |rounds| && rounds[c].connects
    requires forall i :: c < i <= c + k ==> !rounds[i].connects
    ensures Streak(rounds, c + k) == k && Backoff(rounds, c + k) == Min(Pow2(k), 30.0)
    decreases k
  {
    if k > 0 {
      RefusedAfterConnection(rounds, c, k - 1);
    }
    BackoffIsBase(rounds, c + k);
  }

  /** The waits after refused connects, in seconds and before jitter. */
  lemma {:induction false} FirstWaits(rounds: seq<Round>)
    requires |rounds| == 7 && forall i :: 0 <= i < 7 ==> !rounds[i].connects
    ensures Backoff(rounds, 0) == 1.0 && Backoff(rounds, 1) == 2.0 && Backoff(rounds, 2) == 4.0
    ensures Backoff(rounds, 3) == 8.0 && Backoff(rounds, 4) == 16.0
    ensures Backoff(rounds, 5) == 30.0 && Backoff(rounds, 6) == 30.0
  {
    for k := 0 to 6
      invariant Backoff(rounds, k) == if k == 0 then 1.0 else Min(Backoff(rounds, k - 1) * 2.0, 30.0)
    {
    }
  }

  /** Half the jitter adds an eighth of the base. */
  lemma HalfJitter(sleep: Sleep)
    requires Slept(sleep, 8.0, 0.5)
    ensures sleep.delay == 9.0
  {
  }
}
