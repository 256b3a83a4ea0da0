/**
 The two clipboard watch loops. Both remember the hash of the last image and send
 when it changes; both are shown to send what is left when runs of images with
 equal hashes are collapsed and the image present at startup is taken away.
 The hash and the PNG encoder are parameters.
 */
module Clipboard {
  import opened Wrappers
  import opened Protocol

  type Bytes = seq<byte>

  // ----- The reference: collapsing runs ---------------------------------------------

  /** Keeps an item iff its key differs from the key of the item just before it. */
  function Collapse<T, H(==)>(xs: seq<T>, key: T -> H): (r: seq<T>)
    ensures xs != [] ==> r != [] && r[0] == xs[0] && key(r[|r| - 1]) == key(xs[|xs| - 1])
  {
    if |xs| <= 1 then xs
    else
      var n := |xs| - 1;
      Collapse(xs[..n], key) + (if key(xs[n]) != key(xs[n - 1]) then [xs[n]] else [])
  }

  lemma CollapseNext<T, H>(xs: seq<T>, x: T, key: T -> H)
    ensures Collapse(xs + [x], key)
         == Collapse(xs, key) + (if xs == [] || key(x) != key(xs[|xs| - 1]) then [x] else [])
  {
    assert (xs + [x])[..|xs|] == xs;
  }

  /** No two neighbours of a collapsed sequence share a key. */
  lemma {:induction false} CollapsedNeighboursDiffer<T, H>(xs: seq<T>, key: T -> H, i: nat)
    requires i + 1 < |Collapse(xs, key)|
    ensures key(Collapse(xs, key)[i]) != key(Collapse(xs, key)[i + 1])
    decreases xs
  {
    var n := |xs| - 1;
    var init := Collapse(xs[..n], key);
    if i + 1 < |init| {
      CollapsedNeighboursDiffer(xs[..n], key, i);
    } else {
      assert key(init[|init| - 1]) == key(xs[..n][n - 1]);
    }
  }

  lemma {:induction false} CollapsePrefix<T, H>(xs: seq<T>, more: seq<T>, key: T -> H)
    ensures Collapse(xs, key) <= Collapse(xs + more, key)
    decreases |more|
  {
    if more == [] {
      assert xs + more == xs;
    } else {
      var n := |more| - 1;
      CollapsePrefix(xs, more[..n], key);
      assert xs + more == (xs + more[..n]) + [more[n]];
      CollapseNext(xs + more[..n], more[n], key);
    }
  }

  function Sighted<T>(startup: Option<T>): seq<T> {
    match startup
    case None => []
    case Some(x) => [x]
  }

  /** What should be sent: the collapsed images, without the one seen at startup. */
  function Fresh<T, H(==)>(startup: Option<T>, images: seq<T>, key: T -> H): seq<T> {
    Collapse(Sighted(startup) + images, key)[|Sighted(startup)|..]
  }

  lemma FreshOfNone<T, H>(startup: Option<T>, key: T -> H)
    ensures Fresh(startup, [], key) == []
  {
    assert Sighted(startup) + [] == Sighted(startup);
  }

  function LastKey<T, H>(xs: seq<T>, key: T -> H): Option<H> {
    if xs == [] then None else Some(key(xs[|xs| - 1]))
  }

  lemma CollapseTail<T, H>(seen: seq<T>, n: nat, x: T, key: T -> H)
    requires n <= |seen| && (n > 0 ==> |Collapse(seen, key)| >= n)
    ensures |Collapse(seen, key)| >= n && |Collapse(seen + [x], key)| >= n
    ensures Collapse(seen + [x], key)[n..]
         == Collapse(seen, key)[n..] + (if LastKey(seen, key) == Some(key(x)) then [] else [x])
  {
    CollapseNext(seen, x, key);
  }

  lemma {:induction false} FreshNext<T, H>(startup: Option<T>, images: seq<T>, x: T, key: T -> H)
    ensures Fresh(startup, images + [x], key)
         == if LastKey(Sighted(startup) + images, key) == Some(key(x)) then Fresh(startup, images, key)
            else Fresh(startup, images, key) + [x]
    ensures LastKey(Sighted(startup) + (images + [x]), key) == Some(key(x))
  {
    var seen := Sighted(startup) + images;
    assert Sighted(startup) + (images + [x]) == seen + [x];
    CollapseTail(seen, |Sighted(startup)|, x, key);
  }

  lemma {:induction false} FreshPrefix<T, H>(startup: Option<T>, images: seq<T>, more: seq<T>, key: T -> H)
    ensures Fresh(startup, images, key) <= Fresh(startup, images + more, key)
  {
    var seen := Sighted(startup) + images;
    CollapsePrefix(seen, more, key);
    assert Sighted(startup) + (images + more) == seen + more;
  }

  /** Nothing new comes of an image whose key is that of the one just before it, startup included. */
  lemma {:induction false} FreshAllAlike<T, H>(startup: Option<T>, images: seq<T>, key: T -> H)
    requires startup.Some? && forall i :: 0 <= i < |images| ==> key(images[i]) == key(startup.value)
    ensures Fresh(startup, images, key) == []
    decreases |images|
  {
    var seen := Sighted(startup) + images;
    if images == [] {
      assert seen == [startup.value];
    } else {
      var n := |images| - 1;
      FreshAllAlike(startup, images[..n], key);
      FreshNext(startup, images[..n], images[n], key);
      assert images[..n] + [images[n]] == images;
    }
  }

  /** The first new image is not the one seen at startup, and without one it is the first image. */
  lemma {:induction false} FirstFresh<T, H>(startup: Option<T>, images: seq<T>, key: T -> H)
    ensures startup.Some? && Fresh(startup, images, key) != [] ==>
      key(Fresh(startup, images, key)[0]) != key(startup.value)
    ensures startup.None? && images != [] ==>
      Fresh(startup, images, key) != [] && Fresh(startup, images, key)[0] == images[0]
  {
    var seen := Sighted(startup) + images;
    if startup.Some? && |Collapse(seen, key)| > 1 {
      CollapsedNeighboursDiffer(seen, key, 0);
    }
    if startup.None? {
      assert seen == images;
    }
  }

  // ----- Items that count ------------------------------------------------------------

  /** What the polls that count yield, in order. */
  function Picked<A, T>(xs: seq<A>, pick: A -> Option<T>): seq<T> {
    if xs == [] then []
    else
      var n := |xs| - 1;
      Picked(xs[..n], pick) + (if pick(xs[n]).Some? then [pick(xs[n]).value] else [])
  }

  lemma PickedNext<A, T>(xs: seq<A>, i: nat, pick: A -> Option<T>)
    requires i < |xs|
    ensures Picked(xs[..i + 1], pick)
         == if pick(xs[i]).Some? then Picked(xs[..i], pick) + [pick(xs[i]).value] else Picked(xs[..i], pick)
  {
    assert xs[..i + 1][..i] == xs[..i];
  }

  lemma {:induction false} PickedConcat<A, T>(xs: seq<A>, more: seq<A>, pick: A -> Option<T>)
    ensures Picked(xs + more, pick) == Picked(xs, pick) + Picked(more, pick)
    decreases |more|
  {
    if more == [] {
      assert xs + more == xs;
    } else {
      var n := |more| - 1;
      assert (xs + more)[..|xs| + n] == xs + more[..n];
      PickedConcat(xs, more[..n], pick);
    }
  }

  lemma {:induction false} PickedNone<A, T>(xs: seq<A>, pick: A -> Option<T>)
    requires forall k :: 0 <= k < |xs| ==> pick(xs[k]).None?
    ensures Picked(xs, pick) == []
    decreases |xs|
  {
    if xs != [] {
      PickedNone(xs[..|xs| - 1], pick);
    }
  }

  lemma {:induction false} PickedFirst<A, T>(xs: seq<A>, i: nat, pick: A -> Option<T>)
    requires i < |xs| && pick(xs[i]).Some? && forall k :: 0 <= k < i ==> pick(xs[k]).None?
    ensures Picked(xs, pick) != [] && Picked(xs, pick)[0] == pick(xs[i]).value
    decreases |xs|
  {
    var n := |xs| - 1;
    if i < n {
      PickedFirst(xs[..n], i, pick);
    } else {
      PickedNone(xs[..n], pick);
    }
  }

  lemma {:induction false} PickedLast<A, T>(xs: seq<A>, j: nat, pick: A -> Option<T>)
    requires j < |xs| && pick(xs[j]).Some? && forall k :: j < k < |xs| ==> pick(xs[k]).None?
    ensures Picked(xs, pick) != [] && Picked(xs, pick)[|Picked(xs, pick)| - 1] == pick(xs[j]).value
    decreases |xs|
  {
    var n := |xs| - 1;
    if j < n {
      PickedLast(xs[..n], j, pick);
    }
  }

  lemma {:induction false} PickedAlike<A, T, H>(xs: seq<A>, pick: A -> Option<T>, key: T -> H, h: H)
    requires forall i :: 0 <= i < |xs| && pick(xs[i]).Some? ==> key(pick(xs[i]).value) == h
    ensures forall i :: 0 <= i < |Picked(xs, pick)| ==> key(Picked(xs, pick)[i]) == h
    decreases |xs|
  {
    if xs != [] {
      PickedAlike(xs[..|xs| - 1], pick, key, h);
    }
  }

  lemma {:induction false} LastPicked<A, T>(xs: seq<A>, pick: A -> Option<T>) returns (j: int)
    ensures -1 <= j < |xs| && forall k :: j < k < |xs| ==> pick(xs[k]).None?
    ensures j >= 0 ==> pick(xs[j]).Some?
    decreases |xs|
  {
    if xs == [] {
      j := -1;
    } else if pick(xs[|xs| - 1]).Some? {
      j := |xs| - 1;
    } else {
      j := LastPicked(xs[..|xs| - 1], pick);
    }
  }

  lemma {:induction false} FreshGrows<A, T, H>(first: Option<T>, xs: seq<A>, i: nat, pick: A -> Option<T>, key: T -> H)
    requires i <= |xs|
    ensures Fresh(first, Picked(xs[..i], pick), key) <= Fresh(first, Picked(xs, pick), key)
  {
    PickedConcat(xs[..i], xs[i..], pick);
    assert xs[..i] + xs[i..] == xs;
    FreshPrefix(first, Picked(xs[..i], pick), Picked(xs[i..], pick), key);
  }

  /** At the first send the channel refuses, what was sent is the start of what should be sent, and not all. */
  lemma StoppedEarly<A, T, H>(first: Option<T>, xs: seq<A>, i: nat, pick: A -> Option<T>, key: T -> H)
    requires i < |xs|
    requires |Fresh(first, Picked(xs[..i], pick), key)| < |Fresh(first, Picked(xs[..i + 1], pick), key)|
    ensures Fresh(first, Picked(xs[..i], pick), key) < Fresh(first, Picked(xs, pick), key)
  {
    FreshGrows(first, xs, i, pick, key);
    FreshGrows(first, xs, i + 1, pick, key);
  }

  /** What one item adds, and the key it leaves behind. */
  lemma {:induction false} ItemNext<A, T, H>(first: Option<T>, xs: seq<A>, i: nat, pick: A -> Option<T>, key: T -> H)
    requires i < |xs|
    ensures pick(xs[i]).None? ==> Picked(xs[..i + 1], pick) == Picked(xs[..i], pick)
    ensures pick(xs[i]).Some? ==> var seen := Sighted(first) + Picked(xs[..i], pick); var item := pick(xs[i]).value;
      && Fresh(first, Picked(xs[..i + 1], pick), key) ==
           Fresh(first, Picked(xs[..i], pick), key) + (if LastKey(seen, key) == Some(key(item)) then [] else [item])
      && LastKey(Sighted(first) + Picked(xs[..i + 1], pick), key) == Some(key(item))
  {
    PickedNext(xs, i, pick);
    if pick(xs[i]).Some? {
      FreshNext(first, Picked(xs[..i], pick), pick(xs[i]).value, key);
    }
  }

  /** The nearest item that counts before item i, the startup item if there is none, has the key of item i. */
  ghost predicate Repeats<A, T, H>(first: Option<T>, xs: seq<A>, i: nat, pick: A -> Option<T>, key: T -> H)
    requires i < |xs| && pick(xs[i]).Some?
  {
    var mine := key(pick(xs[i]).value);
    || (exists j :: 0 <= j < i && pick(xs[j]).Some? && key(pick(xs[j]).value) == mine
          && forall k :: j < k < i ==> pick(xs[k]).None?)
    || (first.Some? && key(first.value) == mine && forall k :: 0 <= k < i ==> pick(xs[k]).None?)
  }

  lemma {:induction false} LastKeyRepeats<A, T, H>(
    first: Option<T>, xs: seq<A>, i: nat, pick: A -> Option<T>, key: T -> H)
    requires i < |xs| && pick(xs[i]).Some?
    ensures LastKey(Sighted(first) + Picked(xs[..i], pick), key) == Some(key(pick(xs[i]).value))
      <==> Repeats(first, xs, i, pick, key)
  {
    var last := LastPicked(xs[..i], pick);
    if last < 0 {
      PickedNone(xs[..i], pick);
      assert Sighted(first) + [] == Sighted(first);
      assert Repeats(first, xs, i, pick, key) <==> first.Some? && key(first.value) == key(pick(xs[i]).value);
    } else {
      PickedLast(xs[..i], last, pick);
      LastOfTwo(Sighted(first), Picked(xs[..i], pick), key);
      RepeatsLast(first, xs, i, last, pick, key);
    }
  }

  lemma LastOfTwo<T, H>(a: seq<T>, b: seq<T>, key: T -> H)
    requires b != []
    ensures LastKey(a + b, key) == LastKey(b, key)
  {
  }

  lemma {:induction false} RepeatsLast<A, T, H>(
    first: Option<T>, xs: seq<A>, i: nat, last: nat, pick: A -> Option<T>, key: T -> H)
    requires last < i < |xs| && pick(xs[i]).Some? && pick(xs[last]).Some?
    requires forall k :: last < k < i ==> pick(xs[k]).None?
    ensures Repeats(first, xs, i, pick, key) <==> key(pick(xs[last]).value) == key(pick(xs[i]).value)
  {
  }

  /** What item i adds to what should be sent: itself if it counts and does not repeat, else nothing. */
  lemma {:induction false} ItemAdds<A, T, H>(first: Option<T>, xs: seq<A>, i: nat, pick: A -> Option<T>, key: T -> H)
    requires i < |xs|
    ensures Fresh(first, Picked(xs[..i + 1], pick), key) ==
      Fresh(first, Picked(xs[..i], pick), key)
      + (if pick(xs[i]).Some? && !Repeats(first, xs, i, pick, key) then [pick(xs[i]).value] else [])
  {
    PickedNext(xs, i, pick);
    if pick(xs[i]).Some? {
      FreshNext(first, Picked(xs[..i], pick), pick(xs[i]).value, key);
      LastKeyRepeats(first, xs, i, pick, key);
    }
  }

  /** What should be sent first: nothing with the startup key, nothing at all while only that key is seen. */
  lemma {:induction false} StartupSkipped<A, T, H>(first: Option<T>, xs: seq<A>, pick: A -> Option<T>, key: T -> H)
    ensures var all := Fresh(first, Picked(xs, pick), key);
      && (first.Some? && all != [] ==> key(all[0]) != key(first.value))
      && (first.Some? ==>
            (forall i :: 0 <= i < |xs| && pick(xs[i]).Some? ==> key(pick(xs[i]).value) == key(first.value)) ==>
              all == [])
      && (first.None? ==>
            forall i :: 0 <= i < |xs| && pick(xs[i]).Some? && (forall k :: 0 <= k < i ==> pick(xs[k]).None?) ==>
              all != [] && all[0] == pick(xs[i]).value)
  {
    FirstFresh(first, Picked(xs, pick), key);
    if first.Some? {
      if forall i :: 0 <= i < |xs| && pick(xs[i]).Some? ==> key(pick(xs[i]).value) == key(first.value) {
        PickedAlike(xs, pick, key, key(first.value));
        FreshAllAlike(first, Picked(xs, pick), key);
      }
    } else {
      forall i | 0 <= i < |xs| && pick(xs[i]).Some? && (forall k :: 0 <= k < i ==> pick(xs[k]).None?)
        ensures Picked(xs, pick) != [] && Picked(xs, pick)[0] == pick(xs[i]).value
      {
        PickedFirst(xs, i, pick);
      }
    }
  }

  // ----- The loop over an external command --------------------------------------------

  /** One run of the reading command: an image, no image, or a failure to run it. */
  datatype Read = Image(png: Bytes) | NoImage | ReadError

  function ImageOf(read: Read): Option<Bytes> {
    if read.Image? then Some(read.png) else None
  }

  datatype Outcome = StartupFailed | Stopped | Watching

  /** Every image read has the hash of the one read at startup. */
  ghost predicate OnlyStartupImage<H>(startup: Read, samples: seq<Read>, hash: Bytes -> H) {
    startup.Image? && forall i :: 0 <= i < |samples| && samples[i].Image? ==> hash(samples[i].png) == hash(startup.png)
  }

  /**
   The polling loop over the samples it takes; `accepts` is how many sends the
   channel takes before its receiver is gone.
   */
  method WatchWithCommand<H(==)>(startup: Read, samples: seq<Read>, hash: Bytes -> H, accepts: nat)
    returns (sent: seq<Bytes>, outcome: Outcome)
    ensures outcome == StartupFailed <==> startup.ReadError?
    ensures startup.ReadError? ==> sent == []
    ensures var all := Fresh(ImageOf(startup), Picked(samples, ImageOf), hash);
      !startup.ReadError? ==>
        && sent == (if |all| <= accepts then all else all[..accepts])
        && (outcome == Stopped <==> accepts < |all|)
    ensures startup.Image? && sent != [] ==> hash(sent[0]) != hash(startup.png)
    ensures OnlyStartupImage(startup, samples, hash) ==> sent == []
  {
    sent := [];
    if startup.ReadError? {
      return [], StartupFailed;
    }
    var lastHash: Option<H> := None;
    if startup.Image? {
      lastHash := Some(hash(startup.png));
    }
    ghost var first := ImageOf(startup);
    for i := 0 to |samples|
      invariant sent == Fresh(first, Picked(samples[..i], ImageOf), hash) && |sent| <= accepts
      invariant lastHash == LastKey(Sighted(first) + Picked(samples[..i], ImageOf), hash)
    {
      ItemNext(first, samples, i, ImageOf, hash);
      if samples[i].Image? {
        var png := samples[i].png;
        var seen := hash(png);
        if Some(seen) == lastHash {
          continue;
        }
        if |sent| == accepts {
          StoppedEarly(first, samples, i, ImageOf, hash);
          CommandSkipsStartup(startup, samples, hash);
          return sent, Stopped;
        }
        sent := sent + [png];
        lastHash := Some(seen);
      }
    }
    assert samples[..|samples|] == samples;
    CommandSkipsStartup(startup, samples, hash);
    outcome := Watching;
  }

  /**
   The image of sample i is on the clipboard already: the nearest earlier image,
   the one read at startup if no sample had one, has the same hash.
   */
  ghost predicate StillThere<H>(startup: Read, samples: seq<Read>, i: nat, hash: Bytes -> H)
    requires i < |samples| && samples[i].Image?
  {
    || (exists j :: 0 <= j < i && samples[j].Image? && hash(samples[j].png) == hash(samples[i].png)
          && forall k :: j < k < i ==> !samples[k].Image?)
    || (startup.Image? && hash(startup.png) == hash(samples[i].png) && forall k :: 0 <= k < i ==> !samples[k].Image?)
  }

  /**
   What should be sent, told from the reads alone: nothing at first, and each sample
   adds its image unless that is still there; one without an image adds nothing.
   */
  lemma {:induction false} SampleAdds<H>(startup: Read, samples: seq<Read>, i: nat, hash: Bytes -> H)
    requires i < |samples|
    ensures Fresh(ImageOf(startup), Picked(samples[..0], ImageOf), hash) == []
    ensures Fresh(ImageOf(startup), Picked(samples[..i + 1], ImageOf), hash) ==
      Fresh(ImageOf(startup), Picked(samples[..i], ImageOf), hash)
      + (if samples[i].Image? && !StillThere(startup, samples, i, hash) then [samples[i].png] else [])
  {
    FreshOfNone(ImageOf(startup), hash);
    ItemAdds(ImageOf(startup), samples, i, ImageOf, hash);
    if samples[i].Image? {
      ThereIsRepeat(startup, samples, i, hash);
    }
  }

  lemma {:induction false} ThereIsRepeat<H>(startup: Read, samples: seq<Read>, i: nat, hash: Bytes -> H)
    requires i < |samples| && samples[i].Image?
    ensures StillThere(startup, samples, i, hash) <==> Repeats(ImageOf(startup), samples, i, ImageOf, hash)
  {
  }

  /** The image read at startup is not sent: it takes another hash, or no image at startup, for a first send. */
  lemma {:induction false} CommandSkipsStartup<H>(startup: Read, samples: seq<Read>, hash: Bytes -> H)
    ensures var all := Fresh(ImageOf(startup), Picked(samples, ImageOf), hash);
      && (startup.Image? && all != [] ==> hash(all[0]) != hash(startup.png))
      && (OnlyStartupImage(startup, samples, hash) ==> all == [])
      && (!startup.Image? ==>
            forall i :: 0 <= i < |samples| && samples[i].Image? && (forall k :: 0 <= k < i ==> !samples[k].Image?) ==>
              all != [] && all[0] == samples[i].png)
  {
    StartupSkipped(ImageOf(startup), samples, ImageOf, hash);
  }

  // ----- The loop over the clipboard library ----------------------------------------------

  /** One poll: an image with the result of encoding it, or nothing. */
  datatype Poll = Seen(rgba: Bytes, encoded: Option<Bytes>) | Unseen

  /** An image counts if its encoding succeeds; the others leave no trace. */
  function EncodedOf(poll: Poll): Option<(Bytes, Bytes)> {
    if poll.Seen? && poll.encoded.Some? then Some((poll.rgba, poll.encoded.value)) else None
  }

  function Pngs(images: seq<(Bytes, Bytes)>): (r: seq<Bytes>)
    ensures |r| == |images| && forall i :: 0 <= i < |r| ==> r[i] == images[i].1
  {
    seq(|images|, i requires 0 <= i < |images| => images[i].1)
  }

  lemma PngsNext(images: seq<(Bytes, Bytes)>, image: (Bytes, Bytes))
    ensures Pngs(images + [image]) == Pngs(images) + [image.1]
  {
  }

  lemma PngsPrefix(images: seq<(Bytes, Bytes)>, more: seq<(Bytes, Bytes)>)
    requires images <= more
    ensures Pngs(images) <= Pngs(more)
  {
    assert forall i :: 0 <= i < |images| ==> images[i] == more[i];
  }

  /** Images are compared by the hash of their pixels. */
  function PixelKey<H>(hash: Bytes -> H): ((Bytes, Bytes)) -> H {
    (image: (Bytes, Bytes)) => hash(image.0)
  }

  /** The startup image is remembered by its pixels; it is never encoded. */
  function FirstSeen(startup: Poll): Option<(Bytes, Bytes)> {
    if startup.Seen? then Some((startup.rgba, [])) else None
  }

  /** Every image seen has the pixels, by hash, of the one seen at startup. */
  ghost predicate OnlyStartupSeen<H>(startup: Poll, polls: seq<Poll>, hash: Bytes -> H) {
    startup.Seen? && forall i :: 0 <= i < |polls| && polls[i].Seen? ==> hash(polls[i].rgba) == hash(startup.rgba)
  }

  /**
   The polling loop of the library watcher. Images are compared by the hash of
   their pixels; one that fails to encode changes nothing, so it is tried again
   at the next poll that shows it.
   */
  method WatchWithLibrary<H(==)>(startup: Poll, polls: seq<Poll>, hash: Bytes -> H, accepts: nat)
    returns (sent: seq<Bytes>, stopped: bool)
    ensures var all := Pngs(Fresh(FirstSeen(startup), Picked(polls, EncodedOf), PixelKey(hash)));
      && sent == (if |all| <= accepts then all else all[..accepts])
      && (stopped <==> accepts < |all|)
    ensures OnlyStartupSeen(startup, polls, hash) ==> sent == []
  {
    ghost var key := PixelKey(hash);
    ghost var first := FirstSeen(startup);
    ghost var taken: seq<(Bytes, Bytes)> := [];
    sent := [];
    var lastHash: Option<H> := None;
    if startup.Seen? {
      lastHash := Some(hash(startup.rgba));
    }
    for i := 0 to |polls|
      invariant taken == Fresh(first, Picked(polls[..i], EncodedOf), key) && sent == Pngs(taken) && |sent| <= accepts
      invariant lastHash == LastKey(Sighted(first) + Picked(polls[..i], EncodedOf), key)
    {
      ItemNext(first, polls, i, EncodedOf, key);
      if polls[i].Seen? {
        var seen := hash(polls[i].rgba);
        if Some(seen) == lastHash {
          continue;
        }
        if polls[i].encoded.Some? {
          if |sent| == accepts {
            StoppedEarly(first, polls, i, EncodedOf, key);
            PngsPrefix(taken, Fresh(first, Picked(polls, EncodedOf), key));
            LibrarySkipsStartup(startup, polls, hash);
            return sent, true;
          }
          PngsNext(taken, (polls[i].rgba, polls[i].encoded.value));
          sent := sent + [polls[i].encoded.value];
          taken := taken + [(polls[i].rgba, polls[i].encoded.value)];
          lastHash := Some(seen);
        }
      }
    }
    assert polls[..|polls|] == polls;
    LibrarySkipsStartup(startup, polls, hash);
    stopped := false;
  }

  /** The pixels of poll i are those of the nearest earlier image that was encoded, or of the startup image. */
  ghost predicate StillSeen<H>(startup: Poll, polls: seq<Poll>, i: nat, hash: Bytes -> H)
    requires i < |polls| && polls[i].Seen?
  {
    || (exists j :: 0 <= j < i && polls[j].Seen? && polls[j].encoded.Some? && hash(polls[j].rgba) == hash(polls[i].rgba)
          && forall k :: j < k < i ==> polls[k].Unseen? || polls[k].encoded.None?)
    || (startup.Seen? && hash(startup.rgba) == hash(polls[i].rgba)
        && forall k :: 0 <= k < i ==> polls[k].Unseen? || polls[k].encoded.None?)
  }

  /** What should be sent, told from the polls alone. */
  lemma {:induction false} PollAdds<H>(startup: Poll, polls: seq<Poll>, i: nat, hash: Bytes -> H)
    requires i < |polls|
    ensures var key := PixelKey(hash);
      && Fresh(FirstSeen(startup), Picked(polls[..0], EncodedOf), key) == []
      && Pngs(Fresh(FirstSeen(startup), Picked(polls[..i + 1], EncodedOf), key)) ==
           Pngs(Fresh(FirstSeen(startup), Picked(polls[..i], EncodedOf), key))
           + (if polls[i].Seen? && polls[i].encoded.Some? && !StillSeen(startup, polls, i, hash)
              then [polls[i].encoded.value] else [])
  {
    var key := PixelKey(hash);
    FreshOfNone(FirstSeen(startup), key);
    ItemAdds(FirstSeen(startup), polls, i, EncodedOf, key);
    if EncodedOf(polls[i]).Some? {
      SeenIsRepeat(startup, polls, i, hash);
      PngsNext(Fresh(FirstSeen(startup), Picked(polls[..i], EncodedOf), key), EncodedOf(polls[i]).value);
    }
  }

  lemma {:induction false} SeenIsRepeat<H>(startup: Poll, polls: seq<Poll>, i: nat, hash: Bytes -> H)
    requires i < |polls| && EncodedOf(polls[i]).Some?
    ensures StillSeen(startup, polls, i, hash) <==> Repeats(FirstSeen(startup), polls, i, EncodedOf, PixelKey(hash))
  {
  }

  /** The image on the clipboard at startup is not sent, whether or not it could have been encoded. */
  lemma {:induction false} LibrarySkipsStartup<H>(startup: Poll, polls: seq<Poll>, hash: Bytes -> H)
    ensures OnlyStartupSeen(startup, polls, hash) ==>
      Fresh(FirstSeen(startup), Picked(polls, EncodedOf), PixelKey(hash)) == []
  {
    StartupSkipped(FirstSeen(startup), polls, EncodedOf, PixelKey(hash));
  }
}
