/** Reading frames from a byte stream that arrives in arbitrary pieces. */
module Transport {
  import opened Wrappers
  import opened Protocol

  /** How a stream stops: closed by the peer, or broken. */
  datatype End = Eof | Broken

  datatype TransportError =
    | Io
    | ConnectionClosed
    | BadFrame(error: FrameError)

  function Flatten(chunks: seq<seq<byte>>): seq<byte> {
    if chunks == [] then [] else chunks[0] + Flatten(chunks[1..])
  }

  /** The error of a read that runs into the end of the stream. */
  function EndError(end: End): TransportError {
    if end.Eof? then ConnectionClosed else Io
  }

  lemma SplitChunk(before: seq<byte>, chunk: seq<byte>, n: nat, rest: seq<byte>)
    requires n <= |chunk|
    ensures before + (chunk + rest) == (before + chunk[..n]) + (chunk[n..] + rest)
  {
  }

  /** The receiving half of a socket: pieces still to arrive, then the end. */
  class Reader {
    var chunks: seq<seq<byte>>
    const end: End

    ghost function Bytes(): seq<byte>
      reads this
    {
      Flatten(chunks)
    }

    constructor (chunks: seq<seq<byte>>, end: End)
      ensures this.chunks == chunks && this.end == end
    {
      this.chunks := chunks;
      this.end := end;
    }

    /** Fills the whole buffer, or consumes what is left and reports failure. */
    method ReadExact(buf: array<byte>) returns (ok: bool)
      modifies this, buf
      ensures ok <==> buf.Length <= |old(Bytes())|
      ensures ok ==> buf[..] == old(Bytes())[..buf.Length] && Bytes() == old(Bytes())[buf.Length..]
      ensures !ok ==> Bytes() == []
    {
      var filled := 0;
      while filled < buf.Length && chunks != []
        invariant 0 <= filled <= buf.Length
        invariant buf[..filled] + Bytes() == old(Bytes())
        decreases buf.Length - filled + |chunks|
      {
        var chunk, rest := chunks[0], chunks[1..];
        var n := if |chunk| <= buf.Length - filled then |chunk| else buf.Length - filled;
        ghost var before := buf[..filled];
        SplitChunk(before, chunk, n, Flatten(rest));
        forall i | 0 <= i < n {
          buf[filled + i] := chunk[i];
        }
        assert buf[..filled + n] == before + chunk[..n];
        if n < |chunk| {
          chunks := [chunk[n..]] + rest;
          assert chunks[1..] == rest;
        } else {
          chunks := rest;
          assert chunk[n..] == [];
        }
        assert Bytes() == chunk[n..] + Flatten(rest);
        filled := filled + n;
      }
      ok := filled == buf.Length;
      assert ok ==> buf[..filled] == buf[..];
    }
  }

  // ----- One frame -----------------------------------------------------------------

  /** The next frame of a stream of bytes, and the bytes after it. */
  function NextFrame(bytes: seq<byte>, end: End): (Result<Frame, TransportError>, seq<byte>) {
    if |bytes| < HEADER_LEN then (Err(EndError(end)), [])
    else
      var n := HEADER_LEN + BeValue(bytes[4..8]);
      if |bytes| < n then (Err(EndError(end)), [])
      else
        match FromBytes(bytes[..n])
        case Ok(f) => (Ok(f), bytes[n..])
        case Err(e) => (Err(BadFrame(e)), bytes[n..])
  }

  method RecvFrame(reader: Reader) returns (r: Result<Frame, TransportError>)
    modifies reader
    ensures (r, reader.Bytes()) == NextFrame(old(reader.Bytes()), reader.end)
  {
    ghost var bytes := reader.Bytes();
    var header := new byte[HEADER_LEN];
    var ok := reader.ReadExact(header);
    if !ok {
      return Err(EndError(reader.end));
    }
    assert header[4..8] == bytes[4..8];
    var payloadLen := BeValue(header[4..8]);
    var payload := new byte[payloadLen];
    ok := reader.ReadExact(payload);
    if !ok {
      return Err(EndError(reader.end));
    }
    var full := header[..] + payload[..];
    assert full == bytes[..HEADER_LEN + payloadLen];
    match FromBytes(full) {
      case Ok(f) => r := Ok(f);
      case Err(e) => r := Err(BadFrame(e));
    }
  }

  /**
   Reading from a stream agrees with decoding a buffer: a frame is returned iff
   some prefix of the stream decodes to it, and that prefix is what was consumed.
   */
  lemma RecvAgreesWithDecode(bytes: seq<byte>, end: End, f: Frame, rest: seq<byte>)
    ensures NextFrame(bytes, end) == (Ok(f), rest)
       <==> exists n :: 0 <= n <= |bytes| && FromBytes(bytes[..n]) == Ok(f) && rest == bytes[n..]
  {
    if exists n :: 0 <= n <= |bytes| && FromBytes(bytes[..n]) == Ok(f) && rest == bytes[n..] {
      var n :| 0 <= n <= |bytes| && FromBytes(bytes[..n]) == Ok(f) && rest == bytes[n..];
      assert bytes[..n][4..8] == bytes[4..8];
    }
  }

  /**
   A frame error on a stream is the decoder's error for exactly the bytes
   consumed, and it is never one of the two length errors.
   */
  lemma StreamErrorsAreHeaderErrors(bytes: seq<byte>, end: End)
    ensures var (r, rest) := NextFrame(bytes, end);
      r.Err? && r.error.BadFrame? ==>
        && |rest| <= |bytes| && rest == bytes[|bytes| - |rest|..]
        && FromBytes(bytes[..|bytes| - |rest|]) == Err(r.error.error)
        && (r.error.error == InvalidMagic || r.error.error.UnsupportedVersion?)
  {
    if |bytes| >= HEADER_LEN {
      var n := HEADER_LEN + BeValue(bytes[4..8]);
      if |bytes| >= n {
        assert bytes[..n][4..8] == bytes[4..8];
      }
    }
  }

  /**
   What a stream yields next, in numbers. Too few bytes for a header, or for the
   payload its length announces: the end is reported, "closed" if the peer closed and
   an I/O error if the stream broke. Otherwise that many bytes are consumed, and wrong
   magic bytes, else a wrong version, are reported, else the frame is returned.
   */
  lemma NextInNumbers(bytes: seq<byte>, end: End)
    ensures |bytes| < 8 ==> NextFrame(bytes, end) == (Err(if end == Eof then ConnectionClosed else Io), [])
    ensures |bytes| >= 8 ==>
      var n := 8 + Quad(bytes[4], bytes[5], bytes[6], bytes[7]);
      && (|bytes| < n ==> NextFrame(bytes, end) == (Err(if end == Eof then ConnectionClosed else Io), []))
      && (|bytes| >= n ==> NextFrame(bytes, end) == (
            if !(bytes[0] == 0xC5 && bytes[1] == 0x53) then Err(BadFrame(InvalidMagic))
            else if bytes[2] != 1 then Err(BadFrame(UnsupportedVersion(bytes[2])))
            else Ok(Frame(bytes[3], bytes[8..n])),
            bytes[n..]))
  {
    if |bytes| >= 8 {
      var n := 8 + Quad(bytes[4], bytes[5], bytes[6], bytes[7]);
      assert bytes[4..8] == [bytes[4], bytes[5], bytes[6], bytes[7]];
      if |bytes| >= n {
        Decoded(bytes[..n]);
        assert bytes[..n][8..] == bytes[8..n];
      }
    }
  }

  // ----- The receive loop -------------------------------------------------------------

  lemma NextFrameShrinks(bytes: seq<byte>, end: End)
    ensures NextFrame(bytes, end).0.Ok? ==> |NextFrame(bytes, end).1| + HEADER_LEN <= |bytes|
  {
  }

  /** All frames up to the first error, and that error. */
  function ReceiveAll(bytes: seq<byte>, end: End): (seq<Frame>, TransportError)
    decreases |bytes|
  {
    var (r, rest) := NextFrame(bytes, end);
    match r
    case Err(e) => ([], e)
    case Ok(f) =>
      NextFrameShrinks(bytes, end);
      var (fs, e) := ReceiveAll(rest, end);
      ([f] + fs, e)
  }

  /** The loop of one inbound connection; `written` is what it hands to the clipboard. */
  method ReceiveLoop(reader: Reader) returns (written: seq<Frame>, why: TransportError)
    modifies reader
    ensures (written, why) == ReceiveAll(old(reader.Bytes()), reader.end)
  {
    written := [];
    ghost var start := reader.Bytes();
    while true
      invariant written + ReceiveAll(reader.Bytes(), reader.end).0 == ReceiveAll(start, reader.end).0
      invariant ReceiveAll(reader.Bytes(), reader.end).1 == ReceiveAll(start, reader.end).1
      decreases |reader.Bytes()|
    {
      NextFrameShrinks(reader.Bytes(), reader.end);
      var r := RecvFrame(reader);
      match r {
        case Ok(f) => written := written + [f];
        case Err(e) =>
          assert written + [] == written;
          return written, e;
      }
    }
  }

  // ----- Framing over a cut stream --------------------------------------------------------

  ghost predicate AllEncodable(fs: seq<Frame>) {
    forall i :: 0 <= i < |fs| ==> Encodable(fs[i])
  }

  ghost function EncodeAll(fs: seq<Frame>): seq<byte>
    requires AllEncodable(fs)
  {
    if fs == [] then [] else Encoding(fs[0]) + EncodeAll(fs[1..])
  }

  /** The number of frames that lie wholly in the first `cut` bytes of their joint encoding. */
  ghost function Whole(fs: seq<Frame>, cut: nat): nat
    requires AllEncodable(fs)
    decreases fs
  {
    if fs == [] || cut < |Encoding(fs[0])| then 0
    else Whole(fs[1..], cut - |Encoding(fs[0])|) + 1
  }

  /** That many frames end at or before the cut, and the next one after it. */
  lemma {:induction false} WholeFits(fs: seq<Frame>, cut: nat)
    requires AllEncodable(fs)
    ensures var k := Whole(fs, cut);
      k <= |fs| && |EncodeAll(fs[..k])| <= cut && (k < |fs| ==> cut < |EncodeAll(fs[..k + 1])|)
    decreases fs
  {
    if fs != [] && cut < |Encoding(fs[0])| {
      assert fs[..1][1..] == [];
    } else if fs != [] {
      WholeFits(fs[1..], cut - |Encoding(fs[0])|);
      var k := Whole(fs[1..], cut - |Encoding(fs[0])|);
      EncodedPrefix(fs, k);
      if k + 1 < |fs| {
        EncodedPrefix(fs, k + 1);
      }
    }
  }

  lemma {:induction false} EncodedPrefix(fs: seq<Frame>, k: nat)
    requires AllEncodable(fs) && fs != [] && k < |fs|
    ensures |EncodeAll(fs[..k + 1])| == |Encoding(fs[0])| + |EncodeAll(fs[1..][..k])|
  {
    assert fs[..k + 1][1..] == fs[1..][..k];
  }

  lemma {:induction false} WholeBound(fs: seq<Frame>, cut: nat)
    requires AllEncodable(fs)
    ensures Whole(fs, cut) <= |fs|
    decreases fs
  {
    if fs != [] && cut >= |Encoding(fs[0])| {
      WholeBound(fs[1..], cut - |Encoding(fs[0])|);
    }
  }

  lemma NextOfEncoding(f: Frame, rest: seq<byte>, end: End)
    requires Encodable(f)
    ensures NextFrame(Encoding(f) + rest, end) == (Ok(f), rest)
  {
    var bytes := Encoding(f) + rest;
    BeInverse(|f.payload|);
    DecodeEncode(f);
    assert bytes[4..8] == BeBytes(|f.payload|);
    assert bytes[..|Encoding(f)|] == Encoding(f);
  }

  lemma NextOfPartial(f: Frame, cut: nat, end: End)
    requires Encodable(f) && cut < |Encoding(f)|
    ensures NextFrame(Encoding(f)[..cut], end) == (Err(EndError(end)), [])
  {
    if cut >= HEADER_LEN {
      BeInverse(|f.payload|);
      assert Encoding(f)[..cut][4..8] == BeBytes(|f.payload|);
    }
  }

  lemma ReceiveOne(f: Frame, rest: seq<byte>, end: End)
    requires Encodable(f)
    ensures ReceiveAll(Encoding(f) + rest, end) == ([f] + ReceiveAll(rest, end).0, ReceiveAll(rest, end).1)
  {
    NextOfEncoding(f, rest, end);
  }

  lemma ReceivePartial(f: Frame, cut: nat, end: End)
    requires Encodable(f) && cut < |Encoding(f)|
    ensures ReceiveAll(Encoding(f)[..cut], end) == ([], EndError(end))
  {
    NextOfPartial(f, cut, end);
  }

  lemma CutConcat(a: seq<byte>, b: seq<byte>, cut: nat)
    requires cut <= |a| + |b|
    ensures (a + b)[..cut] == if cut < |a| then a[..cut] else a + b[..cut - |a|]
  {
  }

  lemma {:induction false} CutStream(fs: seq<Frame>, cut: nat, end: End)
    requires AllEncodable(fs) && cut <= |EncodeAll(fs)|
    ensures Whole(fs, cut) <= |fs|
    ensures ReceiveAll(EncodeAll(fs)[..cut], end) == (fs[..Whole(fs, cut)], EndError(end))
    decreases fs
  {
    WholeBound(fs, cut);
    if fs == [] {
      assert EncodeAll(fs)[..cut] == [];
    } else {
      CutFirst(fs, cut, end);
      var n := |Encoding(fs[0])|;
      if cut >= n {
        assert |EncodeAll(fs)| == n + |EncodeAll(fs[1..])|;
        CutStream(fs[1..], cut - n, end);
        var k := Whole(fs[1..], cut - n);
        assert Whole(fs, cut) == k + 1;
        PrefixCons(fs, k);
      }
    }
  }

  lemma PrefixCons(fs: seq<Frame>, k: nat)
    requires k < |fs|
    ensures [fs[0]] + fs[1..][..k] == fs[..k + 1]
  {
  }

  /** What the loop makes of the first frame of a cut stream. */
  lemma {:induction false} CutFirst(fs: seq<Frame>, cut: nat, end: End)
    requires AllEncodable(fs) && fs != [] && cut <= |EncodeAll(fs)|
    ensures ReceiveAll(EncodeAll(fs)[..cut], end) ==
      if cut < |Encoding(fs[0])| then ([], EndError(end))
      else
        var r := ReceiveAll(EncodeAll(fs[1..])[..cut - |Encoding(fs[0])|], end);
        ([fs[0]] + r.0, r.1)
  {
    CutConcat(Encoding(fs[0]), EncodeAll(fs[1..]), cut);
    if cut < |Encoding(fs[0])| {
      ReceivePartial(fs[0], cut, end);
    } else {
      ReceiveOne(fs[0], EncodeAll(fs[1..])[..cut - |Encoding(fs[0])|], end);
    }
  }

  /** The loop ends at the first error, whatever follows: the frames before it are handed on, and it is reported. */
  lemma {:induction false} LoopEndsAtError(fs: seq<Frame>, rest: seq<byte>, end: End)
    requires AllEncodable(fs) && NextFrame(rest, end).0.Err?
    ensures ReceiveAll(EncodeAll(fs) + rest, end) == (fs, NextFrame(rest, end).0.error)
    decreases fs
  {
    if fs == [] {
      assert EncodeAll(fs) + rest == rest;
    } else {
      assert EncodeAll(fs) + rest == Encoding(fs[0]) + (EncodeAll(fs[1..]) + rest);
      ReceiveOne(fs[0], EncodeAll(fs[1..]) + rest, end);
      LoopEndsAtError(fs[1..], rest, end);
      assert fs == [fs[0]] + fs[1..];
    }
  }

  /**
   Stream framing: cut the concatenated encodings at any byte and deliver the
   cut stream in any pieces; the receive loop hands on exactly the frames that
   lie wholly before the cut, in order, and then reports the end of the stream.
   */
  method ReceiveCut(fs: seq<Frame>, ghost cut: nat, chunks: seq<seq<byte>>, end: End)
    returns (written: seq<Frame>, why: TransportError)
    requires AllEncodable(fs) && cut <= |EncodeAll(fs)|
    requires Flatten(chunks) == EncodeAll(fs)[..cut]
    ensures Whole(fs, cut) <= |fs| && written == fs[..Whole(fs, cut)]
    ensures why == EndError(end)
  {
    CutStream(fs, cut, end);
    var reader := new Reader(chunks, end);
    written, why := ReceiveLoop(reader);
  }

  lemma {:induction false} EncodeAllConcat(fs: seq<Frame>, gs: seq<Frame>)
    requires AllEncodable(fs) && AllEncodable(gs)
    ensures AllEncodable(fs + gs) && EncodeAll(fs + gs) == EncodeAll(fs) + EncodeAll(gs)
    decreases fs
  {
    if fs == [] {
      assert fs + gs == gs;
    } else {
      assert (fs + gs)[1..] == fs[1..] + gs;
      EncodeAllConcat(fs[1..], gs);
      ConcatAssociates(Encoding(fs[0]), EncodeAll(fs[1..]), EncodeAll(gs));
    }
  }

  lemma ConcatAssociates(a: seq<byte>, b: seq<byte>, c: seq<byte>)
    ensures a + (b + c) == (a + b) + c
  {
  }
}
