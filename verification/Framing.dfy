/** Length-prefixed frames over a byte stream.

    The stream may hand out its bytes in pieces of any size. How an object becomes bytes and
    back is a codec; the reader only needs that decoding undoes encoding. */
module Framing {
  import opened Values

  newtype Byte = x: int | 0 <= x < 256

  const MAX_FRAME_BYTES: nat := 16 * 1024 * 1024

  datatype Error = FrameTooLarge | TruncatedFrame | InvalidFrame

  /** `decode` has no value for text that is not one JSON object. */
  datatype Codec<!T> = Codec(encode: T -> seq<Byte>, decode: seq<Byte> -> Option<T>)

  ghost predicate Faithful<T(!new)>(c: Codec<T>) {
    forall v :: c.decode(c.encode(v)) == Some(v)
  }

  // ------------------------------------------------------------ the length prefix

  function Pack(n: nat): (b: seq<Byte>)
    requires n < 0x1_0000_0000
    ensures |b| == 4
  {
    [(n / 0x100 / 0x100 / 0x100) as Byte, (n / 0x100 / 0x100 % 0x100) as Byte, (n / 0x100 % 0x100) as Byte, (n % 0x100) as Byte]
  }

  function Unpack(b: seq<Byte>): nat
    requires |b| == 4
  {
    ((b[0] as nat * 0x100 + b[1] as nat) * 0x100 + b[2] as nat) * 0x100 + b[3] as nat
  }

  lemma UnpackPack(n: nat)
    requires n < 0x1_0000_0000
    ensures Unpack(Pack(n)) == n
  {
  }

  /** The first byte weighs most. */
  ghost function BigEndian(b: seq<Byte>): nat
    requires |b| == 4
  {
    b[0] as nat * 0x100_0000 + b[1] as nat * 0x1_0000 + b[2] as nat * 0x100 + b[3] as nat
  }

  /** Four bytes and the number they stand for determine each other. */
  lemma PackUnpack(b: seq<Byte>)
    requires |b| == 4
    ensures Unpack(b) == BigEndian(b) < 0x1_0000_0000 && Pack(Unpack(b)) == b
  {
    Quotients(b[0] as nat, b[1] as nat, b[2] as nat, b[3] as nat);
  }

  lemma Quotients(a: nat, b: nat, c: nat, d: nat)
    requires a < 0x100 && b < 0x100 && c < 0x100 && d < 0x100
    ensures var n := ((a * 0x100 + b) * 0x100 + c) * 0x100 + d;
            n < 0x1_0000_0000 && n % 0x100 == d && n / 0x100 % 0x100 == c && n / 0x100 / 0x100 % 0x100 == b && n / 0x100 / 0x100 / 0x100 == a
  {
    var low, mid := (a * 0x100 + b) * 0x100 + c, a * 0x100 + b;
    assert (low * 0x100 + d) / 0x100 == low && (low * 0x100 + d) % 0x100 == d;
    assert (mid * 0x100 + c) / 0x100 == mid && (mid * 0x100 + c) % 0x100 == c;
    assert mid / 0x100 == a && mid % 0x100 == b;
  }

  // ------------------------------------------------------------ frames

  function EncodeFrame<T>(c: Codec<T>, v: T): Result<seq<Byte>, Error> {
    var body := c.encode(v);
    if |body| > MAX_FRAME_BYTES then Err(FrameTooLarge) else Ok(Pack(|body|) + body)
  }

  /** An object is sent exactly if its text is within the limit, behind its length. */
  lemma SentIff<T>(c: Codec<T>, v: T)
    ensures EncodeFrame(c, v).Ok? <==> |c.encode(v)| <= MAX_FRAME_BYTES
    ensures EncodeFrame(c, v).Ok? ==>
              var frame := EncodeFrame(c, v).value;
              |frame| == 4 + |c.encode(v)| && BigEndian(frame[..4]) == |c.encode(v)| && frame[4..] == c.encode(v)
  {
    if |c.encode(v)| <= MAX_FRAME_BYTES {
      UnpackPack(|c.encode(v)|);
      PackUnpack(Pack(|c.encode(v)|));
      assert EncodeFrame(c, v).value[..4] == Pack(|c.encode(v)|);
    }
  }

  ghost predicate Fits<T>(c: Codec<T>, v: T) {
    EncodeFrame(c, v).Ok?
  }

  /** What reading one frame from the remaining bytes gives, and what then remains. */
  function NextFrame<T>(c: Codec<T>, s: seq<Byte>): (Result<Option<T>, Error>, seq<Byte>) {
    if s == [] then (Ok(None), [])
    else if |s| < 4 then (Err(TruncatedFrame), [])
    else
      var size := Unpack(s[..4]);
      if size > MAX_FRAME_BYTES then (Err(FrameTooLarge), s[4..])
      else if |s| - 4 < size then (Err(TruncatedFrame), [])
      else match c.decode(s[4..4 + size])
        case None => (Err(InvalidFrame), s[4 + size..])
        case Some(v) => (Ok(Some(v)), s[4 + size..])
  }

  /** The stream begins with a length within the limit and that many bytes. */
  ghost predicate Whole(s: seq<Byte>) {
    |s| >= 4 && BigEndian(s[..4]) <= MAX_FRAME_BYTES && |s| - 4 >= BigEndian(s[..4])
  }

  ghost function BodyOf(s: seq<Byte>): seq<Byte>
    requires Whole(s)
  {
    s[4..4 + BigEndian(s[..4])]
  }

  /** What each reading of a frame means, and what it leaves: nothing of a stream that breaks
      off, everything behind the length that is too large, and everything behind a whole frame. */
  lemma FrameVerdicts<T>(c: Codec<T>, s: seq<Byte>)
    ensures NextFrame(c, s).0 == Ok(None) <==> s == []
    ensures NextFrame(c, s).0 == Err(FrameTooLarge) <==> |s| >= 4 && BigEndian(s[..4]) > MAX_FRAME_BYTES
    ensures NextFrame(c, s).0 == Err(TruncatedFrame) <==> s != [] && !Whole(s) && (|s| >= 4 ==> BigEndian(s[..4]) <= MAX_FRAME_BYTES)
    ensures NextFrame(c, s).0 == Err(InvalidFrame) <==> Whole(s) && c.decode(BodyOf(s)) == None
    ensures forall v :: NextFrame(c, s).0 == Ok(Some(v)) <==> Whole(s) && c.decode(BodyOf(s)) == Some(v)
    ensures NextFrame(c, s).1 == if Whole(s) then s[4 + BigEndian(s[..4])..] else if NextFrame(c, s).0 == Err(FrameTooLarge) then s[4..] else []
  {
    if |s| >= 4 {
      PackUnpack(s[..4]);
    }
  }

  /** All frames up to the end of the stream or the first error; no error is a clean end. */
  function DecodeAll<T>(c: Codec<T>, s: seq<Byte>): (seq<T>, Option<Error>)
    decreases |s|
  {
    var (r, rest) := NextFrame(c, s);
    match r
    case Err(e) => ([], Some(e))
    case Ok(None) => ([], None)
    case Ok(Some(v)) =>
      var (vs, end) := DecodeAll(c, rest);
      ([v] + vs, end)
  }

  /** A stream: each call hands out between one byte and what was asked for, as `grain` says. */
  class ByteStream {
    var rest: seq<Byte>
    var calls: nat
    const grain: nat -> nat

    constructor (data: seq<Byte>, grain: nat -> nat)
      ensures rest == data && calls == 0 && this.grain == grain
    {
      rest, calls := data, 0;
      this.grain := grain;
    }

    method Read(size: nat) returns (chunk: seq<Byte>)
      requires size > 0
      modifies this
      ensures |chunk| <= size && old(rest) == chunk + rest
      ensures chunk == [] <==> old(rest) == []
    {
      var n := if grain(calls) == 0 then 1 else grain(calls);
      n := if n > size then size else n;
      n := if n > |rest| then |rest| else n;
      chunk, rest, calls := rest[..n], rest[n..], calls + 1;
    }
  }

  class FrameReader<!T> {
    const stream: ByteStream
    const codec: Codec<T>

    constructor (stream: ByteStream, codec: Codec<T>)
      ensures this.stream == stream && this.codec == codec
    {
      this.stream := stream;
      this.codec := codec;
    }

    /** The pieces join to the requested bytes whatever their sizes. */
    method ReadExact(size: nat, allowCleanEof: bool) returns (r: Result<Option<seq<Byte>>, Error>)
      modifies stream
      ensures |old(stream.rest)| >= size ==> r == Ok(Some(old(stream.rest)[..size])) && stream.rest == old(stream.rest)[size..]
      ensures |old(stream.rest)| < size ==> stream.rest == [] && r == if allowCleanEof && old(stream.rest) == [] then Ok(None) else Err(TruncatedFrame)
    {
      var buffer: seq<Byte> := [];
      while |buffer| < size
        invariant |buffer| <= size && old(stream.rest) == buffer + stream.rest
        decreases size - |buffer|
      {
        var chunk := stream.Read(size - |buffer|);
        if chunk == [] {
          return if allowCleanEof && buffer == [] then Ok(None) else Err(TruncatedFrame);
        }
        buffer := buffer + chunk;
      }
      r := Ok(Some(buffer));
    }

    method ReadFrame() returns (r: Result<Option<T>, Error>)
      modifies stream
      ensures (r, stream.rest) == NextFrame(codec, old(stream.rest))
    {
      var prefix := ReadExact(4, true);
      if prefix.Err? {
        return Err(prefix.error);
      }
      if prefix.value == None {
        return Ok(None);
      }
      var size := Unpack(prefix.value.value);
      if size > MAX_FRAME_BYTES {
        return Err(FrameTooLarge);
      }
      ghost var body := stream.rest;
      assert body == old(stream.rest)[4..];
      var payload := ReadExact(size, false);
      if payload.Err? {
        return Err(payload.error);
      }
      assert payload.value.value == old(stream.rest)[4..4 + size] && stream.rest == old(stream.rest)[4 + size..];
      var decoded := codec.decode(payload.value.value);
      if decoded == None {
        return Err(InvalidFrame);
      }
      r := Ok(decoded);
    }

    /** Reading frame after frame, as the engine does, until the stream ends or errs. */
    method ReadAll() returns (vs: seq<T>, end: Option<Error>)
      modifies stream
      ensures (vs, end) == DecodeAll(codec, old(stream.rest))
    {
      vs := [];
      ghost var all := DecodeAll(codec, stream.rest);
      assert vs + all.0 == all.0;
      while true
        invariant all == (vs + DecodeAll(codec, stream.rest).0, DecodeAll(codec, stream.rest).1)
        decreases |stream.rest|
      {
        ghost var left := DecodeAll(codec, stream.rest);
        var r := ReadFrame();
        if r.Err? {
          assert left == ([], Some(r.error)) && vs + left.0 == vs;
          return vs, Some(r.error);
        }
        if r.value == None {
          assert left == ([], None) && vs + left.0 == vs;
          return vs, None;
        }
        assert left == ([r.value.value] + DecodeAll(codec, stream.rest).0, DecodeAll(codec, stream.rest).1);
        assert vs + left.0 == (vs + [r.value.value]) + DecodeAll(codec, stream.rest).0;
        vs := vs + [r.value.value];
      }
    }
  }

  // ------------------------------------------------------------ round trips

  function Frames<T>(c: Codec<T>, vs: seq<T>): seq<Byte>
    requires forall v :: v in vs ==> Fits(c, v)
  {
    if vs == [] then []
    else
      assert Fits(c, vs[0]);
      EncodeFrame(c, vs[0]).value + Frames(c, vs[1..])
  }

  lemma FrameThenRest<T(!new)>(c: Codec<T>, v: T, rest: seq<Byte>)
    requires Faithful(c) && Fits(c, v)
    ensures NextFrame(c, EncodeFrame(c, v).value + rest) == (Ok(Some(v)), rest)
  {
    var body := c.encode(v);
    var s := EncodeFrame(c, v).value + rest;
    UnpackPack(|body|);
    assert s == Pack(|body|) + body + rest;
    assert s[..4] == Pack(|body|) && s[4..4 + |body|] == body && s[4 + |body|..] == rest;
  }

  /** Decoding the concatenated frames gives back the list and then a clean end. */
  lemma {:induction false} RoundTrip<T(!new)>(c: Codec<T>, vs: seq<T>)
    requires Faithful(c) && forall v :: v in vs ==> Fits(c, v)
    ensures DecodeAll(c, Frames(c, vs)) == (vs, None)
  {
    if vs != [] {
      assert Fits(c, vs[0]);
      RoundTrip(c, vs[1..]);
      FrameThenRest(c, vs[0], Frames(c, vs[1..]));
      assert [vs[0]] + vs[1..] == vs;
    }
  }

  /** How many whole frames lie before a cut. */
  function WholeFrames<T>(c: Codec<T>, vs: seq<T>, cut: nat): (k: nat)
    requires forall v :: v in vs ==> Fits(c, v)
    ensures k <= |vs|
  {
    if vs == [] then 0
    else
      assert Fits(c, vs[0]);
      var first := |EncodeFrame(c, vs[0]).value|;
      if cut < first then 0 else 1 + WholeFrames(c, vs[1..], cut - first)
  }

  /** The count is the number of frames that end by the cut. */
  lemma {:induction false} WholeFramesEndByCut<T>(c: Codec<T>, vs: seq<T>, cut: nat, k: nat)
    requires (forall v :: v in vs ==> Fits(c, v)) && k <= |vs|
    ensures k <= WholeFrames(c, vs, cut) <==> |Frames(c, vs[..k])| <= cut
  {
    if k > 0 {
      assert vs[..k][1..] == vs[1..][..k - 1];
      assert Fits(c, vs[0]);
      var first := |EncodeFrame(c, vs[0]).value|;
      if cut >= first {
        WholeFramesEndByCut(c, vs[1..], cut - first, k - 1);
      }
    }
  }

  lemma CutFrame<T(!new)>(c: Codec<T>, v: T, cut: nat)
    requires Fits(c, v) && cut < |EncodeFrame(c, v).value|
    ensures NextFrame(c, EncodeFrame(c, v).value[..cut]) == (if cut == 0 then Ok(None) else Err(TruncatedFrame), [])
  {
    var body := c.encode(v);
    if cut >= 4 {
      UnpackPack(|body|);
      assert EncodeFrame(c, v).value[..cut][..4] == Pack(|body|);
    }
  }

  /** A stream cut off anywhere yields exactly the whole frames before the cut; the end is
      clean if the cut falls between frames and the truncation error otherwise. */
  lemma {:induction false} CutStream<T(!new)>(c: Codec<T>, vs: seq<T>, cut: nat)
    requires Faithful(c) && (forall v :: v in vs ==> Fits(c, v)) && cut <= |Frames(c, vs)|
    ensures var k := WholeFrames(c, vs, cut);
            DecodeAll(c, Frames(c, vs)[..cut]) ==
            (vs[..k], if |Frames(c, vs[..k])| == cut then None else Some(TruncatedFrame))
    decreases |vs|
  {
    if vs != [] {
      assert Fits(c, vs[0]);
      var frame, rest := EncodeFrame(c, vs[0]).value, Frames(c, vs[1..]);
      if cut < |frame| {
        assert (frame + rest)[..cut] == frame[..cut];
        CutFrame(c, vs[0], cut);
      } else {
        assert (frame + rest)[..cut] == frame + rest[..cut - |frame|];
        FrameThenRest(c, vs[0], rest[..cut - |frame|]);
        CutStream(c, vs[1..], cut - |frame|);
        PrefixOfFrames(c, vs, WholeFrames(c, vs[1..], cut - |frame|));
      }
    }
  }

  lemma PrefixOfFrames<T>(c: Codec<T>, vs: seq<T>, k: nat)
    requires vs != [] && k < |vs| && forall v :: v in vs ==> Fits(c, v)
    ensures vs[..k + 1] == [vs[0]] + vs[1..][..k] && Fits(c, vs[0])
    ensures Frames(c, vs[..k + 1]) == EncodeFrame(c, vs[0]).value + Frames(c, vs[1..][..k])
  {
    assert vs[..k + 1][1..] == vs[1..][..k];
  }
}
