/** Length-prefixed frames of the sync protocol. The body codec is a
    parameter: an encoder and the decoder that inverts it. */
module Framing {
  import opened Base
  import opened Encoding

  const SYNC_MAX_MSG := 8 * 1024 * 1024
  const PREFIX := 4

  datatype Deframed<T> =
    | Ok(msg: T, consumed: nat)
    | TruncatedPrefix
    | OverCap
    | TruncatedBody
    | BadBody

  ghost predicate Inverse<T(!new)>(encode: T -> Bytes, decode: Bytes -> Option<T>) {
    forall m :: decode(encode(m)) == Some(m)
  }

  predicate Fits<T>(encode: T -> Bytes, msg: T) {
    |encode(msg)| <= SYNC_MAX_MSG
  }

  function Frame(body: Bytes): Bytes {
    BigEndian(|body|, PREFIX) + body
  }

  function FromBigEndian(b: Bytes): nat {
    if b == [] then 0 else 256 * FromBigEndian(b[..|b| - 1]) + b[|b| - 1] as int
  }

  lemma {:induction false} BigEndianRoundTrip(n: nat, k: nat)
    requires n < Pow256(k)
    ensures FromBigEndian(BigEndian(n, k)) == n
  {
    if k > 0 {
      var high := BigEndian(n / 256, k - 1);
      assert BigEndian(n, k)[..k - 1] == high;
      BigEndianRoundTrip(n / 256, k - 1);
    }
  }

  lemma {:induction false} FromBigEndianRoundTrip(b: Bytes)
    ensures FromBigEndian(b) < Pow256(|b|) && BigEndian(FromBigEndian(b), |b|) == b
  {
    if b != [] {
      var k := |b| - 1;
      var high := FromBigEndian(b[..k]);
      FromBigEndianRoundTrip(b[..k]);
      assert FromBigEndian(b) / 256 == high && FromBigEndian(b) % 256 == b[k] as int;
      assert b == b[..k] + [b[k]];
    }
  }

  function Deframe<T>(decode: Bytes -> Option<T>, bytes: Bytes): Deframed<T> {
    if |bytes| < PREFIX then TruncatedPrefix
    else
      var len := FromBigEndian(bytes[..PREFIX]);
      if len > SYNC_MAX_MSG then OverCap
      else if |bytes| < PREFIX + len then TruncatedBody
      else
        match decode(bytes[PREFIX..PREFIX + len])
        case Some(msg) => Ok(msg, PREFIX + len)
        case None => BadBody
  }

  lemma CapFitsPrefix()
    ensures SYNC_MAX_MSG < Pow256(PREFIX)
  {
    assert Pow256(2) == 0x1_0000;
    assert Pow256(4) == 256 * (256 * Pow256(2));
  }

  /** Reading consumes exactly the one frame at the front, whatever follows. */
  lemma DeframeFrame<T(!new)>(encode: T -> Bytes, decode: Bytes -> Option<T>, msg: T, rest: Bytes)
    requires Inverse(encode, decode) && Fits(encode, msg)
    ensures Deframe(decode, Frame(encode(msg)) + rest) == Ok(msg, |Frame(encode(msg))|)
  {
    var body := encode(msg);
    var bytes := Frame(body) + rest;
    CapFitsPrefix();
    BigEndianRoundTrip(|body|, PREFIX);
    assert bytes[..PREFIX] == BigEndian(|body|, PREFIX);
    assert bytes[PREFIX..PREFIX + |body|] == body;
  }

  /** No proper prefix of a frame is accepted. */
  lemma PrefixIsTruncated<T(!new)>(encode: T -> Bytes, decode: Bytes -> Option<T>, msg: T, n: nat)
    requires Fits(encode, msg) && n < |Frame(encode(msg))|
    ensures Deframe(decode, Frame(encode(msg))[..n]) == if n < PREFIX then TruncatedPrefix else TruncatedBody
  {
    var body := encode(msg);
    if n >= PREFIX {
      CapFitsPrefix();
      BigEndianRoundTrip(|body|, PREFIX);
      assert Frame(body)[..n][..PREFIX] == BigEndian(|body|, PREFIX);
    }
  }

  /** The front of `bytes` is a frame of `n` bytes holding `msg`. */
  ghost predicate StartsWithFrame<T>(decode: Bytes -> Option<T>, bytes: Bytes, msg: T, n: nat) {
    exists body: Bytes :: |body| <= SYNC_MAX_MSG && n == |Frame(body)| && Frame(body) <= bytes && decode(body) == Some(msg)
  }

  /** What is accepted is exactly a frame at the front. */
  lemma AcceptsExactlyFrames<T(!new)>(decode: Bytes -> Option<T>, bytes: Bytes, msg: T, n: nat)
    ensures Deframe(decode, bytes) == Ok(msg, n) <==> StartsWithFrame(decode, bytes, msg, n)
  {
    CapFitsPrefix();
    if Deframe(decode, bytes) == Ok(msg, n) {
      var body := bytes[PREFIX..n];
      FromBigEndianRoundTrip(bytes[..PREFIX]);
      assert Frame(body) == bytes[..n];
    }
    if StartsWithFrame(decode, bytes, msg, n) {
      var body :| |body| <= SYNC_MAX_MSG && n == |Frame(body)| && Frame(body) <= bytes && decode(body) == Some(msg);
      BigEndianRoundTrip(|body|, PREFIX);
      assert bytes[..PREFIX] == Frame(body)[..PREFIX] == BigEndian(|body|, PREFIX);
      assert bytes[PREFIX..n] == Frame(body)[PREFIX..] == body;
    }
  }

  /** Which error is given, by the length the prefix declares: too few bytes for
      a prefix, then the cap, then a body cut short, then a body that does not
      decode. */
  lemma ErrorsInOrder<T(!new)>(decode: Bytes -> Option<T>, bytes: Bytes, len: nat)
    requires len < Pow256(PREFIX) && (|bytes| >= PREFIX ==> bytes[..PREFIX] == BigEndian(len, PREFIX))
    ensures Deframe(decode, bytes).TruncatedPrefix? <==> |bytes| < PREFIX
    ensures Deframe(decode, bytes).OverCap? <==> |bytes| >= PREFIX && len > SYNC_MAX_MSG
    ensures Deframe(decode, bytes).TruncatedBody? <==> PREFIX <= |bytes| < PREFIX + len && len <= SYNC_MAX_MSG
    ensures Deframe(decode, bytes).BadBody? <==>
              |bytes| >= PREFIX + len && len <= SYNC_MAX_MSG && decode(bytes[PREFIX..PREFIX + len]).None?
  {
    BigEndianRoundTrip(len, PREFIX);
  }

  // ---- streams of frames ----

  function Frames<T>(encode: T -> Bytes, msgs: seq<T>): Bytes {
    if msgs == [] then [] else Frame(encode(msgs[0])) + Frames(encode, msgs[1..])
  }

  predicate AllFit<T>(encode: T -> Bytes, msgs: seq<T>) {
    forall i :: 0 <= i < |msgs| ==> Fits(encode, msgs[i])
  }

  lemma {:induction false} FramesAppend<T>(encode: T -> Bytes, a: seq<T>, b: seq<T>)
    ensures Frames(encode, a + b) == Frames(encode, a) + Frames(encode, b)
  {
    if a == [] {
      assert a + b == b;
    } else {
      assert (a + b)[1..] == a[1..] + b;
      FramesAppend(encode, a[1..], b);
    }
  }

  /** The sending half of a stream. */
  class Sender<T> {
    const encode: T -> Bytes
    var bytes: Bytes

    constructor (encode: T -> Bytes)
      ensures this.encode == encode && bytes == []
    {
      this.encode := encode;
      bytes := [];
    }

    /** Nothing is written when the body is over the cap. */
    method Write(msg: T) returns (ok: bool)
      modifies this`bytes
      ensures ok <==> Fits(encode, msg)
      ensures bytes == if ok then old(bytes) + Frame(encode(msg)) else old(bytes)
    {
      var body := encode(msg);
      if |body| > SYNC_MAX_MSG {
        return false;
      }
      var out := BigEndian(|body|, PREFIX);
      out := out + body;
      bytes := bytes + out;
      return true;
    }
  }
}
