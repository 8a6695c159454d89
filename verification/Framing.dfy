/**
 The digest input of the processing cursor: every replay identity is encoded to bytes and
 written behind its own length, as eight big-endian bytes.
 */
module Framing {

  type byte = b: int | 0 <= b < 256

  const LENGTH_BYTES: nat := 8
  const LENGTH_LIMIT: nat := 0x1_0000_0000_0000_0000

  /** An encoded replay identity. `int.to_bytes(8)` raises on anything longer than this. */
  type Encoded = s: seq<byte> | |s| < LENGTH_LIMIT witness []

  function BigEndian(n: nat, width: nat): (r: seq<byte>)
    ensures |r| == width
  {
    if width == 0 then [] else BigEndian(n / 256, width - 1) + [n % 256]
  }

  function FromBigEndian(s: seq<byte>): nat {
    if s == [] then 0 else FromBigEndian(s[..|s| - 1]) * 256 + s[|s| - 1]
  }

  function Pow256(width: nat): nat {
    if width == 0 then 1 else 256 * Pow256(width - 1)
  }

  lemma {:induction false} BigEndianRoundTrip(n: nat, width: nat)
    requires n < Pow256(width)
    ensures FromBigEndian(BigEndian(n, width)) == n
  {
    if width > 0 {
      BigEndianRoundTrip(n / 256, width - 1);
      assert BigEndian(n, width)[..width - 1] == BigEndian(n / 256, width - 1);
    }
  }

  lemma EightBytesHoldEveryLength()
    ensures Pow256(LENGTH_BYTES) == LENGTH_LIMIT
  {
    assert Pow256(2) == 0x1_0000;
    assert Pow256(4) == 0x1_0000_0000;
    assert Pow256(6) == 0x1_0000_0000_0000;
  }

  function Frame(id: Encoded): (r: seq<byte>)
    ensures |r| == LENGTH_BYTES + |id|
  {
    BigEndian(|id|, LENGTH_BYTES) + id
  }

  function FrameAll(ids: seq<Encoded>): seq<byte> {
    if ids == [] then [] else Frame(ids[0]) + FrameAll(ids[1..])
  }

  /** The length prefix makes the first frame of two equal inputs the same frame. */
  lemma FirstFrameIsDetermined(a: Encoded, restA: seq<byte>, b: Encoded, restB: seq<byte>)
    requires Frame(a) + restA == Frame(b) + restB
    ensures a == b && restA == restB
  {
    var whole := Frame(a) + restA;
    assert whole[..LENGTH_BYTES] == BigEndian(|a|, LENGTH_BYTES);
    assert whole[..LENGTH_BYTES] == BigEndian(|b|, LENGTH_BYTES);
    EightBytesHoldEveryLength();
    BigEndianRoundTrip(|a|, LENGTH_BYTES);
    BigEndianRoundTrip(|b|, LENGTH_BYTES);
    assert whole[LENGTH_BYTES..LENGTH_BYTES + |a|] == a;
    assert whole[LENGTH_BYTES..LENGTH_BYTES + |b|] == b;
    assert whole[LENGTH_BYTES + |a|..] == restA;
    assert whole[LENGTH_BYTES + |b|..] == restB;
  }

  /** Two batches give the same digest input only if they are the same sequence of identities. */
  lemma {:induction false} FramingIsInjective(a: seq<Encoded>, b: seq<Encoded>)
    requires FrameAll(a) == FrameAll(b)
    ensures a == b
  {
    if a != [] && b != [] {
      FirstFrameIsDetermined(a[0], FrameAll(a[1..]), b[0], FrameAll(b[1..]));
      FramingIsInjective(a[1..], b[1..]);
      assert a == [a[0]] + a[1..] && b == [b[0]] + b[1..];
    }
  }

  /**
   SHA-256 taken as collision-free: a digest is a free constructor over its input, so equal digests
   mean equal inputs. Nothing else about the hash is used.
   */
  datatype Digest = Sha256(preimage: seq<byte>)
}
