/** Unsigned integers as little-endian byte strings: the payload format of
    the clock's time-sync frames (a 4-byte `time_t`, least significant
    byte first). */
module LittleEndian {

  /** One octet on the serial line. */
  type Byte = b: int | 0 <= b < 256

  /** Size of the epoch payload: a 32-bit `time_t`. */
  const PAYLOAD_LEN: nat := 4

  /** 2^32, the first epoch that no longer fits the payload. */
  const UINT32_LIMIT: nat := 0x1_0000_0000

  function Pow256(k: nat): (r: nat)
    ensures r >= 1
  {
    if k == 0 then 1 else 256 * Pow256(k - 1)
  }

  lemma Pow256Of4()
    ensures Pow256(PAYLOAD_LEN) == UINT32_LIMIT
  {
  }

  /** The k low-order base-256 digits of x, least significant first. */
  function EncodeLE(x: nat, k: nat): (r: seq<Byte>)
    ensures |r| == k
  {
    if k == 0 then [] else [x % 256] + EncodeLE(x / 256, k - 1)
  }

  /** The number whose base-256 digits, least significant first, are b. */
  function DecodeLE(b: seq<Byte>): (r: nat)
    ensures r < Pow256(|b|)
  {
    if |b| == 0 then 0 else b[0] + 256 * DecodeLE(b[1..])
  }

  /** Encoding a number that fits in k bytes and decoding it gives it back. */
  lemma {:induction false} DecodeEncodeLE(x: nat, k: nat)
    requires x < Pow256(k)
    ensures DecodeLE(EncodeLE(x, k)) == x
  {
    if k > 0 {
      DecodeEncodeLE(x / 256, k - 1);
      assert EncodeLE(x, k)[1..] == EncodeLE(x / 256, k - 1);
    }
  }

  /** Every byte string is the encoding of the number it decodes to. */
  lemma {:induction false} EncodeDecodeLE(b: seq<Byte>)
    ensures EncodeLE(DecodeLE(b), |b|) == b
  {
    if |b| > 0 {
      EncodeDecodeLE(b[1..]);
      var x := DecodeLE(b);
      assert x % 256 == b[0] && x / 256 == DecodeLE(b[1..]);
    }
  }

  /** DecodeLE written out positionally for a 4-byte payload. */
  lemma DecodeLEPositional(b: seq<Byte>)
    requires |b| == PAYLOAD_LEN
    ensures DecodeLE(b) == b[0] as int + 0x100 * b[1] as int + 0x1_0000 * b[2] as int + 0x100_0000 * b[3] as int
  {
    assert b[1..][1..][1..][1..] == [];
    assert DecodeLE(b[3..]) == b[3] by { assert b[3..][1..] == []; }
    assert DecodeLE(b[2..]) == b[2] as int + 256 * b[3] as int by { assert b[2..][1..] == b[3..]; }
    assert DecodeLE(b[1..]) == b[1] + 256 * DecodeLE(b[2..]) by { assert b[1..][1..] == b[2..]; }
  }

  /** The 4-byte little-endian payload of an epoch that fits in 32 bits:
      its bytes, least significant first, add up to the epoch. */
  function Encode32LE(epoch: int): (r: seq<Byte>)
    requires 0 <= epoch < UINT32_LIMIT
    ensures |r| == PAYLOAD_LEN
    ensures epoch == r[0] as int + 0x100 * r[1] as int + 0x1_0000 * r[2] as int + 0x100_0000 * r[3] as int
  {
    Pow256Of4();
    DecodeEncodeLE(epoch, PAYLOAD_LEN);
    DecodeLEPositional(EncodeLE(epoch, PAYLOAD_LEN));
    EncodeLE(epoch, PAYLOAD_LEN)
  }

  /** The epoch carried by a 4-byte little-endian payload: byte 0 is the
      least significant. */
  function Decode32LE(b: seq<Byte>): (r: nat)
    requires |b| == PAYLOAD_LEN
    ensures r < UINT32_LIMIT
    ensures r == b[0] as int + 0x100 * b[1] as int + 0x1_0000 * b[2] as int + 0x100_0000 * b[3] as int
  {
    Pow256Of4();
    DecodeLEPositional(b);
    DecodeLE(b)
  }

  /** A payload encodes an epoch exactly when it decodes to it: unpacking
      a packed epoch returns it, and packing an unpacked payload rebuilds it. */
  lemma PayloadRoundTrip(epoch: int, b: seq<Byte>)
    requires 0 <= epoch < UINT32_LIMIT && |b| == PAYLOAD_LEN
    ensures Decode32LE(Encode32LE(epoch)) == epoch
    ensures Encode32LE(epoch) == b <==> Decode32LE(b) == epoch
  {
    EncodeDecodeLE(b);
  }
}
