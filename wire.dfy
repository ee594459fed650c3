/**
 * Wire format of one telemetry datagram: three signed 32-bit integers, one
 * per channel, packed back to back with no header.  numpy's `frombuffer`
 * reads them in the host's native byte order; this model fixes that order
 * to little-endian (least significant byte first).
 */
module Wire {

  type byte = x: int | 0 <= x < 256

  /** Number of channel values in one datagram. */
  const ChannelCount: nat := 3
  /** Size in bytes of one `int32` word. */
  const WordSize: nat := 4
  /** Size in bytes of one datagram payload (`recvfrom(12)`). */
  const PayloadSize: nat := 12

  const TwoTo31: int := 0x8000_0000
  const TwoTo32: int := 0x1_0000_0000

  predicate IsInt32(v: int) {
    -TwoTo31 <= v < TwoTo31
  }

  /** 256 to the power n: one more than the largest n-byte unsigned value. */
  function Pow256(n: nat): (p: nat)
    ensures p > 0
  {
    if n == 0 then 1 else 256 * Pow256(n - 1)
  }

  /** Unsigned value of a little-endian byte string. */
  function FromLE(b: seq<byte>): (u: nat)
    ensures u < Pow256(|b|)
  {
    if b == [] then 0
    else
      var rest := FromLE(b[1..]);
      assert rest <= Pow256(|b| - 1) - 1;
      b[0] + 256 * rest
  }

  /** The n least significant bytes of u, least significant first. */
  function ToLE(u: nat, n: nat): (b: seq<byte>)
    ensures |b| == n
  {
    if n == 0 then [] else [u % 256] + ToLE(u / 256, n - 1)
  }

  /** Writing the n low bytes of a value that fits in n bytes and reading them back gives the value. */
  lemma {:induction false} FromLEToLE(u: nat, n: nat)
    requires u < Pow256(n)
    ensures FromLE(ToLE(u, n)) == u
  {
    if n > 0 {
      assert u / 256 < Pow256(n - 1);
      FromLEToLE(u / 256, n - 1);
      assert ToLE(u, n)[1..] == ToLE(u / 256, n - 1);
    }
  }

  /** Reading a byte string and writing the value back as that many bytes gives the byte string. */
  lemma {:induction false} ToLEFromLE(b: seq<byte>)
    ensures ToLE(FromLE(b), |b|) == b
  {
    if b != [] {
      ToLEFromLE(b[1..]);
      var u := FromLE(b);
      assert u % 256 == b[0] && u / 256 == FromLE(b[1..]);
    }
  }

  /** Two's-complement reading of a 32-bit unsigned word. */
  function ToSigned(u: nat): (v: int)
    requires u < TwoTo32
    ensures IsInt32(v)
    ensures v < 0 <==> u >= TwoTo31
    ensures v == u || v == u - TwoTo32
  {
    if u < TwoTo31 then u else u - TwoTo32
  }

  /** Two's-complement bit pattern of a 32-bit signed value, as an unsigned word. */
  function ToUnsigned(v: int): (u: nat)
    requires IsInt32(v)
    ensures u < TwoTo32
    ensures ToSigned(u) == v
  {
    if v < 0 then v + TwoTo32 else v
  }

  /** Four bytes hold exactly the 32-bit words. */
  lemma Pow256Of4()
    ensures Pow256(WordSize) == TwoTo32
  {
  }

  /** The unsigned value of a four-byte word, written out byte by byte. */
  lemma {:induction false} FromLEOfWord(w: seq<byte>)
    requires |w| == WordSize
    ensures FromLE(w) == w[0] as int + w[1] as int * 256 + w[2] as int * 65536 + w[3] as int * 16777216
  {
    assert w[1..][1..][1..][1..] == [];
    assert FromLE(w[1..][1..][1..]) == w[3];
    assert FromLE(w[1..][1..]) == w[2] as int + w[3] as int * 256;
    assert FromLE(w[1..]) == w[1] as int + 256 * (w[2] as int + w[3] as int * 256);
  }

  /** One `int32` read from four little-endian bytes. */
  function DecodeInt32(w: seq<byte>): (v: int)
    requires |w| == WordSize
    ensures IsInt32(v)
    ensures v < 0 <==> w[3] >= 128
    ensures v == w[0] as int + w[1] as int * 256 + w[2] as int * 65536 + w[3] as int * 16777216 - (if w[3] >= 128 then TwoTo32 else 0)
  {
    Pow256Of4();
    FromLEOfWord(w);
    ToSigned(FromLE(w))
  }

  /** The four little-endian bytes of an `int32`. */
  function EncodeInt32(v: int): (w: seq<byte>)
    requires IsInt32(v)
    ensures |w| == WordSize
  {
    ToLE(ToUnsigned(v), WordSize)
  }

  lemma DecodeEncodeInt32(v: int)
    requires IsInt32(v)
    ensures DecodeInt32(EncodeInt32(v)) == v
  {
    Pow256Of4();
    FromLEToLE(ToUnsigned(v), WordSize);
  }

  lemma EncodeDecodeInt32(w: seq<byte>)
    requires |w| == WordSize
    ensures EncodeInt32(DecodeInt32(w)) == w
  {
    Pow256Of4();
    ToLEFromLE(w);
    var u := FromLE(w);
    assert ToUnsigned(ToSigned(u)) == u;
  }

  /** The payload bytes that carry channel j. */
  function Word(payload: seq<byte>, j: nat): (w: seq<byte>)
    requires |payload| == PayloadSize && j < ChannelCount
    ensures |w| == WordSize
  {
    payload[WordSize * j .. WordSize * (j + 1)]
  }

  predicate IsSample(vals: seq<int>) {
    |vals| == ChannelCount && forall j :: 0 <= j < |vals| ==> IsInt32(vals[j])
  }

  /** The datagram that carries the given three channel values. */
  function Encode(vals: seq<int>): (payload: seq<byte>)
    requires IsSample(vals)
    ensures |payload| == PayloadSize
  {
    EncodeInt32(vals[0]) + EncodeInt32(vals[1]) + EncodeInt32(vals[2])
  }

  /**
   * `np.frombuffer(raw_data, dtype=np.int32)` on a 12-byte payload: three
   * signed 32-bit values, value j taken from bytes 4j..4j+3.  The payload
   * is exactly the encoding of the result, so no two payloads decode alike.
   */
  function Decode(payload: seq<byte>): (vals: seq<int>)
    requires |payload| == PayloadSize
    ensures IsSample(vals)
    ensures forall j :: 0 <= j < ChannelCount ==> vals[j] == DecodeInt32(Word(payload, j))
    ensures Encode(vals) == payload
  {
    var vals := [DecodeInt32(payload[0..4]), DecodeInt32(payload[4..8]), DecodeInt32(payload[8..12])];
    assert Word(payload, 0) == payload[0..4];
    assert Word(payload, 1) == payload[4..8];
    assert Word(payload, 2) == payload[8..12];
    EncodeDecodeInt32(payload[0..4]);
    EncodeDecodeInt32(payload[4..8]);
    EncodeDecodeInt32(payload[8..12]);
    assert payload == payload[0..4] + payload[4..8] + payload[8..12];
    vals
  }

  /** Decoding the encoding of any three `int32` values gives them back. */
  lemma DecodeEncode(vals: seq<int>)
    requires IsSample(vals)
    ensures Decode(Encode(vals)) == vals
  {
    var p := Encode(vals);
    assert p[0..4] == EncodeInt32(vals[0]);
    assert p[4..8] == EncodeInt32(vals[1]);
    assert p[8..12] == EncodeInt32(vals[2]);
    DecodeEncodeInt32(vals[0]);
    DecodeEncodeInt32(vals[1]);
    DecodeEncodeInt32(vals[2]);
  }
}
