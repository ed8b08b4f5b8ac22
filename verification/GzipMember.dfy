/** A gzip member without its header, as section 2.3 of RFC 1952 lays it out: the deflate stream up to a whole byte, the checksum and
    the length of the data. It meets exactly what the decompressor asks for. */
module GzipMember {
  import opened Bits
  import opened BitReader
  import opened Crc
  import opened Deflate
  import opened DeflateStream
  import Inflate

  /** The low 32 bits of a number as four bytes, the least significant first. */
  function FourBytes(x: nat): (r: seq<nat>)
    ensures |r| == 4
  {
    BytesOf(LsbBits(x, 32), 4)
  }

  ghost function Member(ps: seq<Part>): seq<nat>
    requires ps != [] && PartsOk(ps, [])
  {
    var bits := StreamBits(ps, [], 0);
    var whole := bits + Padding(|bits|);
    var out := SpellParts([], ps);
    BytesOf(whole, |whole| / 8) + FourBytes(Lsb(Checksum(out))) + FourBytes(|out|)
  }

  lemma {:induction false} StreamConcat(a: seq<nat>, b: seq<nat>)
    ensures ByteStream(a + b) == ByteStream(a) + ByteStream(b)
    decreases |a|
  {
    hide LsbBits;
    if a == [] {
      assert a + b == b;
    } else {
      StreamConcat(a[1..], b);
      assert (a + b)[1..] == a[1..] + b;
    }
  }

  lemma {:induction false} StreamOfBytes(bits: seq<bool>, n: nat)
    requires |bits| == 8 * n
    ensures ByteStream(BytesOf(bits, n)) == bits
    decreases n
  {
    if n > 0 {
      var b := Lsb(bits[..8]);
      StreamOfBytes(bits[8..], n - 1);
      LsbBound(bits[..8]);
      LsbOfBits(b, 8);
      LsbInjective(LsbBits(b, 8), bits[..8]);
      assert BytesOf(bits, n)[1..] == BytesOf(bits[8..], n - 1);
      assert bits == bits[..8] + bits[8..];
    }
  }

  lemma {:induction false} LowBits(x: nat, n: nat)
    ensures Lsb(LsbBits(x, n)) == x % Pow2(n)
  {
    if n > 0 {
      LowBits(x / 2, n - 1);
      RestHalf(x, Pow2(n - 1));
      assert LsbBits(x, n)[1..] == LsbBits(x / 2, n - 1);
    }
  }

  lemma RestHalf(x: nat, m: nat)
    requires m >= 1
    ensures x % (2 * m) % 2 == x % 2 && x % (2 * m) / 2 == x / 2 % m
  {
    var q, r := x / (2 * m), x % (2 * m);
    assert x == 2 * (m * q) + r;
    assert x / 2 == m * q + r / 2;
    Quotient(m, q, r / 2);
  }

  /** What unzip asks of its input for the output out: the stream, and behind it the checksum and the length. */
  ghost predicate Unzips(data: seq<nat>, out: seq<nat>) {
    var r := Decode(ByteStream(data), []);
    r.Ok? && r.out == out && |r.rest| >= 64 && Inflate.Trailer(data, |data| - |r.rest| / 8, out)
  }

  lemma TrailerAt(body: seq<nat>, out: seq<nat>)
    ensures Inflate.Trailer(body + FourBytes(Lsb(Checksum(out))) + FourBytes(|out|), |body|, out)
  {
    hide Checksum, BytesOf, Lsb, LsbBits, ByteStream;
    var crc, len := FourBytes(Lsb(Checksum(out))), FourBytes(|out|);
    var data := body + crc + len;
    StreamOfBytes(LsbBits(Lsb(Checksum(out)), 32), 4);
    StreamOfBytes(LsbBits(|out|, 32), 4);
    assert data[|body|..|body| + 4] == crc && data[|body| + 4..|body| + 8] == len;
    ChecksumBits(Checksum(out));
    LengthBits(|out|);
  }

  /** Every member that is written so satisfies the conditions under which unzip is proved to give the data back. */
  lemma MemberUnzips(ps: seq<Part>)
    requires ps != [] && PartsOk(ps, [])
    ensures Unzips(Member(ps), SpellParts([], ps))
  {
    hide StreamBits, SpellParts, Checksum, Decode, BytesOf, Lsb, FourBytes, ByteStream, Padding, Inflate.Trailer, PartsOk;
    var bits, out := StreamBits(ps, [], 0), SpellParts([], ps);
    var pad := Padding(|bits|);
    var whole := bits + pad;
    var body := BytesOf(whole, |whole| / 8);
    var crc, len := FourBytes(Lsb(Checksum(out))), FourBytes(|out|);
    StreamOfBytes(whole, |whole| / 8);
    StreamConcat(body + crc, len);
    StreamConcat(body, crc);
    StreamLength(crc);
    StreamLength(len);
    var rest := pad + (ByteStream(crc) + ByteStream(len));
    assert ByteStream(body + crc + len) == bits + rest;
    StreamRead(ps, [], 0, rest);
    TrailerAt(body, out);
    assert |rest| / 8 == 8;
  }

  lemma ChecksumBits(c: Reg)
    ensures LsbBits(Lsb(c), 32) == c
  {
    LsbBound(c);
    LsbOfBits(Lsb(c), 32);
    LsbInjective(LsbBits(Lsb(c), 32), c);
  }

  lemma LengthBits(n: nat)
    ensures Lsb(LsbBits(n, 32)) == n % 0x1_0000_0000
  {
    Pow2Add(16, 16);
    Sixteen();
    LowBits(n, 32);
  }
}
