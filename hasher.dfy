/** The content hash used as the deduplication key (src/utils/hasher.ts).
    The SHA-256 digest itself is a platform call and is a parameter here; what
    is modelled is the encoding of the digest bytes as lower-case hex. */
module Hasher {
  import opened FontTypes

  /** A lower-case hexadecimal digit, `0-9a-f`. */
  predicate IsHexDigit(c: char) {
    '0' <= c <= '9' || 'a' <= c <= 'f'
  }

  /** The digit for a value below 16. */
  function HexDigit(v: nat): (c: char)
    requires v < 16
    ensures IsHexDigit(c)
  {
    if v < 10 then ('0' as int + v) as char else ('a' as int + v - 10) as char
  }

  /** Value of one lower-case hex digit. */
  function DigitValue(c: char): (v: nat)
    requires IsHexDigit(c)
    ensures v < 16 && HexDigit(v) == c
  {
    if '0' <= c <= '9' then c as int - '0' as int else c as int - 'a' as int + 10
  }

  /** `b.toString(16).padStart(2, '0')`. */
  function HexByte(b: Byte): (r: string)
    ensures |r| == 2 && IsHexDigit(r[0]) && IsHexDigit(r[1])
    ensures DigitValue(r[0]) * 16 + DigitValue(r[1]) == b
  {
    [HexDigit(b / 16), HexDigit(b % 16)]
  }

  /** `bytes.map(b => b.toString(16).padStart(2, '0')).join('')`. */
  function ToHex(bytes: seq<Byte>): (r: string)
    ensures |r| == 2 * |bytes|
    ensures forall i :: 0 <= i < |r| ==> IsHexDigit(r[i])
    decreases |bytes|
  {
    if bytes == [] then "" else HexByte(bytes[0]) + ToHex(bytes[1..])
  }

  /** Reads the hex text back into bytes: the inverse of `ToHex`. */
  function FromHex(s: string): seq<Byte>
    requires |s| % 2 == 0
    requires forall i :: 0 <= i < |s| ==> IsHexDigit(s[i])
    decreases |s|
  {
    if s == [] then [] else [DigitValue(s[0]) * 16 + DigitValue(s[1])] + FromHex(s[2..])
  }

  /** Decoding the encoding gives back the digest bytes. */
  lemma {:induction false} HexRoundTrip(bytes: seq<Byte>)
    ensures FromHex(ToHex(bytes)) == bytes
    decreases |bytes|
  {
    if bytes != [] {
      var s := ToHex(bytes);
      assert s == HexByte(bytes[0]) + ToHex(bytes[1..]);
      assert s[2..] == ToHex(bytes[1..]);
      HexRoundTrip(bytes[1..]);
    }
  }

  /** The encoding spelled out position by position: characters `2k` and
      `2k + 1` are the two digits of byte `k`. */
  lemma {:induction false} HexAt(bytes: seq<Byte>, k: nat)
    requires k < |bytes|
    ensures ToHex(bytes)[2 * k..2 * k + 2] == HexByte(bytes[k])
    decreases k
  {
    if k > 0 {
      HexAt(bytes[1..], k - 1);
      assert ToHex(bytes)[2..] == ToHex(bytes[1..]);
    }
  }

  /** Equal hash strings come from equal digests. */
  lemma HexInjective(a: seq<Byte>, b: seq<Byte>)
    requires ToHex(a) == ToHex(b)
    ensures a == b
  {
    HexRoundTrip(a);
    HexRoundTrip(b);
  }

  /** What `computeFileHash` accepts: an `ArrayBuffer` is digested directly, a
      `Blob` or `File` is first read into its bytes. */
  datatype Payload = RawBuffer(bytes: seq<Byte>) | BlobLike(file: File) {
    function Bytes(): seq<Byte> {
      match this
      case RawBuffer(b) => b
      case BlobLike(f) => f.bytes
    }
  }

  /** `computeFileHash`; `digest` stands for `crypto.subtle.digest('SHA-256', _)`. */
  function ComputeFileHash(p: Payload, digest: seq<Byte> -> seq<Byte>): (r: string)
    ensures |r| == 2 * |digest(p.Bytes())|
    ensures forall i :: 0 <= i < |r| ==> IsHexDigit(r[i])
    ensures FromHex(r) == digest(p.Bytes())
  {
    HexRoundTrip(digest(p.Bytes()));
    ToHex(digest(p.Bytes()))
  }

  /** The same bytes hash alike whether handed over as a buffer or as a file. */
  lemma HashIgnoresWrapper(f: File, digest: seq<Byte> -> seq<Byte>)
    ensures ComputeFileHash(BlobLike(f), digest) == ComputeFileHash(RawBuffer(f.bytes), digest)
  {
  }

  /** Equal hash strings imply equal digests. */
  lemma HashDeterminesDigest(p: Payload, q: Payload, digest: seq<Byte> -> seq<Byte>)
    requires ComputeFileHash(p, digest) == ComputeFileHash(q, digest)
    ensures digest(p.Bytes()) == digest(q.Bytes())
  {
    assert FromHex(ComputeFileHash(p, digest)) == digest(p.Bytes());
  }
}
