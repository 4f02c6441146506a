/** The hashing helpers of src/utils/passwordUtils.js: a password's digest
    written as lower-case hexadecimal, two characters per byte, and
    verification as equality of those strings. The digest itself (SHA-256 of
    the UTF-8 encoding) is the parameter `digest`. */
module Passwords {
  import opened Js

  newtype Byte = x: int | 0 <= x < 256

  /** One byte as two lower-case hexadecimal digits, high digit first. */
  function HexByte(b: Byte): (r: string)
    ensures |r| == 2 && IsLowerHexDigit(r[0]) && IsLowerHexDigit(r[1])
    ensures HexDigitValue(r[0]) * 16 + HexDigitValue(r[1]) == b as int
  {
    DigitCharHex(b as int / 16);
    DigitCharHex(b as int % 16);
    [DigitChar(b as int / 16), DigitChar(b as int % 16)]
  }

  /** HexByte is what the source writes, `b.toString(16).padStart(2, '0')`. */
  lemma HexBytePadded(b: Byte)
    ensures HexByte(b) == PadStart(IntToString(b as int, 16), 2, '0')
  {
    var n := b as int;
    var q, m := n / 16, n % 16;
    assert n == q * 16 + m;
    assert q < 16;
    var digits := IntToString(n, 16);
    if n < 16 {
      DivModUnique(n, 16, 0, n);
      assert digits == [DigitChar(n)];
      assert PadStart(digits, 2, '0') == seq(1, _ => '0') + digits;
    } else {
      assert NatToString(q, 16) == [DigitChar(q)];
      assert digits == [DigitChar(q)] + [DigitChar(m)];
    }
  }

  /** `hashArray.map(b => ...).join('')`. */
  function ToHex(bytes: seq<Byte>): (r: string)
    ensures |r| == 2 * |bytes|
  {
    if bytes == [] then ""
    else HexByte(bytes[0]) + ToHex(bytes[1..])
  }

  /** Byte `k` of the digest is written at positions `2k` and `2k + 1`. */
  lemma {:induction false} ToHexAt(bytes: seq<Byte>, k: nat)
    requires k < |bytes|
    ensures ToHex(bytes)[2 * k..2 * k + 2] == HexByte(bytes[k])
    decreases k
  {
    var h, rest := HexByte(bytes[0]), ToHex(bytes[1..]);
    assert ToHex(bytes) == h + rest;
    if k > 0 {
      ToHexAt(bytes[1..], k - 1);
      assert ToHex(bytes)[2 * k..2 * k + 2] == rest[2 * (k - 1)..2 * (k - 1) + 2];
    }
  }

  /** So every character of the encoding is a lower-case hexadecimal digit. */
  lemma ToHexLowerCase(bytes: seq<Byte>)
    ensures forall i :: 0 <= i < |ToHex(bytes)| ==> IsLowerHexDigit(ToHex(bytes)[i])
  {
    forall i | 0 <= i < |ToHex(bytes)| ensures IsLowerHexDigit(ToHex(bytes)[i]) {
      var k := i / 2;
      ToHexAt(bytes, k);
      assert ToHex(bytes)[i] == ToHex(bytes)[2 * k..2 * k + 2][i - 2 * k];
    }
  }

  /** Reads an even-length hexadecimal string back, two characters a byte. */
  function FromHex(s: string): (r: seq<Byte>)
    requires |s| % 2 == 0
    ensures |r| == |s| / 2
  {
    if s == [] then []
    else [(HexDigitValue(s[0]) * 16 + HexDigitValue(s[1])) as Byte] + FromHex(s[2..])
  }

  /** Each two-character chunk reads back as its byte, so the encoding round-trips. */
  lemma {:induction false} FromToHex(bytes: seq<Byte>)
    ensures FromHex(ToHex(bytes)) == bytes
  {
    if bytes != [] {
      var s := ToHex(bytes);
      assert s == HexByte(bytes[0]) + ToHex(bytes[1..]);
      assert s[2..] == ToHex(bytes[1..]);
      FromToHex(bytes[1..]);
      assert bytes == [bytes[0]] + bytes[1..];
    }
  }

  /** Different digests give different strings. */
  lemma ToHexInjective(a: seq<Byte>, b: seq<Byte>)
    ensures ToHex(a) == ToHex(b) <==> a == b
  {
    if ToHex(a) == ToHex(b) {
      FromToHex(a);
      FromToHex(b);
    }
  }

  /** hashPassword(password). */
  function HashPassword(digest: string -> seq<Byte>, password: string): (r: string)
    ensures |r| == 2 * |digest(password)|
    ensures forall i :: 0 <= i < |r| ==> IsLowerHexDigit(r[i])
  {
    ToHexLowerCase(digest(password));
    ToHex(digest(password))
  }

  /** verifyPassword(password, hash). */
  predicate VerifyPassword(digest: string -> seq<Byte>, password: string, hash: string) {
    HashPassword(digest, password) == hash
  }

  /** A password verifies against its own hash. */
  lemma VerifyOwnHash(digest: string -> seq<Byte>, password: string)
    ensures VerifyPassword(digest, password, HashPassword(digest, password))
  {
  }

  /** A password verifies against another's hash exactly when the two have
      the same digest. */
  lemma VerifyIffSameDigest(digest: string -> seq<Byte>, password: string, other: string)
    ensures VerifyPassword(digest, password, HashPassword(digest, other)) <==> digest(password) == digest(other)
  {
    ToHexInjective(digest(password), digest(other));
  }
}
