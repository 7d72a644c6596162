/** Node's hexadecimal codec for buffers: `buf.toString('hex')` and
    `hmac.digest('hex')` encode (lower-case), `Buffer.from(s, 'hex')` decodes.
    The decoder is lenient: it reads two digits at a time, accepts either
    case, and stops silently at the first pair holding a non-digit (so a
    trailing odd digit is dropped). */
module Hex {
  import opened Wrappers
  import opened Bytes

  /** The lower-case digit for a value below 16. */
  function Digit(n: nat): char
    requires n < 16
  {
    if n < 10 then ('0' as int + n) as char else ('a' as int + n - 10) as char
  }

  /** The upper-case digit for a value below 16. */
  function UpperDigit(n: nat): char
    requires n < 16
  {
    if n < 10 then Digit(n) else ('A' as int + n - 10) as char
  }

  /** The value of one hexadecimal digit of either case, if it is one: the
      value whose lower- or upper-case digit the character is. */
  function Value(c: char): (r: Option<nat>)
    ensures r.Some? <==> ('0' <= c <= '9' || 'a' <= c <= 'f' || 'A' <= c <= 'F')
    ensures r.Some? ==> r.value < 16 && (c == Digit(r.value) || c == UpperDigit(r.value))
  {
    if '0' <= c <= '9' then Some(c as int - '0' as int)
    else if 'a' <= c <= 'f' then Some(c as int - 'a' as int + 10)
    else if 'A' <= c <= 'F' then Some(c as int - 'A' as int + 10)
    else None
  }

  function EncodeByte(b: bv8): (r: string)
    ensures |r| == 2
  {
    [Digit(b as int / 16), Digit(b as int % 16)]
  }

  function Encode(s: Bytes): (r: string)
    ensures |r| == 2 * |s|
  {
    if s == [] then [] else EncodeByte(s[0]) + Encode(s[1..])
  }

  function Decode(s: string): (r: Bytes)
    ensures |r| <= |s| / 2
  {
    if |s| < 2 then []
    else match (Value(s[0]), Value(s[1]))
      case (Some(hi), Some(lo)) => [(hi * 16 + lo) as bv8] + Decode(s[2..])
      case _ => []
  }

  /** Both digits of a value read back as that value. */
  lemma DigitValue(n: nat)
    requires n < 16
    ensures Value(Digit(n)) == Some(n) && Value(UpperDigit(n)) == Some(n)
  {
  }

  /** What `Buffer.from(s, 'hex')` yields when the first `k` pairs of `s` are
      digits of either case and pair `k` is incomplete or holds a non-digit:
      exactly `k` bytes, each the value of its pair. */
  lemma {:induction false} DecodeDigitPairs(s: string, k: nat)
    requires 2 * k <= |s|
    requires forall i :: 0 <= i < 2 * k ==> Value(s[i]).Some?
    requires |s| <= 2 * k + 1 || Value(s[2 * k]).None? || Value(s[2 * k + 1]).None?
    ensures |Decode(s)| == k
    ensures forall i :: 0 <= i < k ==>
              Decode(s)[i] == (Value(s[2 * i]).value * 16 + Value(s[2 * i + 1]).value) as bv8
  {
    if k > 0 {
      assert Value(s[0]).Some? && Value(s[1]).Some?;
      var t := s[2..];
      forall i | 0 <= i < 2 * (k - 1) ensures Value(t[i]).Some? {
        assert t[i] == s[i + 2];
      }
      DecodeDigitPairs(t, k - 1);
      forall i | 0 <= i < k
        ensures Decode(s)[i] == (Value(s[2 * i]).value * 16 + Value(s[2 * i + 1]).value) as bv8
      {
        if i > 0 {
          assert s[2 * i] == t[2 * (i - 1)] && s[2 * i + 1] == t[2 * (i - 1) + 1];
        }
      }
    }
  }

  lemma ByteRoundTrip(b: bv8)
    ensures ((b as int / 16) * 16 + b as int % 16) as bv8 == b
  {
  }

  /** The two digits of an encoded byte read back as its two halves. */
  lemma EncodeByteValues(b: bv8)
    ensures Value(EncodeByte(b)[0]) == Some(b as int / 16)
    ensures Value(EncodeByte(b)[1]) == Some(b as int % 16)
  {
    DigitValue(b as int / 16);
    DigitValue(b as int % 16);
  }

  /** Decoding what was encoded gives the bytes back. */
  lemma {:induction false} DecodeEncode(s: Bytes)
    ensures Decode(Encode(s)) == s
  {
    if s != [] {
      var e := Encode(s);
      var head := EncodeByte(s[0]);
      assert e == head + Encode(s[1..]);
      assert e[0] == head[0] && e[1] == head[1] && e[2..] == Encode(s[1..]);
      EncodeByteValues(s[0]);
      ByteRoundTrip(s[0]);
      DecodeEncode(s[1..]);
      assert Decode(e) == [s[0]] + Decode(e[2..]);
    }
  }

  /** Comparing hex encodings compares the bytes: the MAC check on hex strings
      accepts exactly when the MAC bytes are equal. */
  lemma EncodeInjective(a: Bytes, b: Bytes)
    ensures Encode(a) == Encode(b) <==> a == b
  {
    if Encode(a) == Encode(b) {
      DecodeEncode(a);
      DecodeEncode(b);
    }
  }
}
