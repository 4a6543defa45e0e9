/** Lowercase hexadecimal rendering of bytes, and the case-insensitive reader. */
module Hex {
  import opened Words
  import opened Wrappers

  function Digit(n: nat): char
    requires n < 16
  {
    if n < 10 then '0' + n as char else 'a' + (n - 10) as char
  }

  function DigitValue(c: char): Option<nat> {
    if '0' <= c <= '9' then Some((c - '0') as nat)
    else if 'a' <= c <= 'f' then Some((c - 'a') as nat + 10)
    else if 'A' <= c <= 'F' then Some((c - 'A') as nat + 10)
    else None
  }

  lemma DigitRoundTrip(n: nat)
    requires n < 16
    ensures DigitValue(Digit(n)) == Some(n)
  {
  }

  predicate IsLowerHexDigit(c: char) {
    '0' <= c <= '9' || 'a' <= c <= 'f'
  }

  predicate IsLowerHex(s: string) {
    forall i :: 0 <= i < |s| ==> IsLowerHexDigit(s[i])
  }

  function Encode(bytes: Bytes): (s: string)
    ensures |s| == 2 * |bytes|
    ensures IsLowerHex(s)
  {
    if bytes == [] then ""
    else [Digit(bytes[0] / 16), Digit(bytes[0] % 16)] + Encode(bytes[1..])
  }

  /** Accepts either case; refuses an odd length or a character that is not a hex digit. */
  function Decode(s: string): (r: Option<Bytes>)
    ensures r.Some? ==> |s| == 2 * |r.value|
  {
    if s == "" then Some([])
    else if |s| == 1 then None
    else match (DigitValue(s[0]), DigitValue(s[1]), Decode(s[2..]))
      case (Some(hi), Some(lo), Some(rest)) =>
        assert hi < 16 && lo < 16;
        Some([16 * hi + lo] + rest)
      case _ => None
  }

  lemma DecodeStep(s: string)
    requires |s| >= 2
    ensures Decode(s).Some? <==> DigitValue(s[0]).Some? && DigitValue(s[1]).Some? && Decode(s[2..]).Some?
    ensures Decode(s).Some? ==> DigitValue(s[0]).value < 16 && DigitValue(s[1]).value < 16
    ensures Decode(s).Some? ==>
      Decode(s).value == [16 * DigitValue(s[0]).value + DigitValue(s[1]).value] + Decode(s[2..]).value
  {
  }

  lemma EncodeCons(n: Byte, rest: Bytes, hi: nat, lo: nat)
    requires hi < 16 && lo < 16 && n == 16 * hi + lo
    ensures Encode([n] + rest) == [Digit(hi), Digit(lo)] + Encode(rest)
  {
    assert ([n] + rest)[1..] == rest;
    assert n / 16 == hi && n % 16 == lo;
  }

  lemma {:induction false} RoundTrip(bytes: Bytes)
    ensures Decode(Encode(bytes)) == Some(bytes)
  {
    if bytes != [] {
      var b, rest, s := bytes[0], bytes[1..], Encode(bytes);
      var hi, lo := b / 16, b % 16;
      assert bytes == [b] + rest && b == 16 * hi + lo;
      EncodeCons(b, rest, hi, lo);
      assert s[2..] == Encode(rest) && s[0] == Digit(hi) && s[1] == Digit(lo);
      DecodeStep(s);
      DigitRoundTrip(hi);
      DigitRoundTrip(lo);
      hide *;
      RoundTrip(rest);
    }
  }

  lemma DigitOfValue(c: char)
    requires IsLowerHexDigit(c)
    ensures DigitValue(c).Some? && DigitValue(c).value < 16 && Digit(DigitValue(c).value) == c
  {
  }

  lemma TailIsLowerHex(s: string)
    requires IsLowerHex(s) && |s| >= 2
    ensures IsLowerHex(s[2..])
  {
    assert forall i :: 0 <= i < |s| - 2 ==> s[2..][i] == s[i + 2];
  }

  /** The digits are the usual ones, in order, a letter counting in either case. */
  lemma DigitsAre(n: nat)
    requires n < 16
    ensures Digit(n) == "0123456789abcdef"[n]
    ensures DigitValue("0123456789abcdef"[n]) == Some(n) && DigitValue("0123456789ABCDEF"[n]) == Some(n)
  {
  }

  lemma DigitsOnly(c: char)
    ensures DigitValue(c).Some? <==> '0' <= c <= '9' || 'a' <= c <= 'f' || 'A' <= c <= 'F'
  {
  }

  /** Two hex digits a byte, high half first. */
  predicate Spells(s: string, bytes: Bytes) {
    |s| == 2 * |bytes| && forall i :: 0 <= i < |bytes| ==>
      DigitValue(s[2 * i]) == Some(bytes[i] / 16) && DigitValue(s[2 * i + 1]) == Some(bytes[i] % 16)
  }

  /** The reader returns exactly the bytes a text spells. */
  lemma {:induction false} DecodeIffSpells(s: string, bytes: Bytes)
    ensures Decode(s) == Some(bytes) <==> Spells(s, bytes)
    decreases |s|
  {
    if s == "" {
    } else if |s| == 1 {
    } else if bytes != [] {
      DecodeIffSpells(s[2..], bytes[1..]);
      SpellsStep(s, bytes);
      assert bytes == [bytes[0]] + bytes[1..];
      DecodeStep(s);
    } else {
      DecodeStep(s);
    }
  }

  lemma SpellsStep(s: string, bytes: Bytes)
    requires |s| >= 2 && bytes != []
    ensures Spells(s, bytes) <==>
      DigitValue(s[0]) == Some(bytes[0] / 16) && DigitValue(s[1]) == Some(bytes[0] % 16) && Spells(s[2..], bytes[1..])
  {
    hide DigitValue;
    if Spells(s, bytes) {
      assert s[2 * 0] == s[0] && s[2 * 0 + 1] == s[1];
      forall i | 0 <= i < |bytes[1..]|
        ensures DigitValue(s[2..][2 * i]) == Some(bytes[1..][i] / 16)
        ensures DigitValue(s[2..][2 * i + 1]) == Some(bytes[1..][i] % 16)
      {
        assert s[2..][2 * i] == s[2 * (i + 1)] && s[2..][2 * i + 1] == s[2 * (i + 1) + 1];
        assert bytes[1..][i] == bytes[i + 1];
      }
    }
    if |s| == 2 * |bytes| && Spells(s[2..], bytes[1..]) {
      forall i | 0 < i < |bytes|
        ensures s[2 * i] == s[2..][2 * (i - 1)] && s[2 * i + 1] == s[2..][2 * (i - 1) + 1]
        ensures bytes[i] == bytes[1..][i - 1]
      {
      }
    }
  }

  /** On lowercase text the reader is also a right inverse, so it loses nothing. */
  lemma {:induction false} DecodeThenEncode(s: string)
    requires IsLowerHex(s) && Decode(s).Some?
    ensures Encode(Decode(s).value) == s
  {
    if s != "" {
      assert |s| >= 2;
      DecodeStep(s);
      DigitOfValue(s[0]);
      DigitOfValue(s[1]);
      TailIsLowerHex(s);
      hide Decode, Encode, DigitValue, Digit;
      DecodeThenEncode(s[2..]);
      var hi, lo := DigitValue(s[0]).value, DigitValue(s[1]).value;
      var n := 16 * hi + lo;
      EncodeCons(n, Decode(s[2..]).value, hi, lo);
      assert s == [s[0], s[1]] + s[2..];
    }
  }

  lemma EncodeSpells(bytes: Bytes)
    ensures Spells(Encode(bytes), bytes)
  {
    RoundTrip(bytes);
    DecodeIffSpells(Encode(bytes), bytes);
  }

  lemma EncodeInjective(a: Bytes, b: Bytes)
    requires Encode(a) == Encode(b)
    ensures a == b
  {
    RoundTrip(a);
    RoundTrip(b);
  }
}
