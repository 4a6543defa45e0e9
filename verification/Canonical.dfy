/** The length-prefix field encoder behind every signed canonical
    (gitcellar-crypto/src/canonical.rs): `<decimal byte length>:<bytes>\n`. */
module Canonical {
  import opened Words
  import opened Wrappers
  import Utf8

  const Colon: Byte := 58
  const Newline: Byte := 10
  const Minus: Byte := 45

  predicate IsDigit(b: Byte) {
    48 <= b <= 57
  }

  /** `to_string` of an unsigned integer. */
  function Decimal(n: nat): (ds: Bytes)
    ensures ds != [] && forall i :: 0 <= i < |ds| ==> IsDigit(ds[i])
  {
    if n < 10 then [48 + n] else Decimal(n / 10) + [48 + n % 10]
  }

  function Pow10(n: nat): (p: nat)
    ensures p > 0
  {
    if n == 0 then 1 else 10 * Pow10(n - 1)
  }

  /** The decimal digits, from the last one up, and no leading zero. */
  lemma {:induction false} DecimalIs(n: nat, i: nat)
    ensures i < |Decimal(n)| ==> Decimal(n)[|Decimal(n)| - 1 - i] == 48 + n / Pow10(i) % 10
    ensures n > 0 ==> Decimal(n)[0] != 48
    ensures i >= |Decimal(n)| ==> n / Pow10(i) == 0
    decreases n, i
  {
    if n < 10 {
      if i > 0 {
        SmallOverPower(n, i);
      } else {
        assert Pow10(0) == 1;
      }
    } else if i == 0 {
      DecimalIs(n / 10, 0);
      assert Pow10(0) == 1;
    } else {
      DecimalIs(n / 10, i - 1);
      TenthOverPower(n, i);
    }
  }

  lemma SmallOverPower(n: nat, i: nat)
    requires n < 10 && i > 0
    ensures n / Pow10(i) == 0
  {
    assert Pow10(i) == 10 * Pow10(i - 1);
    DivModUnique(n, 0, n, Pow10(i));
  }

  lemma TenthOverPower(n: nat, i: nat)
    requires i > 0
    ensures n / Pow10(i) == n / 10 / Pow10(i - 1)
  {
    var p := Pow10(i - 1);
    var q, r := n / 10 / p, n / 10 % p;
    assert n / 10 == p * q + r;
    assert n == 10 * (n / 10) + n % 10;
    assert n == q * (10 * p) + (10 * r + n % 10);
    DivModUnique(n, q, 10 * r + n % 10, 10 * p);
  }

  /** The number a run of digits spells. */
  function Value(ds: Bytes): nat
    requires forall i :: 0 <= i < |ds| ==> IsDigit(ds[i])
  {
    if ds == [] then 0
    else
      assert IsDigit(ds[|ds| - 1]);
      10 * Value(ds[..|ds| - 1]) + (ds[|ds| - 1] - 48)
  }

  lemma {:induction false} ValueOfDecimal(n: nat)
    ensures Value(Decimal(n)) == n
  {
    var ds := Decimal(n);
    if n < 10 {
      assert ds[..0] == [];
    } else {
      ValueOfDecimal(n / 10);
      assert ds[..|ds| - 1] == Decimal(n / 10);
    }
  }

  /** `to_string` of a signed integer. */
  function Integer(n: int): Bytes {
    if n < 0 then [Minus] + Decimal(-n) else Decimal(n)
  }

  lemma IntegerInjective(m: int, n: int)
    requires Integer(m) == Integer(n)
    ensures m == n
  {
    var x, y := Integer(m), Integer(n);
    assert x[0] == y[0];
    assert m < 0 <==> x[0] == Minus;
    assert n < 0 <==> y[0] == Minus;
    if m < 0 {
      assert x[1..] == Decimal(-m) && y[1..] == Decimal(-n);
      ValueOfDecimal(-m);
      ValueOfDecimal(-n);
    } else {
      ValueOfDecimal(m);
      ValueOfDecimal(n);
    }
  }

  /** One encoded field. */
  function Field(s: Bytes): Bytes {
    Decimal(|s|) + [Colon] + s + [Newline]
  }

  function Encode(fields: seq<Bytes>): Bytes {
    if fields == [] then [] else Field(fields[0]) + Encode(fields[1..])
  }

  lemma {:induction false} EncodeAppend(a: seq<Bytes>, b: seq<Bytes>)
    ensures Encode(a + b) == Encode(a) + Encode(b)
  {
    if a == [] {
      assert a + b == b;
    } else {
      EncodeAppend(a[1..], b);
      assert (a + b)[1..] == a[1..] + b;
      ConcatAssociative(Field(a[0]), Encode(a[1..]), Encode(b));
    }
  }

  /** A growing byte vector that fields are pushed onto. */
  class Buffer {
    var bytes: Bytes
    ghost var fields: seq<Bytes>

    ghost predicate Valid()
      reads this
    {
      bytes == Encode(fields)
    }

    constructor ()
      ensures Valid() && fields == []
    {
      bytes, fields := [], [];
    }

    /** `lp_push` */
    method LpPush(s: Bytes)
      requires Valid()
      modifies this
      ensures Valid() && fields == old(fields) + [s]
    {
      hide Decimal;
      EncodeAppend(fields, [s]);
      EncodeOne(s);
      bytes := bytes + Decimal(|s|);
      bytes := bytes + [Colon];
      bytes := bytes + s;
      bytes := bytes + [Newline];
      assert bytes == old(bytes) + Field(s);
      fields := fields + [s];
    }
  }

  lemma EncodeOne(s: Bytes)
    ensures Encode([s]) == Field(s)
  {
    assert [s][1..] == [];
  }

  /** A field of text, as text. */
  lemma FieldOfText(digits: string, s: string, line: string)
    requires line == digits + ":" + s + "\n" && Utf8.Encode(digits) == Decimal(|Utf8.Encode(s)|)
    ensures Field(Utf8.Encode(s)) == Utf8.Encode(line)
  {
    assert Utf8.Encode(":") == [Colon] && Utf8.Encode("\n") == [Newline] by {
      assert ":"[1..] == "" && "\n"[1..] == "";
    }
    hide Utf8.Encode, Decimal;
    Utf8.EncodeAppend(digits + ":" + s, "\n");
    Utf8.EncodeAppend(digits + ":", s);
    Utf8.EncodeAppend(digits, ":");
  }

  lemma EncodeTextCons(s: string, fields: seq<Bytes>, all: seq<Bytes>, line: string, rest: string, text: string)
    requires Field(Utf8.Encode(s)) == Utf8.Encode(line) && Encode(fields) == Utf8.Encode(rest)
    requires all == [Utf8.Encode(s)] + fields && text == line + rest
    ensures Encode(all) == Utf8.Encode(text)
  {
    assert all[1..] == fields;
    hide Utf8.Encode, Field;
    Utf8.EncodeAppend(line, rest);
  }

  /** A digit, as text. */
  lemma DigitText()
    ensures Utf8.Encode("0") == Decimal(0) && Utf8.Encode("2") == Decimal(2) && Utf8.Encode("4") == Decimal(4)
    ensures |Utf8.Encode("ab")| == 2 && |Utf8.Encode("")| == 0 && |Utf8.Encode("x:y\n")| == 4
  {
    assert "0"[1..] == "" && "2"[1..] == "" && "4"[1..] == "";
    hide Utf8.Encode;
    Utf8.AsciiBytes("ab");
    Utf8.AsciiBytes("");
    Utf8.AsciiBytes("x:y\n");
  }

  lemma ExampleLines()
    ensures Field(Utf8.Encode("ab")) == Utf8.Encode("2:ab\n")
    ensures Field(Utf8.Encode("")) == Utf8.Encode("0:\n")
    ensures Field(Utf8.Encode("x:y\n")) == Utf8.Encode("4:x:y\n\n")
  {
    hide *;
    DigitText();
    FieldOfText("2", "ab", "2:ab\n");
    FieldOfText("0", "", "0:\n");
    FieldOfText("4", "x:y\n", "4:x:y\n\n");
  }

  lemma ExampleTail()
    ensures Encode([Utf8.Encode(""), Utf8.Encode("x:y\n")]) == Utf8.Encode("0:\n4:x:y\n\n")
  {
    ExampleLines();
    var empty, xy := Utf8.Encode(""), Utf8.Encode("x:y\n");
    assert Encode([]) == [] && Utf8.Encode("") == [];
    hide *;
    EncodeTextCons("x:y\n", [], [xy], "4:x:y\n\n", "", "4:x:y\n\n");
    EncodeTextCons("", [xy], [empty, xy], "0:\n", "4:x:y\n\n", "0:\n4:x:y\n\n");
  }

  /** The repository's own example: "ab", nothing, and a field that holds both delimiters. */
  lemma EncodeExample()
    ensures Encode([Utf8.Encode("ab"), Utf8.Encode(""), Utf8.Encode("x:y\n")])
         == Utf8.Encode("2:ab\n0:\n4:x:y\n\n")
  {
    hide *;
    ExampleLines();
    ExampleTail();
    var ab, empty, xy := Utf8.Encode("ab"), Utf8.Encode(""), Utf8.Encode("x:y\n");
    EncodeTextCons("ab", [empty, xy], [ab, empty, xy], "2:ab\n", "0:\n4:x:y\n\n", "2:ab\n0:\n4:x:y\n\n");
  }

  // ----- The decoder

  /** How many digits `bs` starts with. */
  function DigitRun(bs: Bytes): (k: nat)
    ensures k <= |bs|
    ensures forall i :: 0 <= i < k ==> IsDigit(bs[i])
    ensures k < |bs| ==> !IsDigit(bs[k])
  {
    if bs == [] || !IsDigit(bs[0]) then 0 else 1 + DigitRun(bs[1..])
  }

  /** Reads one field off the front; refuses a length with leading zeros. */
  function ReadField(bs: Bytes): (r: Option<(Bytes, Bytes)>)
    ensures r.Some? ==> |r.value.1| < |bs|
  {
    var k := DigitRun(bs);
    var n := Value(bs[..k]);
    var start := k + 1;
    var end := start + n;
    if k == 0 || end >= |bs| || bs[k] != Colon || bs[end] != Newline || Decimal(n) != bs[..k] then None
    else Some((bs[start..end], bs[end + 1..]))
  }

  function Decode(bs: Bytes): Option<seq<Bytes>>
    decreases |bs|
  {
    if bs == [] then Some([])
    else match ReadField(bs)
      case None => None
      case Some((field, rest)) =>
        match Decode(rest)
        case None => None
        case Some(fields) => Some([field] + fields)
  }

  lemma {:induction false} DigitRunIs(bs: Bytes, k: nat)
    requires k < |bs| && !IsDigit(bs[k])
    requires forall i :: 0 <= i < k ==> IsDigit(bs[i])
    ensures DigitRun(bs) == k
  {
    var r := DigitRun(bs);
    assert !(r < k) && !(k < r);
  }

  lemma FiveParts(ds: Bytes, x: Byte, s: Bytes, y: Byte, rest: Bytes, bs: Bytes, k: nat, start: nat, end: nat)
    requires bs == ds + [x] + s + [y] + rest && k == |ds| && start == k + 1 && end == start + |s|
    ensures |bs| > end && bs[..k] == ds && bs[k] == x && bs[start..end] == s && bs[end] == y && bs[end + 1..] == rest
  {
  }

  /** A field is read back whole, whatever bytes it holds and whatever follows it. */
  lemma ReadFieldOfField(s: Bytes, rest: Bytes)
    ensures ReadField(Field(s) + rest) == Some((s, rest))
  {
    var ds, bs := Decimal(|s|), Field(s) + rest;
    var k := |ds|;
    var start := k + 1;
    var end := start + |s|;
    ValueOfDecimal(|s|);
    hide Decimal, Value, DigitRun;
    FiveParts(ds, Colon, s, Newline, rest, bs, k, start, end);
    assert forall i :: 0 <= i < k ==> bs[i] == ds[i];
    DigitRunIs(bs, k);
  }

  /** What was read is what the bytes start with. */
  lemma FieldOfReadField(bs: Bytes)
    requires ReadField(bs).Some?
    ensures bs == Field(ReadField(bs).value.0) + ReadField(bs).value.1
  {
    var k := DigitRun(bs);
    var n := Value(bs[..k]);
    var start := k + 1;
    var end := start + n;
    var s := bs[start..end];
    assert |s| == n && Decimal(n) == bs[..k] && bs[k] == Colon && bs[end] == Newline;
    assert ReadField(bs).value == (s, bs[end + 1..]);
    assert Field(s) == bs[..k] + [bs[k]] + s + [bs[end]];
    hide *;
    CutInFive(bs, k, start, end);
  }

  lemma CutInFive(bs: Bytes, k: nat, start: nat, end: nat)
    requires start == k + 1 && start <= end < |bs|
    ensures bs == bs[..k] + [bs[k]] + bs[start..end] + [bs[end]] + bs[end + 1..]
  {
  }

  lemma FieldNonEmpty(s: Bytes)
    ensures Field(s) != [] && IsDigit(Field(s)[0])
  {
  }

  /** The decoder inverts any sequence of pushes. */
  lemma {:induction false} DecodeEncode(fields: seq<Bytes>)
    ensures Decode(Encode(fields)) == Some(fields)
    decreases |fields|
  {
    if fields != [] {
      var f, more := fields[0], fields[1..];
      assert Encode(fields) == Field(f) + Encode(more) && fields == [f] + more;
      hide *;
      DecodeEncode(more);
      DecodeCons(f, Encode(more), more);
    }
  }

  lemma DecodeCons(f: Bytes, rest: Bytes, fields: seq<Bytes>)
    requires Decode(rest) == Some(fields)
    ensures Decode(Field(f) + rest) == Some([f] + fields)
  {
    FieldNonEmpty(f);
    hide ReadField, Field;
    ReadFieldOfField(f, rest);
  }

  /** The decoder accepts nothing but encodings. */
  lemma {:induction false} EncodeDecode(bs: Bytes)
    requires Decode(bs).Some?
    ensures Encode(Decode(bs).value) == bs
    decreases |bs|
  {
    if bs != [] {
      hide Field;
      FieldOfReadField(bs);
      hide ReadField;
      var (field, rest) := ReadField(bs).value;
      EncodeDecode(rest);
      var fields := Decode(rest).value;
      assert Decode(bs).value == [field] + fields;
      assert ([field] + fields)[1..] == fields;
    }
  }

  /** No two distinct tuples, of any length and content, serialize to the same bytes. */
  lemma EncodeInjective(a: seq<Bytes>, b: seq<Bytes>)
    ensures Encode(a) == Encode(b) <==> a == b
  {
    DecodeEncode(a);
    DecodeEncode(b);
  }

  /** Encodings of tuples of one length are prefix-free. */
  lemma {:induction false} EncodePrefixFree(a: seq<Bytes>, b: seq<Bytes>, tail: Bytes)
    requires |a| == |b| && Encode(a) + tail == Encode(b)
    ensures a == b && tail == []
  {
    if a == [] {
      assert Encode(a) + tail == tail;
    } else {
      hide ReadField, Field;
      ReadFieldOfField(a[0], Encode(a[1..]) + tail);
      ReadFieldOfField(b[0], Encode(b[1..]));
      ConcatAssociative(Field(a[0]), Encode(a[1..]), tail);
      EncodePrefixFree(a[1..], b[1..], tail);
      assert a == [a[0]] + a[1..] && b == [b[0]] + b[1..];
    }
  }
}
