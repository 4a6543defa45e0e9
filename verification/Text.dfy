/** Text normalization applied before signing (gitcellar-crypto/src/grant_signing.rs,
    `normalize_fingerprint`; identity_succession.rs, `normalize_account`). */
module Text {
  import opened Wrappers

  /** The parts of the Unicode tables the normalizers consult. */
  datatype Unicode = Unicode(isWhitespace: char -> bool, toUppercase: char -> string) {

    /** What the Unicode tables guarantee of them: uppercasing settles in one step and yields no
        whitespace, and no ASCII letter is whitespace. */
    ghost predicate Lawful() {
      && (forall c, d :: d in toUppercase(c) ==> toUppercase(d) == [d])
      && (forall c, d :: d in toUppercase(c) && !isWhitespace(c) ==> !isWhitespace(d))
      && (forall c :: 'a' <= c <= 'z' || 'A' <= c <= 'Z' ==> !isWhitespace(c))
    }

    function NormalizeChar(c: char): string {
      if isWhitespace(c) then "" else toUppercase(c)
    }

    /** Uppercase, whitespace stripped. */
    function NormalizeFingerprint(s: string): string {
      if s == "" then "" else NormalizeChar(s[0]) + NormalizeFingerprint(s[1..])
    }

    lemma {:induction false} NormalizeAppend(s: string, t: string)
      ensures NormalizeFingerprint(s + t) == NormalizeFingerprint(s) + NormalizeFingerprint(t)
    {
      if s == "" {
        assert s + t == t;
      } else {
        NormalizeAppend(s[1..], t);
        assert (s + t)[1..] == s[1..] + t;
        ConcatAssociative(NormalizeChar(s[0]), NormalizeFingerprint(s[1..]), NormalizeFingerprint(t));
      }
    }

    /** What normalizing a fingerprint does: whitespace disappears, every other character becomes its
        uppercase, and text is normalized piece by piece. */
    lemma NormalizeIs(c: char, s: string, t: string)
      ensures NormalizeFingerprint("") == ""
      ensures NormalizeFingerprint([c]) == if isWhitespace(c) then "" else toUppercase(c)
      ensures NormalizeFingerprint(s + t) == NormalizeFingerprint(s) + NormalizeFingerprint(t)
    {
      assert [c][1..] == "";
      assert NormalizeFingerprint([c]) == NormalizeChar(c) + NormalizeFingerprint("");
      NormalizeAppend(s, t);
    }

    /** Spacing is ignored, wherever it stands. */
    lemma SpacingIgnored(s: string, space: char, t: string)
      requires isWhitespace(space)
      ensures NormalizeFingerprint(s + [space] + t) == NormalizeFingerprint(s + t)
    {
      NormalizeAppend(s + [space], t);
      NormalizeAppend(s, [space]);
      NormalizeIs(space, s, t);
    }

    /** So is case. */
    lemma CaseIgnored(s: string, c: char, d: char, t: string)
      requires isWhitespace(c) == isWhitespace(d) && toUppercase(c) == toUppercase(d)
      ensures NormalizeFingerprint(s + [c] + t) == NormalizeFingerprint(s + [d] + t)
    {
      NormalizeAppend(s + [c], t);
      NormalizeAppend(s + [d], t);
      NormalizeAppend(s, [c]);
      NormalizeAppend(s, [d]);
      NormalizeIs(c, s, t);
      NormalizeIs(d, s, t);
    }

    /** What the tables say of ASCII letters and digits. */
    ghost predicate Ascii() {
      forall c :: ('0' <= c <= '9' || 'A' <= c <= 'Z' || 'a' <= c <= 'z') ==>
        !isWhitespace(c) && toUppercase(c) == [if 'a' <= c <= 'z' then c - ('a' - 'A') else c]
    }

    /** Text that normalizing has nothing to do to is left as it is. */
    lemma {:induction false} CleanIsFixed(s: string)
      requires forall i :: 0 <= i < |s| ==> !isWhitespace(s[i]) && toUppercase(s[i]) == [s[i]]
      ensures NormalizeFingerprint(s) == s
    {
      if s != "" {
        assert forall i :: 0 <= i < |s[1..]| ==> s[1..][i] == s[i + 1];
        CleanIsFixed(s[1..]);
        assert NormalizeChar(s[0]) == [s[0]];
      }
    }

    /** Fingerprints as the certificate library renders them, in uppercase hex without spaces, are their own
        normal form, so no two of them are taken for each other. */
    lemma FingerprintsApart(a: string, b: string)
      requires Ascii() && IsFingerprint(a) && IsFingerprint(b)
      ensures NormalizeFingerprint(a) == a
      ensures NormalizeFingerprint(a) == NormalizeFingerprint(b) <==> a == b
    {
      CleanIsFixed(a);
      CleanIsFixed(b);
    }

    ghost predicate Settled(s: string) {
      forall d :: d in s ==> NormalizeChar(d) == [d]
    }

    lemma {:induction false} SettledIsFixed(s: string)
      requires Settled(s)
      ensures NormalizeFingerprint(s) == s
    {
      if s != "" {
        assert s[0] in s;
        SettledIsFixed(s[1..]);
      }
    }

    lemma {:induction false} NormalFormIsSettled(s: string)
      requires Lawful()
      ensures Settled(NormalizeFingerprint(s))
    {
      if s != "" {
        NormalFormIsSettled(s[1..]);
      }
    }

    /** A normalized fingerprint normalizes to itself, so a tuple built by `new` and one built by
        struct literal sign the same bytes. */
    lemma NormalizeIdempotent(s: string)
      requires Lawful()
      ensures NormalizeFingerprint(NormalizeFingerprint(s)) == NormalizeFingerprint(s)
    {
      NormalFormIsSettled(s);
      SettledIsFixed(NormalizeFingerprint(s));
    }

    function TrimStart(s: string): string {
      if s != "" && isWhitespace(s[0]) then TrimStart(s[1..]) else s
    }

    function TrimEnd(s: string): string {
      if s != "" && isWhitespace(s[|s| - 1]) then TrimEnd(s[..|s| - 1]) else s
    }

    function Trim(s: string): string {
      TrimEnd(TrimStart(s))
    }

    /** Trimmed and ASCII-lowercased. */
    function NormalizeAccount(s: string): string {
      AsciiLower(Trim(s))
    }

    lemma {:induction false} TrimEndShape(s: string)
      ensures TrimEnd(s) <= s
      ensures TrimEnd(s) != "" ==> !isWhitespace(TrimEnd(s)[|TrimEnd(s)| - 1])
    {
      if s != "" && isWhitespace(s[|s| - 1]) {
        TrimEndShape(s[..|s| - 1]);
      }
    }

    lemma {:induction false} TrimStartShape(s: string)
      ensures TrimStart(s) != "" ==> !isWhitespace(TrimStart(s)[0])
    {
      if s != "" && isWhitespace(s[0]) {
        TrimStartShape(s[1..]);
      }
    }

    lemma {:induction false} TrimStartIs(s: string) returns (i: nat)
      ensures i <= |s| && TrimStart(s) == s[i..]
      ensures forall k :: 0 <= k < i ==> isWhitespace(s[k])
      ensures i < |s| ==> !isWhitespace(s[i])
    {
      if s != "" && isWhitespace(s[0]) {
        var j := TrimStartIs(s[1..]);
        i := j + 1;
        assert forall k :: 0 < k < i ==> s[k] == s[1..][k - 1];
      } else {
        i := 0;
      }
    }

    lemma {:induction false} TrimEndIs(s: string) returns (j: nat)
      ensures j <= |s| && TrimEnd(s) == s[..j]
      ensures forall k :: j <= k < |s| ==> isWhitespace(s[k])
      ensures j > 0 ==> !isWhitespace(s[j - 1])
      decreases |s|
    {
      if s != "" && isWhitespace(s[|s| - 1]) {
        j := TrimEndIs(s[..|s| - 1]);
      } else {
        j := |s|;
      }
    }

    /** What normalizing an account does: the text between the whitespace at its ends, with ASCII capitals
        made small and every other character kept. */
    lemma AccountIs(s: string) returns (i: nat, j: nat)
      ensures i <= j <= |s|
      ensures forall k :: 0 <= k < i || j <= k < |s| ==> isWhitespace(s[k])
      ensures i < j ==> !isWhitespace(s[i]) && !isWhitespace(s[j - 1])
      ensures |NormalizeAccount(s)| == j - i
      ensures forall k :: 0 <= k < j - i ==>
        NormalizeAccount(s)[k] == if 'A' <= s[i + k] <= 'Z' then s[i + k] + ('a' - 'A') else s[i + k]
    {
      i := TrimStartIs(s);
      var rest := s[i..];
      var n := TrimEndIs(rest);
      j := i + n;
      assert Trim(s) == rest[..n];
      AsciiLowerPointwise(rest[..n]);
      assert forall k :: 0 <= k < |rest| ==> rest[k] == s[i + k];
      forall k | j <= k < |s|
        ensures isWhitespace(s[k])
      {
        assert rest[k - i] == s[k];
      }
    }

    /** An account without outer whitespace and without ASCII capitals is its own normal form. */
    lemma AccountIsFixed(s: string)
      requires s != "" ==> !isWhitespace(s[0]) && !isWhitespace(s[|s| - 1])
      requires forall i :: 0 <= i < |s| ==> !('A' <= s[i] <= 'Z')
      ensures NormalizeAccount(s) == s
    {
      var i, j := AccountIs(s);
      if s != "" {
        assert i == 0 && j == |s|;
      }
    }

    lemma LowerKeepsNonSpace(c: char)
      requires Lawful() && !isWhitespace(c)
      ensures !isWhitespace(AsciiLowerChar(c))
    {
    }

    lemma NormalizeAccountIdempotent(s: string)
      requires Lawful()
      ensures NormalizeAccount(NormalizeAccount(s)) == NormalizeAccount(s)
    {
      var t := Trim(s);
      var n := AsciiLower(t);
      TrimStartShape(s);
      TrimEndShape(TrimStart(s));
      AsciiLowerPointwise(t);
      AsciiLowerIdempotent(t);
      if t != "" {
        LowerKeepsNonSpace(t[0]);
        LowerKeepsNonSpace(t[|t| - 1]);
        assert TrimStart(n) == n && TrimEnd(n) == n;
      }
    }
  }

  function AsciiLowerChar(c: char): char {
    if 'A' <= c <= 'Z' then c + ('a' - 'A') else c
  }

  function AsciiLower(s: string): string {
    if s == "" then "" else [AsciiLowerChar(s[0])] + AsciiLower(s[1..])
  }

  lemma {:induction false} AsciiLowerPointwise(s: string)
    ensures |AsciiLower(s)| == |s|
    ensures forall i :: 0 <= i < |s| ==> AsciiLower(s)[i] == AsciiLowerChar(s[i])
  {
    if s != "" {
      AsciiLowerPointwise(s[1..]);
      assert forall i :: 0 < i < |s| ==> s[i] == s[1..][i - 1];
    }
  }

  lemma {:induction false} AsciiLowerIdempotent(s: string)
    ensures AsciiLower(AsciiLower(s)) == AsciiLower(s)
  {
    if s != "" {
      AsciiLowerIdempotent(s[1..]);
      assert AsciiLower(s)[1..] == AsciiLower(s[1..]);
    }
  }

  /** An unspaced uppercase-hex fingerprint. */
  predicate IsFingerprint(s: string) {
    forall i :: 0 <= i < |s| ==> '0' <= s[i] <= '9' || 'A' <= s[i] <= 'F'
  }

  /** Tables restricted to ASCII obey the laws. */
  lemma AsciiTablesAreLawful()
    ensures var tables := Unicode(c => c == ' ' || '\t' <= c <= '\r',
                                  c => [if 'a' <= c <= 'z' then c - ('a' - 'A') else c]);
      tables.Lawful() && tables.Ascii()
  {
  }
}
