/** Typo correction for recovery words (passkey-core/src/recovery/bip39_impl.rs):
    the two-row edit distance and the closest-word search. */
module Levenshtein {
  import opened Words
  import opened Wrappers

  function Init(s: string): string
    requires s != []
  {
    s[..|s| - 1]
  }

  function Last(s: string): char
    requires s != []
  {
    s[|s| - 1]
  }

  function Cost(x: char, y: char): nat {
    if x == y then 0 else 1
  }

  /** The recursive edit distance. */
  function Distance(a: string, b: string): nat
    decreases |a| + |b|
  {
    if a == [] then |b|
    else if b == [] then |a|
    else
      Min(Min(Distance(Init(a), b) + 1, Distance(a, Init(b)) + 1),
          Distance(Init(a), Init(b)) + Cost(Last(a), Last(b)))
  }

  /** `levenshtein_distance`: the whole table through two rows. */
  method LevenshteinDistance(a: string, b: string) returns (d: nat)
    ensures d == Distance(a, b)
  {
    var m, n := |a|, |b|;
    if m == 0 {
      return n;
    }
    if n == 0 {
      return m;
    }
    var prev := new nat[n + 1];
    var curr := new nat[n + 1];
    for j := 0 to n + 1
      invariant forall k :: 0 <= k < j ==> prev[k] == k
    {
      prev[j] := j;
    }
    hide Cell;
    BorderCells(a, b);
    ghost var row := 0;
    for i := 1 to m + 1
      invariant row == i - 1
      invariant prev.Length == n + 1 && curr.Length == n + 1 && prev != curr
      invariant fresh(prev) && fresh(curr)
      invariant forall k :: 0 <= k <= n ==> prev[k] == Cell(a, b, row, k)
    {
      curr[0] := i;
      BorderCells(a, b);
      for j := 1 to n + 1
        invariant forall k :: 0 <= k <= n ==> prev[k] == Cell(a, b, row, k)
        invariant forall k :: 0 <= k < j ==> curr[k] == Cell(a, b, i, k)
      {
        var left := j - 1;
        var cost := if a[i - 1] == b[left] then 0 else 1;
        CellStep(a, b, i, row, j, left);
        curr[j] := Min(Min(prev[j] + 1, curr[left] + 1), prev[left] + cost);
      }
      prev, curr := curr, prev;
      row := i;
    }
    WholeCell(a, b);
    d := prev[n];
  }

  /** One cell of the table: the distance between two prefixes. */
  function Cell(a: string, b: string, i: nat, j: nat): nat
    requires i <= |a| && j <= |b|
  {
    Distance(a[..i], b[..j])
  }

  lemma BorderCells(a: string, b: string)
    ensures forall j {:trigger Cell(a, b, 0, j)} :: 0 <= j <= |b| ==> Cell(a, b, 0, j) == j
    ensures forall i {:trigger Cell(a, b, i, 0)} :: 0 <= i <= |a| ==> Cell(a, b, i, 0) == i
  {
  }

  lemma WholeCell(a: string, b: string)
    ensures Cell(a, b, |a|, |b|) == Distance(a, b)
  {
    assert a[..|a|] == a && b[..|b|] == b;
  }

  lemma CellStep(a: string, b: string, i: nat, up: nat, j: nat, left: nat)
    requires 0 < i <= |a| && 0 < j <= |b| && up == i - 1 && left == j - 1
    ensures Cell(a, b, i, j)
         == Min(Min(Cell(a, b, up, j) + 1, Cell(a, b, i, left) + 1), Cell(a, b, up, left) + Cost(a[up], b[left]))
  {
    hide Distance;
    TableStep(a[..i], a[..up], b[..j], b[..left]);
  }

  lemma TableStep(a: string, a': string, b: string, b': string)
    requires a != [] && b != [] && a' == Init(a) && b' == Init(b)
    ensures Distance(a, b)
         == Min(Min(Distance(a', b) + 1, Distance(a, b') + 1), Distance(a', b') + Cost(Last(a), Last(b)))
  {
    hide Min, Cost, Init, Last;
  }

  // ----- The distance is a metric

  lemma {:induction false} DistanceSymmetric(a: string, b: string)
    ensures Distance(a, b) == Distance(b, a)
    decreases |a| + |b|
  {
    if a != [] && b != [] {
      DistanceSymmetric(Init(a), b);
      DistanceSymmetric(a, Init(b));
      DistanceSymmetric(Init(a), Init(b));
    }
  }

  lemma {:induction false} DistanceBounds(a: string, b: string)
    ensures |a| - |b| <= Distance(a, b) && |b| - |a| <= Distance(a, b) <= Max(|a|, |b|)
    decreases |a| + |b|
  {
    if a != [] && b != [] {
      hide Distance;
      TableStep(a, Init(a), b, Init(b));
      DistanceBounds(Init(a), b);
      DistanceBounds(a, Init(b));
      DistanceBounds(Init(a), Init(b));
    }
  }

  lemma {:induction false} ZeroDistanceIffEqual(a: string, b: string)
    ensures Distance(a, b) == 0 <==> a == b
    decreases |a| + |b|
  {
    if a != [] && b != [] {
      hide *;
      var a', b' := Init(a), Init(b);
      TableStep(a, a', b, b');
      InitLast(a, a');
      InitLast(b, b');
      ZeroDistanceIffEqual(a', b');
      CostZero(Last(a), Last(b));
    }
  }

  lemma InitLast(s: string, s': string)
    requires s != [] && s' == Init(s)
    ensures s == s' + [Last(s)] && |s'| < |s|
  {
  }

  lemma CostZero(x: char, y: char)
    ensures Cost(x, y) == 0 <==> x == y
  {
  }

  lemma {:induction false} TriangleInequality(a: string, b: string, c: string)
    ensures Distance(a, c) <= Distance(a, b) + Distance(b, c)
    decreases |a| + |b| + |c|
  {
    DistanceBounds(a, b);
    DistanceBounds(b, c);
    DistanceBounds(a, c);
    if a != [] && b != [] && c != [] {
      hide Distance;
      TableStep(a, Init(a), b, Init(b));
      TableStep(b, Init(b), c, Init(c));
      TableStep(a, Init(a), c, Init(c));
      TriangleInequality(Init(a), b, c);
      TriangleInequality(a, b, Init(c));
      TriangleInequality(a, Init(b), c);
      TriangleInequality(a, Init(b), Init(c));
      TriangleInequality(Init(a), Init(b), c);
      TriangleInequality(Init(a), Init(b), Init(c));
    }
  }

  // ----- The distance is the length of a shortest edit script

  datatype Edit = Insert(at: nat, c: char) | Delete(at: nat) | Substitute(at: nat, c: char)

  function Apply(e: Edit, s: string): Option<string> {
    match e
    case Insert(i, c) => if i <= |s| then Some(s[..i] + [c] + s[i..]) else None
    case Delete(i) => if i < |s| then Some(s[..i] + s[i + 1..]) else None
    case Substitute(i, c) => if i < |s| then Some(s[..i] + [c] + s[i + 1..]) else None
  }

  function Run(script: seq<Edit>, s: string): Option<string> {
    if script == [] then Some(s)
    else match Apply(script[0], s)
      case Some(t) => Run(script[1..], t)
      case None => None
  }

  lemma {:induction false} RunAppend(p: seq<Edit>, q: seq<Edit>, s: string)
    requires Run(p, s).Some?
    ensures Run(p + q, s) == Run(q, Run(p, s).value)
  {
    if p == [] {
      assert p + q == q;
    } else {
      RunAppend(p[1..], q, Apply(p[0], s).value);
      assert (p + q)[1..] == p[1..] + q;
    }
  }

  lemma RunOne(e: Edit, s: string)
    ensures Run([e], s) == Apply(e, s)
  {
    assert [e][1..] == [];
  }

  /** A script that works on `s` works on `s + t` and leaves `t` alone. */
  lemma {:induction false} RunIgnoresTail(script: seq<Edit>, s: string, t: string)
    requires Run(script, s).Some?
    ensures Run(script, s + t) == Some(Run(script, s).value + t)
  {
    if script != [] {
      ApplyIgnoresTail(script[0], s, t);
      RunIgnoresTail(script[1..], Apply(script[0], s).value, t);
    }
  }

  lemma ApplyIgnoresTail(e: Edit, s: string, t: string)
    requires Apply(e, s).Some?
    ensures Apply(e, s + t) == Some(Apply(e, s).value + t)
  {
    var i := e.at;
    assert (s + t)[..i] == s[..i];
    match e
    case Insert(_, c) =>
      assert (s + t)[i..] == s[i..] + t;
      ConcatAssociative(s[..i] + [c], s[i..], t);
    case Delete(_) =>
      assert (s + t)[i + 1..] == s[i + 1..] + t;
      ConcatAssociative(s[..i], s[i + 1..], t);
    case Substitute(_, c) =>
      assert (s + t)[i + 1..] == s[i + 1..] + t;
      ConcatAssociative(s[..i] + [c], s[i + 1..], t);
  }

  /** An edit script of length `Distance(a, b)`. */
  function BestScript(a: string, b: string): (script: seq<Edit>)
    ensures |script| == Distance(a, b)
    decreases |a| + |b|
  {
    if a == [] && b == [] then []
    else if a == [] then BestScript(a, Init(b)) + [Insert(|b| - 1, Last(b))]
    else if b == [] then [Delete(|a| - 1)] + BestScript(Init(a), b)
    else if Distance(a, b) == Distance(Init(a), b) + 1 then [Delete(|a| - 1)] + BestScript(Init(a), b)
    else if Distance(a, b) == Distance(a, Init(b)) + 1 then BestScript(a, Init(b)) + [Insert(|b| - 1, Last(b))]
    else if Last(a) == Last(b) then BestScript(Init(a), Init(b))
    else BestScript(Init(a), Init(b)) + [Substitute(|b| - 1, Last(b))]
  }

  lemma {:induction false} BestScriptWorks(a: string, b: string)
    ensures Run(BestScript(a, b), a) == Some(b)
    decreases |a| + |b|
  {
    var script := BestScript(a, b);
    if a == [] && b == [] {
    } else if a == [] || (b != [] && Distance(a, b) != Distance(Init(a), b) + 1
                          && Distance(a, b) == Distance(a, Init(b)) + 1) {
      BestScriptWorks(a, Init(b));
      InsertLast(BestScript(a, Init(b)), a, b);
    } else if b == [] || Distance(a, b) == Distance(Init(a), b) + 1 {
      BestScriptWorks(Init(a), b);
      DeleteLast(BestScript(Init(a), b), a);
    } else {
      BestScriptWorks(Init(a), Init(b));
      KeepOrSubstituteLast(BestScript(Init(a), Init(b)), a, b);
    }
  }

  lemma InsertLast(script: seq<Edit>, a: string, b: string)
    requires b != [] && Run(script, a) == Some(Init(b))
    ensures Run(script + [Insert(|b| - 1, Last(b))], a) == Some(b)
  {
    var e := Insert(|b| - 1, Last(b));
    RunAppend(script, [e], a);
    RunOne(e, Init(b));
    assert Init(b)[..|b| - 1] + [Last(b)] + Init(b)[|b| - 1..] == b;
  }

  lemma DeleteLast(script: seq<Edit>, a: string)
    requires a != []
    ensures Run([Delete(|a| - 1)] + script, a) == Run(script, Init(a))
  {
    var e := Delete(|a| - 1);
    RunOne(e, a);
    assert a[..|a| - 1] + a[|a|..] == Init(a);
    RunAppend([e], script, a);
  }

  lemma KeepOrSubstituteLast(script: seq<Edit>, a: string, b: string)
    requires a != [] && b != [] && Run(script, Init(a)) == Some(Init(b))
    ensures Last(a) == Last(b) ==> Run(script, a) == Some(b)
    ensures Run(script + [Substitute(|b| - 1, Last(b))], a) == Some(b)
  {
    var e, t := Substitute(|b| - 1, Last(b)), Init(b) + [Last(a)];
    assert a == Init(a) + [Last(a)] && b == Init(b) + [Last(b)];
    RunIgnoresTail(script, Init(a), [Last(a)]);
    RunAppend(script, [e], a);
    RunOne(e, t);
    assert t[..|b| - 1] + [Last(b)] + t[|b|..] == b;
  }

  // A single edit moves a string by at most one.

  lemma {:induction false} CommonTail(a: string, b: string, t: string)
    ensures Distance(a + t, b + t) <= Distance(a, b)
    decreases |t|
  {
    hide Distance;
    if t == [] {
      assert a + t == a && b + t == b;
    } else {
      var t' := Init(t);
      CommonTail(a, b, t');
      assert Init(a + t) == a + t' && Init(b + t) == b + t';
      assert Last(a + t) == Last(t) == Last(b + t);
      TableStep(a + t, a + t', b + t, b + t');
    }
  }

  lemma OneMoreOrOther(s: string, x: char, y: char)
    ensures Distance(s, s + [x]) <= 1 && Distance(s + [x], s) <= 1 && Distance(s + [x], s + [y]) <= 1
  {
    ZeroDistanceIffEqual(s, s);
    assert Init(s + [x]) == s && Init(s + [y]) == s;
  }

  lemma ApplyMovesByOne(e: Edit, s: string)
    requires Apply(e, s).Some?
    ensures Distance(s, Apply(e, s).value) <= 1
  {
    hide Distance;
    var i := e.at;
    match e
    case Insert(_, c) =>
      CommonTail(s[..i], s[..i] + [c], s[i..]);
      OneMoreOrOther(s[..i], c, c);
      assert s[..i] + s[i..] == s;
    case Delete(_) =>
      CommonTail(s[..i] + [s[i]], s[..i], s[i + 1..]);
      OneMoreOrOther(s[..i], s[i], s[i]);
      assert s[..i] + [s[i]] + s[i + 1..] == s;
    case Substitute(_, c) =>
      CommonTail(s[..i] + [s[i]], s[..i] + [c], s[i + 1..]);
      OneMoreOrOther(s[..i], s[i], c);
      assert s[..i] + [s[i]] + s[i + 1..] == s;
  }

  lemma {:induction false} ScriptAtLeastDistance(script: seq<Edit>, a: string, b: string)
    requires Run(script, a) == Some(b)
    ensures Distance(a, b) <= |script|
    decreases |script|
  {
    if script == [] {
      ZeroDistanceIffEqual(a, b);
    } else {
      var t := Apply(script[0], a).value;
      ApplyMovesByOne(script[0], a);
      ScriptAtLeastDistance(script[1..], t, b);
      TriangleInequality(a, t, b);
    }
  }

  /** The distance is the least number of single-character insertions, deletions and substitutions
      that turn `a` into `b`. */
  lemma DistanceIsShortestScript(a: string, b: string)
    ensures exists script :: Run(script, a) == Some(b) && |script| == Distance(a, b)
    ensures forall script :: Run(script, a) == Some(b) ==> |script| >= Distance(a, b)
  {
    BestScriptWorks(a, b);
    forall script | Run(script, a) == Some(b)
      ensures |script| >= Distance(a, b)
    {
      ScriptAtLeastDistance(script, a, b);
    }
  }

  // ----- The closest word

  /** Index of the first word of least distance among the first `n`, if one is within the threshold. */
  function ClosestIndex(words: seq<string>, typed: string, maxDistance: nat, n: nat): (best: Option<nat>)
    requires n <= |words|
    ensures best.None? <==> forall i :: 0 <= i < n ==> Distance(typed, words[i]) > maxDistance
    ensures best.Some? ==>
      && best.value < n
      && Distance(typed, words[best.value]) <= maxDistance
      && (forall i :: 0 <= i < n ==> Distance(typed, words[best.value]) <= Distance(typed, words[i]))
      && (forall i :: 0 <= i < best.value ==> Distance(typed, words[best.value]) < Distance(typed, words[i]))
  {
    hide Distance;
    if n == 0 then None
    else
      var best := ClosestIndex(words, typed, maxDistance, n - 1);
      var d := Distance(typed, words[n - 1]);
      if d <= maxDistance && (best.None? || d < Distance(typed, words[best.value])) then Some(n - 1) else best
  }

  /** `find_closest_word`; `lower` is Unicode lowercasing. */
  function FindClosestWord(words: seq<string>, lower: string -> string, word: string, maxDistance: nat)
    : (closest: Option<string>)
    ensures closest.None? <==> forall i :: 0 <= i < |words| ==> Distance(lower(word), words[i]) > maxDistance
    ensures closest.Some? ==>
      exists i :: 0 <= i < |words| && closest.value == words[i]
        && (forall j :: 0 <= j < |words| ==> Distance(lower(word), words[i]) <= Distance(lower(word), words[j]))
        && (forall j :: 0 <= j < i ==> Distance(lower(word), words[i]) < Distance(lower(word), words[j]))
  {
    match ClosestIndex(words, lower(word), maxDistance, |words|)
    case Some(i) => Some(words[i])
    case None => None
  }
}
