/** Title similarity of the capture gateway (runtime/capture.go). */
module Capture {
  import opened Titles

  function Min(a: int, b: int): int { if a < b then a else b }

  function Max(a: int, b: int): int { if a > b then a else b }

  function Cost(x: char, y: char): nat { if x == y then 0 else 1 }

  function Init(s: string): string
    requires s != []
  {
    s[..|s| - 1]
  }

  function Last(s: string): char
    requires s != []
  {
    s[|s| - 1]
  }

  // The recursive edit distance: drop the last character of a, drop the last of b, or pair them.
  function Distance(a: string, b: string): nat
    decreases |a| + |b|
  {
    if a == [] then |b|
    else if b == [] then |a|
    else Min(Distance(Init(a), b) + 1, Min(Distance(a, Init(b)) + 1, Distance(Init(a), Init(b)) + Cost(Last(a), Last(b))))
  }

  // ---- the distance is a metric ----

  lemma {:induction false} DistanceBounds(a: string, b: string)
    ensures |a| - |b| <= Distance(a, b) && |b| - |a| <= Distance(a, b)
    ensures Distance(a, b) <= Max(|a|, |b|)
    decreases |a| + |b|
  {
    if a != [] && b != [] {
      DistanceBounds(Init(a), b);
      DistanceBounds(a, Init(b));
      DistanceBounds(Init(a), Init(b));
    }
  }

  lemma {:induction false} DistanceSymmetric(a: string, b: string)
    ensures Distance(a, b) == Distance(b, a)
    decreases |a| + |b|
  {
    if a != [] && b != [] {
      DistanceSymmetric(Init(a), b);
      DistanceSymmetric(a, Init(b));
      DistanceSymmetric(Init(a), Init(b));
    }
  }

  lemma {:induction false} DistanceSelf(a: string)
    ensures Distance(a, a) == 0
  {
    if a != [] {
      DistanceSelf(Init(a));
    }
  }

  lemma {:induction false} DistanceZero(a: string, b: string)
    ensures Distance(a, b) == 0 <==> a == b
    decreases |a| + |b|
  {
    DistanceSelf(a);
    if a != [] && b != [] {
      DistanceZero(Init(a), Init(b));
      assert a == Init(a) + [Last(a)] && b == Init(b) + [Last(b)];
    }
  }

  lemma {:induction false} Triangle(a: string, b: string, c: string)
    ensures Distance(a, c) <= Distance(a, b) + Distance(b, c)
    decreases |a| + |b| + |c|
  {
    DistanceBounds(a, b);
    DistanceBounds(b, c);
    DistanceBounds(a, c);
    if a != [] && b != [] && c != [] {
      if Distance(a, b) == Distance(Init(a), b) + 1 {
        Triangle(Init(a), b, c);
      } else if Distance(b, c) == Distance(b, Init(c)) + 1 {
        Triangle(a, b, Init(c));
      } else if Distance(a, b) == Distance(a, Init(b)) + 1 {
        Triangle(a, Init(b), c);
        Triangle(a, Init(b), Init(c));
      } else {
        Triangle(Init(a), Init(b), c);
        Triangle(Init(a), Init(b), Init(c));
      }
    }
  }

  // ---- the distance is the least number of single-character edits ----

  // x, at most one character, stands in a where y, at most one character, stands in b.
  predicate EditsAt(a: string, b: string, p: string, s: string, x: string, y: string) {
    |x| <= 1 && |y| <= 1 && a == p + x + s && b == p + y + s
  }

  // b is a with one character deleted, inserted or replaced.
  ghost predicate OneEdit(a: string, b: string) {
    exists p, s, x, y :: EditsAt(a, b, p, s, x, y)
  }

  // Consecutive strings of the script differ by one edit.
  ghost predicate IsScript(q: seq<string>, a: string, b: string) {
    && |q| > 0 && q[0] == a && q[|q| - 1] == b
    && forall i :: 0 <= i < |q| - 1 ==> OneEdit(q[i], q[i + 1])
  }

  lemma {:induction false} CommonSuffix(u: string, v: string, s: string)
    ensures Distance(u + s, v + s) <= Distance(u, v)
  {
    if s == [] {
      assert u + s == u && v + s == v;
    } else {
      CommonSuffix(u, v, Init(s));
      assert Init(u + s) == u + Init(s) && Init(v + s) == v + Init(s);
    }
  }

  lemma Deleted(p: string, c: char)
    ensures Distance(p + [c], p) <= 1
  {
    assert Init(p + [c]) == p;
    DistanceSelf(p);
    if p != [] { DropFirst(p + [c], p); }
  }

  lemma Replaced(p: string, c: char, d: char)
    ensures Distance(p + [c], p + [d]) <= 1
  {
    assert Init(p + [c]) == p && Init(p + [d]) == p;
    DistanceSelf(p);
    PairLast(p + [c], p + [d]);
  }

  lemma DropFirst(a: string, b: string)
    requires a != [] && b != []
    ensures Distance(a, b) <= Distance(Init(a), b) + 1
  {
  }

  lemma PairLast(a: string, b: string)
    requires a != [] && b != []
    ensures Distance(a, b) <= Distance(Init(a), Init(b)) + 1
  {
  }

  lemma AppendedCharacter(p: string, x: string, y: string)
    requires |x| <= 1 && |y| <= 1
    ensures Distance(p + x, p + y) <= 1
  {
    if x == [] && y == [] {
      DistanceSelf(p + x);
      assert x == y;
    } else if x == [] {
      Deleted(p, y[0]);
      DistanceSymmetric(p, p + [y[0]]);
      assert y == [y[0]] && p + x == p;
    } else if y == [] {
      Deleted(p, x[0]);
      assert x == [x[0]] && p + y == p;
    } else {
      Replaced(p, x[0], y[0]);
      assert x == [x[0]] && y == [y[0]];
    }
  }

  lemma OneEditIsNear(a: string, b: string)
    requires OneEdit(a, b)
    ensures Distance(a, b) <= 1
  {
    var p, s, x, y :| EditsAt(a, b, p, s, x, y);
    AppendedCharacter(p, x, y);
    CommonSuffix(p + x, p + y, s);
  }

  // No script is shorter than the distance.
  lemma {:induction false} ScriptIsLongEnough(q: seq<string>, a: string, b: string)
    requires IsScript(q, a, b)
    ensures Distance(a, b) <= |q| - 1
  {
    if |q| == 1 {
      DistanceSelf(a);
    } else {
      OneEditIsNear(q[0], q[1]);
      ScriptIsLongEnough(q[1..], q[1], b);
      Triangle(a, q[1], b);
    }
  }

  lemma EditLast(p: string, x: string, y: string)
    requires |x| <= 1 && |y| <= 1
    ensures OneEdit(p + x, p + y)
  {
    assert p + x == p + x + [] && p + y == p + y + [];
    assert EditsAt(p + x, p + y, p, [], x, y);
  }

  lemma ScriptCons(a: string, q: seq<string>, b: string)
    requires q != [] && IsScript(q, q[0], b) && OneEdit(a, q[0])
    ensures IsScript([a] + q, a, b)
  {
  }

  lemma ScriptSnoc(q: seq<string>, a: string, b: string)
    requires q != [] && IsScript(q, a, q[|q| - 1]) && OneEdit(q[|q| - 1], b)
    ensures IsScript(q + [b], a, b)
  {
    var r := q + [b];
    forall i | 0 <= i < |r| - 1
      ensures OneEdit(r[i], r[i + 1])
    {
      if i < |q| - 1 { assert OneEdit(q[i], q[i + 1]); }
    }
  }

  lemma EditKeepsLast(a: string, b: string, c: char)
    requires OneEdit(a, b)
    ensures OneEdit(a + [c], b + [c])
  {
    var p, s, x, y :| EditsAt(a, b, p, s, x, y);
    assert a + [c] == p + x + (s + [c]) && b + [c] == p + y + (s + [c]);
    assert EditsAt(a + [c], b + [c], p, s + [c], x, y);
  }

  // The same edits in front of one more character.
  lemma ScriptWithLast(q: seq<string>, a: string, b: string, x: char) returns (r: seq<string>)
    requires IsScript(q, a, b)
    ensures IsScript(r, a + [x], b + [x]) && |r| == |q|
  {
    r := seq(|q|, i requires 0 <= i < |q| => q[i] + [x]);
    forall i | 0 <= i < |r| - 1
      ensures OneEdit(r[i], r[i + 1])
    {
      EditKeepsLast(q[i], q[i + 1], x);
    }
  }

  lemma {:induction false} DeleteAll(a: string) returns (q: seq<string>)
    ensures IsScript(q, a, []) && |q| == |a| + 1
  {
    if a == [] {
      q := [a];
    } else {
      q := DeleteAll(Init(a));
      assert a == Init(a) + [Last(a)] && Init(a) == Init(a) + [];
      EditLast(Init(a), [Last(a)], []);
      ScriptCons(a, q, []);
      q := [a] + q;
    }
  }

  lemma {:induction false} InsertAll(b: string) returns (q: seq<string>)
    ensures IsScript(q, [], b) && |q| == |b| + 1
  {
    if b == [] {
      q := [b];
    } else {
      q := InsertAll(Init(b));
      assert b == Init(b) + [Last(b)] && Init(b) == Init(b) + [];
      EditLast(Init(b), [], [Last(b)]);
      ScriptSnoc(q, [], b);
      q := q + [b];
    }
  }

  // Some script is as short as the distance.
  lemma {:induction false} ShortestScript(a: string, b: string) returns (q: seq<string>)
    ensures IsScript(q, a, b) && |q| == Distance(a, b) + 1
    decreases |a| + |b|
  {
    if a == [] {
      q := InsertAll(b);
    } else if b == [] {
      q := DeleteAll(a);
    } else {
      assert a == Init(a) + [Last(a)] && Init(a) == Init(a) + [];
      assert b == Init(b) + [Last(b)] && Init(b) == Init(b) + [];
      if Distance(a, b) == Distance(Init(a), b) + 1 {
        q := ShortestScript(Init(a), b);
        EditLast(Init(a), [Last(a)], []);
        ScriptCons(a, q, b);
        q := [a] + q;
      } else if Distance(a, b) == Distance(a, Init(b)) + 1 {
        q := ShortestScript(a, Init(b));
        EditLast(Init(b), [], [Last(b)]);
        ScriptSnoc(q, a, b);
        q := q + [b];
      } else {
        q := ShortestScript(Init(a), Init(b));
        q := ScriptWithLast(q, Init(a), Init(b), Last(a));
        if Last(a) != Last(b) {
          EditLast(Init(b), [Last(a)], [Last(b)]);
          ScriptSnoc(q, a, b);
          q := q + [b];
        }
      }
    }
  }

  // The distance is exactly the least number of edits.
  lemma DistanceIsLeastEdits(a: string, b: string, n: nat)
    ensures Distance(a, b) <= n <==> exists q :: IsScript(q, a, b) && |q| - 1 <= n
  {
    var shortest := ShortestScript(a, b);
    assert IsScript(shortest, a, b);
    forall q | IsScript(q, a, b) { ScriptIsLongEnough(q, a, b); }
  }

  // ---- the two-row computation ----

  // The first n entries of the row are the distances from a to the prefixes of b.
  ghost predicate IsRow(row: seq<int>, a: string, b: string, n: nat) {
    n <= |row| && n <= |b| + 1 && forall j :: 0 <= j < n ==> row[j] == Distance(a, b[..j])
  }

  // The recurrence at one cell.
  lemma Cell(a: string, b: string, i: nat, j: nat)
    requires 0 < i <= |a| && 0 < j <= |b|
    ensures Distance(a[..i], b[..j]) ==
            Min(Distance(a[..i - 1], b[..j]) + 1,
                Min(Distance(a[..i], b[..j - 1]) + 1, Distance(a[..i - 1], b[..j - 1]) + Cost(a[i - 1], b[j - 1])))
  {
    assert Init(a[..i]) == a[..i - 1] && Last(a[..i]) == a[i - 1];
    assert Init(b[..j]) == b[..j - 1] && Last(b[..j]) == b[j - 1];
  }

  lemma RowExtends(before: seq<int>, after: seq<int>, a: string, b: string, n: nat)
    requires IsRow(before, a, b, n) && n <= |b| && n < |before| == |after|
    requires after == before[n := Distance(a, b[..n])]
    ensures IsRow(after, a, b, n + 1)
  {
  }

  // One cell from its three neighbours.
  lemma CellValue(above: seq<int>, left: seq<int>, a: string, b: string, i: nat, j: nat)
    requires 0 < i <= |a| && 0 < j <= |b|
    requires IsRow(above, a[..i - 1], b, |b| + 1) && IsRow(left, a[..i], b, j)
    ensures Distance(a[..i], b[..j]) ==
            Min(above[j] + 1, Min(left[j - 1] + 1, above[j - 1] + if a[i - 1] != b[j - 1] then 1 else 0))
  {
    Cell(a, b, i, j);
  }

  method FillRow(a: string, b: string, i: nat, prev: array<int>, cur: array<int>)
    requires 0 < i <= |a| && prev != cur && prev.Length == cur.Length == |b| + 1
    requires IsRow(prev[..], a[..i - 1], b, |b| + 1)
    modifies cur
    ensures IsRow(cur[..], a[..i], b, |b| + 1)
  {
    cur[0] := i;
    assert b[..0] == [];
    for j := 1 to |b| + 1
      invariant prev[..] == old(prev[..])
      invariant IsRow(cur[..], a[..i], b, j)
    {
      CellValue(prev[..], cur[..], a, b, i, j);
      ghost var left := cur[..];
      var cost := if a[i - 1] != b[j - 1] then 1 else 0;
      var del := prev[j] + 1;
      var ins := cur[j - 1] + 1;
      var sub := prev[j - 1] + cost;
      cur[j] := Min(del, Min(ins, sub));
      RowExtends(left, cur[..], a[..i], b, j);
    }
  }

  method FirstRow(b: string, prev: array<int>)
    requires prev.Length == |b| + 1
    modifies prev
    ensures IsRow(prev[..], [], b, |b| + 1)
  {
    for j := 0 to |b| + 1
      invariant forall k :: 0 <= k < j ==> prev[k] == k
    {
      prev[j] := j;
    }
  }

  // The dynamic programming table, two rows at a time.
  method TwoRows(a: string, b: string) returns (dist: int)
    ensures dist == Distance(a, b)
  {
    var prev := new int[|b| + 1];
    var cur := new int[|b| + 1];
    FirstRow(b, prev);
    for i := 1 to |a| + 1
      invariant prev.Length == cur.Length == |b| + 1 && prev != cur
      invariant fresh(prev) && fresh(cur)
      invariant IsRow(prev[..], a[..i - 1], b, |b| + 1)
    {
      FillRow(a, b, i, prev, cur);
      prev, cur := cur, prev;
    }
    LastCell(prev[..], a, b);
    return prev[|b|];
  }

  lemma LastCell(row: seq<int>, a: string, b: string)
    requires IsRow(row, a[..|a|], b, |b| + 1)
    ensures row[|b|] == Distance(a, b)
  {
    assert a[..|a|] == a && b[..|b|] == b;
  }

  // One minus the distance over the longer length; equal strings, the empty ones included, score one.
  function Ratio(a: string, b: string): real {
    if a == b then 1.0 else 1.0 - Distance(a, b) as real / Max(|a|, |b|) as real
  }

  method LevenshteinRatio(a: string, b: string) returns (ratio: real)
    ensures ratio == Ratio(a, b)
  {
    if a == b {
      return 1.0;
    }
    var la, lb := |a|, |b|;
    if la == 0 || lb == 0 {
      return 0.0;
    }
    var dist := TwoRows(a, b);
    var maxLen := la;
    if lb > maxLen {
      maxLen := lb;
    }
    return 1.0 - dist as real / maxLen as real;
  }

  lemma RatioLaws(a: string, b: string)
    ensures 0.0 <= Ratio(a, b) <= 1.0
    ensures Ratio(a, b) == Ratio(b, a)
    ensures Ratio(a, b) == 1.0 <==> a == b
  {
    DistanceBounds(a, b);
    DistanceSymmetric(a, b);
    DistanceZero(a, b);
    if a != b {
      var d, m := Distance(a, b) as real, Max(|a|, |b|) as real;
      assert 0.0 < d <= m;
      QuotientInUnit(d, m);
    }
  }

  lemma QuotientInUnit(d: real, m: real)
    requires 0.0 <= d <= m && m > 0.0
    ensures 0.0 <= d / m <= 1.0
    ensures d > 0.0 ==> d / m > 0.0
    ensures d / m == 1.0 <==> d == m
  {
  }

  // ---- title similarity ----

  ghost function Tokens(s: string): set<string> {
    set t | t in Fields(s)
  }

  function Jaccard(a: set<string>, b: set<string>): real {
    if |a| + |b| - |a * b| == 0 then 0.0
    else |a * b| as real / (|a| + |b| - |a * b|) as real
  }

  // The similarity of two normalized titles.
  ghost function TitleSimilarity(na: string, nb: string): real {
    if na == nb then 1.0
    else if na == "" || nb == "" then 0.0
    else
      var jaccard := Jaccard(Tokens(na), Tokens(nb));
      if (|Fields(na)| <= 2 || |Fields(nb)| <= 2) && Tokens(na) + Tokens(nb) != {} && Ratio(na, nb) > jaccard
      then Ratio(na, nb) else jaccard
  }

  lemma JaccardLaws(a: set<string>, b: set<string>)
    ensures 0.0 <= Jaccard(a, b) <= 1.0
    ensures Jaccard(a, b) == Jaccard(b, a)
    ensures Jaccard(a, b) == 1.0 <==> a == b && a != {}
    ensures |a| + |b| - |a * b| == |a + b|
  {
    assert a * b == b * a;
    assert a + b == b + a;
    assert |a + b| == |a| + |b| - |a * b|;
    assert a + b == a * b + ((a + b) - a * b);
    assert |a + b| == |a * b| + |(a + b) - a * b|;
    if a + b != {} {
      QuotientInUnit(|a * b| as real, |a + b| as real);
      assert |(a + b) - a * b| == 0 <==> (a + b) - a * b == {};
      assert (a + b) - a * b == {} <==> a == b;
    }
  }

  lemma SimilarityLaws(na: string, nb: string)
    ensures 0.0 <= TitleSimilarity(na, nb) <= 1.0
    ensures TitleSimilarity(na, nb) == TitleSimilarity(nb, na)
    ensures TitleSimilarity(na, nb) == 1.0 <==>
            na == nb || (na != "" && nb != "" && Tokens(na) == Tokens(nb) && Tokens(na) != {})
  {
    RatioLaws(na, nb);
    JaccardLaws(Tokens(na), Tokens(nb));
    assert Tokens(na) + Tokens(nb) == Tokens(nb) + Tokens(na);
  }

  // Two titles are fully similar exactly when they have the same words, in whatever order and number.
  lemma FullySimilarIff(lower: string -> string, a: string, b: string)
    ensures TitleSimilarity(NormalizeTitle(lower, a), NormalizeTitle(lower, b)) == 1.0 <==>
            (set w | w in Words(lower, a)) == (set w | w in Words(lower, b))
  {
    var na, nb := NormalizeTitle(lower, a), NormalizeTitle(lower, b);
    SimilarityLaws(na, nb);
    SameKeyIff(lower, a, b);
    SameKeyIff(lower, b, a);
    NormalizedIsWords(lower, a);
    NormalizedIsWords(lower, b);
    JoinedEmpty(Words(lower, a));
    JoinedEmpty(Words(lower, b));
    assert Words(lower, a) != [] ==> Words(lower, a)[0] in Tokens(na);
    assert Words(lower, b) != [] ==> Words(lower, b)[0] in Tokens(nb);
  }

  method Similarity(lower: string -> string, a: string, b: string) returns (similarity: real)
    ensures similarity == TitleSimilarity(NormalizeTitle(lower, a), NormalizeTitle(lower, b))
  {
    var na := NormalizeTitle(lower, a);
    var nb := NormalizeTitle(lower, b);
    if na == nb {
      return 1.0;
    }
    if na == "" || nb == "" {
      return 0.0;
    }
    var ta, tb := Fields(na), Fields(nb);
    var setA := TokenSet(ta);
    var setB := TokenSet(tb);
    var inter := CountShared(setA, setB);
    var union := |setA| + |setB| - inter;
    JaccardLaws(setA, setB);
    if union == 0 {
      return 0.0;
    }
    var jaccard := inter as real / union as real;
    if |ta| <= 2 || |tb| <= 2 {
      var lev := LevenshteinRatio(na, nb);
      if lev > jaccard {
        return lev;
      }
    }
    return jaccard;
  }

  method TokenSet(tokens: seq<string>) returns (s: set<string>)
    ensures s == set t | t in tokens
  {
    s := {};
    for i := 0 to |tokens|
      invariant s == set t | t in tokens[..i]
    {
      s := s + {tokens[i]};
    }
    assert tokens[..|tokens|] == tokens;
  }

  lemma SharedGrows(a: set<string>, b: set<string>, todo: set<string>, k: string)
    requires todo <= a && k in todo
    ensures |(a - (todo - {k})) * b| == |(a - todo) * b| + if k in b then 1 else 0
  {
    assert (a - (todo - {k})) * b == (a - todo) * b + (if k in b then {k} else {});
  }

  method CountShared(a: set<string>, b: set<string>) returns (n: nat)
    ensures n == |a * b|
  {
    n := 0;
    var todo := a;
    while todo != {}
      invariant todo <= a
      invariant n == |(a - todo) * b|
    {
      var k :| k in todo;
      SharedGrows(a, b, todo, k);
      if k in b {
        n := n + 1;
      }
      todo := todo - {k};
    }
    assert (a - todo) * b == a * b;
  }

  // Similar enough to be treated as a duplicate.
  method IsSimilar(lower: string -> string, a: string, b: string) returns (similar: bool)
    ensures similar <==> TitleSimilarity(NormalizeTitle(lower, a), NormalizeTitle(lower, b)) >= 0.8
  {
    var s := Similarity(lower, a, b);
    return s >= 0.8;
  }
}
