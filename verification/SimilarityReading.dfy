/** What the similarity of two titles means: the words of the raw titles, their overlap and the edits between them
    (runtime/capture.go). */
module SimilarityReading {
  import opened Text
  import opened Titles
  import opened Capture

  // ---- the words of a raw title ----

  predicate InWord(c: char) {
    ('a' <= c && c <= 'z') || ('0' <= c && c <= '9')
  }

  predicate AllInWord(t: string, i: nat, j: nat)
    requires i <= j <= |t|
  {
    forall k :: i <= k < j ==> InWord(t[k])
  }

  // t[i..j] is a run of lower-case letters and digits that cannot be made longer.
  predicate IsRun(t: string, i: nat, j: nat) {
    && i < j <= |t| && AllInWord(t, i, j) && (i > 0 ==> !InWord(t[i - 1])) && (j < |t| ==> !InWord(t[j]))
  }

  ghost predicate RunFrom(t: string, m: nat, w: string) {
    exists i: nat, j: nat :: m <= i && IsRun(t, i, j) && w == t[i..j]
  }

  // The runs from m on, when t[m..k] is a run so far.
  predicate Open(t: string, m: nat, k: nat) {
    m <= k <= |t| && AllInWord(t, m, k) && (m > 0 ==> !InWord(t[m - 1]))
  }

  lemma BlankedStep(s: string)
    requires s != ""
    ensures Blanked(s) == [if InWord(s[0]) then s[0] else ' '] + Blanked(s[1..])
    ensures Blanked(s) != [] && Blanked(s)[1..] == Blanked(s[1..])
  {
  }

  lemma RunEndsHere(t: string, m: nat, k: nat, w: string)
    requires Open(t, m, k) && (k < |t| ==> !InWord(t[k]))
    ensures RunFrom(t, m, w) <==> (m < k && w == t[m..k]) || (k < |t| && RunFrom(t, k + 1, w))
  {
    if m < k && w == t[m..k] { assert IsRun(t, m, k); }
    if RunFrom(t, m, w) {
      var i: nat, j: nat :| m <= i && IsRun(t, i, j) && w == t[i..j];
      RunIsLater(t, m, k, i, j);
    }
  }

  // A run from m on is t[m..k] or starts behind k.
  lemma RunIsLater(t: string, m: nat, k: nat, i: nat, j: nat)
    requires Open(t, m, k) && (k < |t| ==> !InWord(t[k])) && m <= i && IsRun(t, i, j)
    ensures (i == m && j == k && m < k) || (k < |t| && k + 1 <= i)
  {
    assert i > m ==> !InWord(t[i - 1]);
  }

  lemma {:induction false} FieldsAreRuns(t: string, m: nat, k: nat, w: string)
    requires Open(t, m, k)
    ensures w in FieldsFrom(Blanked(t[k..]), t[m..k]) <==> RunFrom(t, m, w)
    decreases |t| - k
  {
    if k == |t| {
      RunEndsHere(t, m, k, w);
    } else {
      var s := t[k..];
      BlankedStep(s);
      assert s[1..] == t[k + 1..];
      if InWord(t[k]) {
        assert t[m..k] + [t[k]] == t[m..k + 1];
        FieldsAreRuns(t, m, k + 1, w);
      } else {
        assert t[k + 1..k + 1] == [];
        FieldsAreRuns(t, k + 1, k + 1, w);
        RunEndsHere(t, m, k, w);
      }
    }
  }

  // The words of a title are the runs of lower-case letters and digits in its lower-case form.
  lemma WordsAreRuns(lower: string -> string, title: string, w: string)
    ensures w in Words(lower, title) <==> exists i: nat, j: nat :: IsRun(lower(title), i, j) && w == lower(title)[i..j]
  {
    var t := lower(title);
    FieldsAreRuns(t, 0, 0, w);
    assert t[0..] == t && t[0..0] == [];
    if exists i: nat, j: nat :: IsRun(t, i, j) && w == t[i..j] {
      var i: nat, j: nat :| IsRun(t, i, j) && w == t[i..j];
      assert RunFrom(t, 0, w);
    }
  }

  // ---- the two measures ----

  ghost function WordSet(words: seq<string>): set<string> {
    set w | w in words
  }

  // The share of the common words among all.
  ghost predicate IsOverlap(r: real, a: set<string>, b: set<string>) {
    a + b != {} && r * |a + b| as real == |a * b| as real
  }

  function Longer(a: string, b: string): nat {
    if |a| < |b| then |b| else |a|
  }

  // r is what d leaves of n, in parts of n.
  predicate IsRest(r: real, d: real, n: real) {
    (1.0 - r) * n == d
  }

  // What is left of one after the edits over the longer length.
  ghost predicate IsEditRatio(r: real, a: string, b: string) {
    && (a != "" || b != "") && (a == b ==> r == 1.0)
    && IsRest(r, Distance(a, b) as real, Longer(a, b) as real)
  }

  lemma Quotient(x: real, n: real, r: real)
    requires n > 0.0
    ensures r == x / n <==> r * n == x
  {
  }

  lemma OverlapIff(a: set<string>, b: set<string>, r: real)
    requires a + b != {}
    ensures Jaccard(a, b) == r <==> IsOverlap(r, a, b)
  {
    JaccardLaws(a, b);
    assert |a + b| > 0;
    Quotient(|a * b| as real, |a + b| as real, r);
  }

  lemma RestOfQuotient(d: real, n: real, r: real)
    requires n > 0.0 && r == 1.0 - d / n
    ensures IsRest(r, d, n)
  {
    Quotient(d, n, 1.0 - r);
  }

  lemma NothingUsed(n: real)
    ensures IsRest(1.0, 0.0, n)
  {
  }

  lemma RatioOf(a: string, b: string)
    requires a != b
    ensures Longer(a, b) > 0 && Ratio(a, b) == 1.0 - Distance(a, b) as real / Longer(a, b) as real
  {
  }

  lemma EditRatioIs(a: string, b: string)
    requires a != "" || b != ""
    ensures IsEditRatio(Ratio(a, b), a, b)
  {
    if a == b {
      DistanceSelf(a);
      NothingUsed(Longer(a, b) as real);
    } else {
      RatioOf(a, b);
      RestOfQuotient(Distance(a, b) as real, Longer(a, b) as real, Ratio(a, b));
    }
  }

  // The greater of the two.
  predicate IsGreater(r: real, x: real, y: real) {
    r >= x && r >= y && (r == x || r == y)
  }

  ghost predicate IsShortSimilarity(r: real, wa: seq<string>, wb: seq<string>) {
    exists x, y ::
      && IsOverlap(x, WordSet(wa), WordSet(wb)) && IsEditRatio(y, Joined(wa), Joined(wb))
      && (if |wa| <= 2 || |wb| <= 2 then IsGreater(r, x, y) else r == x)
  }

  // What two titles of the given words have in common: all, nothing when one has no words, the overlap of the words,
  // or the edit ratio where it is greater and one of them has at most two words.
  ghost predicate IsSimilarity(r: real, wa: seq<string>, wb: seq<string>) {
    if wa == wb then r == 1.0
    else if wa == [] || wb == [] then r == 0.0
    else IsShortSimilarity(r, wa, wb)
  }

  lemma MeasuresOf(wa: seq<string>, wb: seq<string>)
    requires AreWords(wa) && AreWords(wb) && wa != [] && wb != []
    ensures Joined(wa) != "" && WordSet(wa) + WordSet(wb) != {}
    ensures IsOverlap(Jaccard(WordSet(wa), WordSet(wb)), WordSet(wa), WordSet(wb))
    ensures IsEditRatio(Ratio(Joined(wa), Joined(wb)), Joined(wa), Joined(wb))
  {
    JoinedEmpty(wa);
    assert wa[0] in WordSet(wa);
    assert wa[0] in WordSet(wa) + WordSet(wb);
    OverlapIff(WordSet(wa), WordSet(wb), Jaccard(WordSet(wa), WordSet(wb)));
    EditRatioIs(Joined(wa), Joined(wb));
  }

  lemma ShortIs(na: string, nb: string, wa: seq<string>, wb: seq<string>)
    requires AreWords(wa) && AreWords(wb) && wa != wb && wa != [] && wb != []
    requires na == Joined(wa) && nb == Joined(wb) && Fields(na) == wa && Fields(nb) == wb
    ensures IsShortSimilarity(TitleSimilarity(na, nb), wa, wb)
  {
    MeasuresOf(wa, wb);
    MeasuresOf(wb, wa);
    assert Tokens(na) == WordSet(wa) && Tokens(nb) == WordSet(wb);
  }

  lemma SimilarityIs(lower: string -> string, a: string, b: string)
    ensures IsSimilarity(TitleSimilarity(NormalizeTitle(lower, a), NormalizeTitle(lower, b)),
                         Words(lower, a), Words(lower, b))
  {
    var wa, wb := Words(lower, a), Words(lower, b);
    SameKeyIff(lower, a, b);
    SameKeyIff(lower, b, a);
    NormalizedIsWords(lower, a);
    NormalizedIsWords(lower, b);
    JoinedEmpty(wa);
    JoinedEmpty(wb);
    if wa != wb && wa != [] && wb != [] {
      ShortIs(NormalizeTitle(lower, a), NormalizeTitle(lower, b), wa, wb);
    }
  }

  // ---- two spellings of one word ----

  lemma OneLetterMore()
    ensures Distance("color", "colour") <= 1
  {
    assert EditsAt("color", "colour", "colo", "r", "", "u");
    OneEditIsNear("color", "colour");
  }

  // Titles of the one word, in whatever case and punctuation, are treated as duplicates.
  lemma ColorIsColour(lower: string -> string, a: string, b: string)
    requires Words(lower, a) == ["color"] && Words(lower, b) == ["colour"]
    ensures TitleSimilarity(NormalizeTitle(lower, a), NormalizeTitle(lower, b)) > 0.8
  {
    SimilarityIs(lower, a, b);
    OneLetterMore();
    assert Joined(["color"]) == "color" && Joined(["colour"]) == "colour";
    var r := TitleSimilarity(NormalizeTitle(lower, a), NormalizeTitle(lower, b));
    assert ["color"][0] != ["colour"][0];
    var x, y :| && IsOverlap(x, WordSet(["color"]), WordSet(["colour"])) && IsEditRatio(y, "color", "colour")
                && IsGreater(r, x, y);
  }
}
