/** The source fingerprint of a snapshot (exchange/snapshot.go). Names and contents are byte strings. */
module Snapshot {
  import opened Ordering
  import opened Text

  type Entries = map<string, string>

  datatype Digest = Sha256(input: string)

  predicate IsAggregate(name: string) {
    name == "manifest.json" || name == "declarations.json" || name == "integrity.json"
  }

  // The committed part of an entry set.
  function Source(entries: Entries): Entries {
    map n | n in entries && !IsAggregate(n) :: entries[n]
  }

  // Each entry contributes its name and its content, both closed by a zero byte.
  function Framed(name: string, data: string): string {
    name + ['\0'] + (data + ['\0'])
  }

  function Stream(names: seq<string>, entries: Entries): string
    requires forall n :: n in names ==> n in entries
  {
    if names == [] then ""
    else Framed(names[0], entries[names[0]]) + Stream(names[1..], entries)
  }

  // The hashed bytes: the source entries in name order.
  ghost function FingerprintInput(entries: Entries): string {
    Stream(Ascending(Source(entries).Keys), Source(entries))
  }

  method SnapshotFingerprint(entries: Entries) returns (d: Digest)
    ensures d == Sha256(FingerprintInput(entries))
  {
    var names := CollectNames(entries);
    var input := "";
    for i := 0 to |names|
      invariant input + Stream(names[i..], Source(entries)) == FingerprintInput(entries)
    {
      StreamStep(input, names[i..], Source(entries));
      assert names[i..][1..] == names[i + 1..];
      input := input + names[i];
      input := input + ['\0'];
      input := input + entries[names[i]];
      input := input + ['\0'];
    }
    assert names[|names|..] == [];
    assert input + "" == input;
    return Sha256(input);
  }

  lemma StreamStep(input: string, names: seq<string>, entries: Entries)
    requires names != [] && forall n :: n in names ==> n in entries
    ensures input + Stream(names, entries)
            == (input + names[0] + ['\0'] + entries[names[0]] + ['\0']) + Stream(names[1..], entries)
  {
  }

  // The names of the source entries, gathered in any order and sorted.
  method CollectNames(entries: Entries) returns (names: seq<string>)
    ensures names == Ascending(Source(entries).Keys)
  {
    names := [];
    var todo := entries.Keys;
    while todo != {}
      invariant todo <= entries.Keys
      invariant Distinct(names)
      invariant forall n :: n in names <==> n in entries && n !in todo && !IsAggregate(n)
    {
      var name :| name in todo;
      todo := todo - {name};
      if IsAggregate(name) {
        continue;
      }
      names := names + [name];
    }
    SortKeepsElements(names);
    names := SortStrings(names);
    SortedIsAscending(names, Source(entries).Keys);
  }

  predicate NulFree(s: string) {
    '\0' !in s
  }

  ghost predicate NulFreeEntries(entries: Entries) {
    forall n :: n in entries ==> NulFree(n) && NulFree(entries[n])
  }

  lemma FramedSplits(n: string, x: string, s: string, n': string, x': string, s': string)
    requires NulFree(n) && NulFree(x) && NulFree(n') && NulFree(x')
    requires Framed(n, x) + s == Framed(n', x') + s'
    ensures n == n' && x == x' && s == s'
  {
    assert Framed(n, x) + s == n + ['\0'] + (x + ['\0'] + s);
    assert Framed(n', x') + s' == n' + ['\0'] + (x' + ['\0'] + s');
    SameFirstSplit(n, x + ['\0'] + s, '\0', n', x' + ['\0'] + s');
    SameFirstSplit(x, s, '\0', x', s');
  }

  lemma {:induction false} StreamDetermines(a: seq<string>, x: Entries, b: seq<string>, y: Entries)
    requires (forall n :: n in a ==> n in x) && (forall n :: n in b ==> n in y)
    requires NulFreeEntries(x) && NulFreeEntries(y)
    requires Stream(a, x) == Stream(b, y)
    ensures a == b && forall n :: n in a ==> x[n] == y[n]
  {
    if a != [] && b != [] {
      FramedSplits(a[0], x[a[0]], Stream(a[1..], x), b[0], y[b[0]], Stream(b[1..], y));
      StreamDetermines(a[1..], x, b[1..], y);
      assert a == [a[0]] + a[1..] && b == [b[0]] + b[1..];
    }
  }

  // Without zero bytes the hashed bytes determine the source entries, and the source entries alone
  // determine the hashed bytes.
  lemma FingerprintDeterminesSource(x: Entries, y: Entries)
    requires NulFreeEntries(Source(x)) && NulFreeEntries(Source(y))
    ensures FingerprintInput(x) == FingerprintInput(y) <==> Source(x) == Source(y)
  {
    if FingerprintInput(x) == FingerprintInput(y) {
      var a, b := Ascending(Source(x).Keys), Ascending(Source(y).Keys);
      StreamDetermines(a, Source(x), b, Source(y));
      assert forall n :: n in Source(x) <==> n in a;
      assert forall n :: n in Source(y) <==> n in b;
    }
  }

  // Aggregates never take part.
  lemma AggregatesDoNotCount(x: Entries, name: string, data: string)
    requires IsAggregate(name)
    ensures FingerprintInput(x[name := data]) == FingerprintInput(x) == FingerprintInput(x - {name})
  {
    assert Source(x[name := data]) == Source(x) == Source(x - {name});
  }

  // ---- zero bytes in contents ----

  function Zeros(s: string): nat {
    if s == "" then 0 else Zeros(s[..|s| - 1]) + if s[|s| - 1] == '\0' then 1 else 0
  }

  lemma {:induction false} ZerosConcat(a: string, b: string)
    ensures Zeros(a + b) == Zeros(a) + Zeros(b)
  {
    if b == "" {
      assert a + b == a;
    } else {
      assert (a + b)[..|a + b| - 1] == a + b[..|b| - 1];
      ZerosConcat(a, b[..|b| - 1]);
    }
  }

  lemma {:induction false} NoZeros(s: string)
    ensures Zeros(s) == 0 <==> NulFree(s)
  {
    if s != "" {
      NoZeros(s[..|s| - 1]);
      assert s == s[..|s| - 1] + [s[|s| - 1]];
    }
  }

  lemma ZerosOfFrame(name: string, data: string)
    ensures Zeros(Framed(name, data)) == Zeros(name) + Zeros(data) + 2
  {
    ZerosConcat(name + ['\0'], data + ['\0']);
    ZerosConcat(name, ['\0']);
    ZerosConcat(data, ['\0']);
    assert Zeros(['\0']) == 1;
  }

  // Every entry brings two zero bytes of its own; further ones come from names and contents.
  lemma {:induction false} ZerosOfStream(names: seq<string>, e: Entries)
    requires forall n :: n in names ==> n in e
    ensures Zeros(Stream(names, e)) >= 2 * |names|
    ensures Zeros(Stream(names, e)) == 2 * |names| <==> forall n :: n in names ==> NulFree(n) && NulFree(e[n])
  {
    if names != [] {
      ZerosConcat(Framed(names[0], e[names[0]]), Stream(names[1..], e));
      ZerosOfFrame(names[0], e[names[0]]);
      NoZeros(names[0]);
      NoZeros(e[names[0]]);
      ZerosOfStream(names[1..], e);
      assert names == [names[0]] + names[1..];
    }
  }

  lemma SourceZeros(e: Entries)
    ensures Zeros(FingerprintInput(e)) == 2 * |Source(e)| <==> NulFreeEntries(Source(e))
  {
    var names := Ascending(Source(e).Keys);
    ZerosOfStream(names, Source(e));
    AscendingIsSorted(Source(e).Keys);
    DistinctSize(names);
    assert Elems(names) == Source(e).Keys;
  }

  // The entry n with content x + zero + y, renamed so that the name swallows x and its zero byte.
  function Renamed(e: Entries, n: string, x: string, y: string): Entries {
    (e - {n})[n + ['\0'] + x := y]
  }

  lemma SameFrame(n: string, x: string, y: string)
    ensures Framed(n, x + ['\0'] + y) == Framed(n + ['\0'] + x, y)
  {
  }

  lemma {:induction false} LongerNameFollows(n: string, x: string, q: string, i: nat)
    requires NulFree(q) && i <= |n| && i <= |q| && n[..i] == q[..i] && LessFrom(n, q, i)
    ensures LessFrom(n + ['\0'] + x, q, i)
    decreases |q| - i
  {
    if i < |n| {
      assert (n + ['\0'] + x)[i] == n[i];
      if n[i] == q[i] {
        assert n[..i + 1] == n[..i] + [n[i]] && q[..i + 1] == q[..i] + [q[i]];
        LongerNameFollows(n, x, q, i + 1);
      }
    } else {
      assert q[i] in q;
      assert (n + ['\0'] + x)[i] == '\0';
    }
  }

  lemma {:induction false} ExtensionFollows(n: string, s: string, i: nat)
    requires s != "" && i <= |n|
    ensures LessFrom(n, n + s, i)
    decreases |n| - i
  {
    if i < |n| { ExtensionFollows(n, s, i + 1); }
  }

  // The renamed entry keeps its place in the order.
  lemma RenamedOrder(names: seq<string>, k: nat, x: string)
    requires Sorted(names) && Distinct(names) && k < |names|
    requires forall n :: n in names ==> NulFree(n)
    ensures Sorted(names[k := names[k] + ['\0'] + x]) && Distinct(names[k := names[k] + ['\0'] + x])
  {
    var long := names[k] + ['\0'] + x;
    assert names[k] + (['\0'] + x) == long;
    ExtensionFollows(names[k], ['\0'] + x, 0);
    assert long[|names[k]|] == '\0';
    var r := names[k := long];
    forall i, j | 0 <= i < j < |r|
      ensures AtMost(r[i], r[j]) && r[i] != r[j]
    {
      assert names[i] in names && names[j] in names && Less(names[i], names[j]);
      if i == k {
        LongerNameFollows(names[k], x, names[j], 0);
        LessAsymmetric(long, names[j]);
      } else if j == k {
        LessTransitive(names[i], names[k], long);
        LessAsymmetric(names[i], long);
      }
    }
  }

  lemma {:induction false} StreamOfRenamed(names: seq<string>, k: nat, e: Entries, f: Entries, x: string, y: string)
    requires k < |names| && Distinct(names) && (forall n :: n in names ==> n in e)
    requires e[names[k]] == x + ['\0'] + y
    requires names[k] + ['\0'] + x in f && f[names[k] + ['\0'] + x] == y
    requires forall i :: 0 <= i < |names| && i != k ==> names[i] in f && f[names[i]] == e[names[i]]
    ensures forall n :: n in names[k := names[k] + ['\0'] + x] ==> n in f
    ensures Stream(names[k := names[k] + ['\0'] + x], f) == Stream(names, e)
  {
    var r := names[k := names[k] + ['\0'] + x];
    assert forall n :: n in r ==> n in f;
    if k == 0 {
      SameFrame(names[0], x, y);
      SameStream(names[1..], e, f);
      assert r[1..] == names[1..];
    } else {
      StreamOfRenamed(names[1..], k - 1, e, f, x, y);
      assert r[1..] == names[1..][k - 1 := names[k] + ['\0'] + x];
    }
  }

  lemma {:induction false} SameStream(names: seq<string>, e: Entries, f: Entries)
    requires forall n :: n in names ==> n in e && n in f && e[n] == f[n]
    ensures Stream(names, e) == Stream(names, f)
  {
    if names != [] { SameStream(names[1..], e, f); }
  }

  // Moving the first zero byte of the content under n into its name.
  lemma RenamedHashesSame(e: Entries, n: string, x: string, y: string)
    requires Source(e) == e && n in e && e[n] == x + ['\0'] + y
    requires forall m :: m in e ==> NulFree(m)
    requires n + ['\0'] + x !in e
    ensures Source(Renamed(e, n, x, y)) == Renamed(e, n, x, y)
    ensures FingerprintInput(Renamed(e, n, x, y)) == FingerprintInput(e)
  {
    var long := n + ['\0'] + x;
    var f := Renamed(e, n, x, y);
    assert long[|n|] == '\0';
    NotAggregate(long);
    assert Source(f) == f;
    var names := Ascending(e.Keys);
    AscendingIsSorted(e.Keys);
    assert n in names;
    var k :| 0 <= k < |names| && names[k] == n;
    RenamedOrder(names, k, x);
    RenamedNames(names, k, long, e, f);
    SortedIsAscending(names[k := long], f.Keys);
    StreamOfRenamed(names, k, e, f, x, y);
  }

  lemma RenamedSize(e: Entries, n: string, x: string, y: string)
    requires n in e && n + ['\0'] + x !in e
    ensures n !in Renamed(e, n, x, y) && |Renamed(e, n, x, y)| == |e|
  {
    var f := Renamed(e, n, x, y);
    var long := n + ['\0'] + x;
    assert |long| > |n|;
    assert f.Keys == (e.Keys - {n}) + {long};
    assert |f.Keys| == |e.Keys|;
  }

  // A zero byte inside a content lets a different entry set of the same size hash to the same value.
  lemma ZeroByteIsAmbiguous(e: Entries, n: string) returns (f: Entries)
    requires n in Source(e) && !NulFree(e[n])
    requires forall m :: m in Source(e) ==> NulFree(m)
    ensures Source(f) != Source(e) && |Source(f)| == |Source(e)|
    ensures FingerprintInput(f) == FingerprintInput(e)
  {
    var s := Source(e);
    var i := IndexOfChar(e[n], '\0');
    var x, y := e[n][..i], e[n][i + 1..];
    assert e[n] == x + ['\0'] + y;
    var long := n + ['\0'] + x;
    assert long[|n|] == '\0';
    f := Renamed(s, n, x, y);
    assert Source(s) == s;
    RenamedHashesSame(s, n, x, y);
    RenamedSize(s, n, x, y);
  }

  lemma NotAggregate(name: string)
    requires '\0' in name
    ensures !IsAggregate(name)
  {
  }

  lemma RenamedNames(names: seq<string>, k: nat, long: string, e: Entries, f: Entries)
    requires k < |names| && Distinct(names) && forall m :: m in names <==> m in e
    requires f.Keys == (e.Keys - {names[k]}) + {long} && long !in e
    requires forall m :: m in e && m != names[k] ==> f[m] == e[m]
    ensures forall m :: m in names[k := long] <==> m in f
    ensures forall i :: 0 <= i < |names| && i != k ==> names[i] in f && f[names[i]] == e[names[i]]
  {
    var r := names[k := long];
    forall m
      ensures m in r <==> m in f
    {
      if m in f && m != long {
        var i :| 0 <= i < |names| && names[i] == m;
        assert r[i] == m;
      }
      if m in r {
        var i :| 0 <= i < |r| && r[i] == m;
        assert i != k ==> names[i] in names;
      }
      assert r[k] == long;
    }
    forall i | 0 <= i < |names| && i != k
      ensures names[i] in f && f[names[i]] == e[names[i]]
    {
      assert names[i] in names;
    }
  }

  ghost predicate Determined(e: Entries) {
    forall f: Entries :: |Source(f)| == |Source(e)| && FingerprintInput(f) == FingerprintInput(e) ==> Source(f) == Source(e)
  }

  // For ordinary file names: the fingerprint identifies an entry set among those of its size exactly when
  // no content holds a zero byte.
  lemma DeterminedIffNulFree(e: Entries)
    requires forall n :: n in Source(e) ==> NulFree(n)
    ensures Determined(e) <==> NulFreeEntries(Source(e))
  {
    if NulFreeEntries(Source(e)) {
      SourceZeros(e);
      forall f: Entries | |Source(f)| == |Source(e)| && FingerprintInput(f) == FingerprintInput(e)
        ensures Source(f) == Source(e)
      {
        SourceZeros(f);
        FingerprintDeterminesSource(e, f);
      }
    } else {
      var n :| n in Source(e) && !NulFree(e[n]);
      var f := ZeroByteIsAmbiguous(e, n);
      assert Source(f) != Source(e);
    }
  }
}
