/** Normalized titles and their words (runtime/capture.go). */
module Titles {
  import opened Text

  predicate IsWordChar(c: char) {
    'a' <= c <= 'z' || '0' <= c <= '9'
  }

  // Everything but lower-case letters, digits and spaces becomes a space.
  function Blanked(s: string): string {
    if s == "" then "" else [if IsWordChar(s[0]) then s[0] else ' '] + Blanked(s[1..])
  }

  // Every run of spaces becomes one.
  function Collapsed(s: string): string {
    if s == "" then ""
    else if s[0] == ' ' && |s| > 1 && s[1] == ' ' then Collapsed(s[1..])
    else [s[0]] + Collapsed(s[1..])
  }

  // lower is strings.ToLower.
  function NormalizeTitle(lower: string -> string, title: string): string {
    TrimSpace(Collapsed(Blanked(lower(title))))
  }

  // strings.Fields of a normalized title: the runs of characters other than the space.
  function Fields(s: string): seq<string> {
    FieldsFrom(s, [])
  }

  function FieldsFrom(s: string, word: string): seq<string> {
    if s == [] then (if word == [] then [] else [word])
    else if s[0] == ' ' then (if word == [] then [] else [word]) + FieldsFrom(s[1..], [])
    else FieldsFrom(s[1..], word + [s[0]])
  }

  // The words of a raw title.
  function Words(lower: string -> string, title: string): seq<string> {
    Fields(Blanked(lower(title)))
  }

  // One space between two words.
  function Joined(words: seq<string>): string {
    if words == [] then "" else words[0] + if |words| == 1 then "" else " " + Joined(words[1..])
  }

  predicate Plain(s: string) {
    forall i :: 0 <= i < |s| ==> IsWordChar(s[i]) || s[i] == ' '
  }

  predicate IsWord(s: string) {
    s != "" && forall i :: 0 <= i < |s| ==> IsWordChar(s[i])
  }

  predicate AreWords(words: seq<string>) {
    forall i :: 0 <= i < |words| ==> IsWord(words[i])
  }

  lemma {:induction false} BlankedIsPlain(s: string)
    ensures Plain(Blanked(s))
  {
    if s != "" { BlankedIsPlain(s[1..]); }
  }

  lemma WordCharIsNoSpace(c: char)
    ensures IsWordChar(c) ==> !IsSpace(c)
    ensures IsSpace(' ')
  {
  }

  lemma {:induction false} FieldsAreWords(s: string, word: string)
    requires Plain(s) && (word == "" || IsWord(word))
    ensures AreWords(FieldsFrom(s, word))
  {
    if s != "" {
      if s[0] == ' ' {
        FieldsAreWords(s[1..], []);
      } else {
        FieldsAreWords(s[1..], word + [s[0]]);
      }
    }
  }

  lemma JoinedEmpty(words: seq<string>)
    requires AreWords(words)
    ensures Joined(words) == "" <==> words == []
  {
  }

  lemma JoinedCons(word: string, words: seq<string>)
    requires words != []
    ensures Joined([word] + words) == word + (" " + Joined(words))
  {
    assert ([word] + words)[1..] == words;
  }

  // ---- trimming and collapsing ----

  lemma {:induction false} TrimLeftTwice(s: string)
    ensures TrimLeft(TrimLeft(s)) == TrimLeft(s)
  {
    if s != "" && IsSpace(s[0]) { TrimLeftTwice(s[1..]); }
  }

  lemma TrimLeftSpace(s: string)
    ensures TrimLeft(" " + s) == TrimLeft(s)
  {
    assert (" " + s)[1..] == s;
  }

  // Trimming on the right stops at the end of w.
  lemma {:induction false} TrimRightOver(w: string, r: string)
    requires w != "" && !IsSpace(w[|w| - 1])
    ensures TrimRight(w + r) == w + TrimRight(r)
  {
    if r == "" {
      assert w + r == w;
    } else {
      assert (w + r)[..|w + r| - 1] == w + r[..|r| - 1];
      if IsSpace(r[|r| - 1]) { TrimRightOver(w, r[..|r| - 1]); }
    }
  }

  lemma WordInFront(c: char, rest: string)
    requires !IsSpace(c)
    ensures TrimRight([c] + rest) == [c] + TrimRight(rest)
    ensures TrimRight(" " + ([c] + rest)) == " " + ([c] + TrimRight(rest))
  {
    TrimRightOver([c], rest);
    TrimRightOver([' ', c], rest);
    Associates(c, rest);
    Associates(c, TrimRight(rest));
  }

  lemma Associates(c: char, rest: string)
    ensures " " + ([c] + rest) == [' ', c] + rest
  {
  }

  lemma TrimRightWord(t: string)
    requires t != "" && !IsSpace(t[0])
    ensures TrimRight(" " + t) == " " + TrimRight(t) && TrimRight(t) != ""
  {
    WordInFront(t[0], t[1..]);
    assert t == [t[0]] + t[1..];
  }

  // A space in front of nothing goes, a space in front of a word stays.
  lemma TrimRightSpace(t: string)
    requires t != "" ==> !IsSpace(t[0])
    ensures TrimRight(" " + t) == if t == "" then "" else " " + TrimRight(t)
    ensures TrimRight(t) == "" <==> t == ""
  {
    if t == "" {
      assert (" " + t)[..0] == "";
    } else {
      TrimRightWord(t);
    }
  }

  lemma {:induction false} CollapsedSpace(s: string)
    requires Plain(s) && s != "" && s[0] == ' '
    ensures Collapsed(s) == " " + TrimLeft(Collapsed(s[1..]))
  {
    if |s| > 1 && s[1] == ' ' {
      CollapsedSpace(s[1..]);
      TrimLeftSpace(TrimLeft(Collapsed(s[2..])));
      TrimLeftTwice(Collapsed(s[2..]));
      assert s[1..][1..] == s[2..];
    } else if |s| > 1 {
      WordCharIsNoSpace(s[1]);
      CollapsedWord(s[1..]);
    }
  }

  lemma CollapsedWord(s: string)
    requires s != "" && s[0] != ' '
    ensures Collapsed(s) == [s[0]] + Collapsed(s[1..])
    ensures !IsSpace(s[0]) ==> TrimLeft(Collapsed(s)) == Collapsed(s)
  {
  }

  // ---- a normalized title is its words ----

  lemma {:induction false} BehindWord(s: string, word: string)
    requires Plain(s) && IsWord(word)
    ensures TrimRight(word + Collapsed(s)) == Joined(FieldsFrom(s, word))
    decreases |s|, 1
  {
    WordCharIsNoSpace(word[|word| - 1]);
    if s == "" {
      TrimRightOver(word, "");
      assert word + "" == word;
    } else if s[0] == ' ' {
      TrimRightOver(word, Collapsed(s));
      SpaceBehindWord(s, word);
    } else {
      var longer := word + [s[0]];
      BehindWord(s[1..], longer);
      CollapsedWord(s);
      assert word + Collapsed(s) == longer + Collapsed(s[1..]);
    }
  }

  lemma {:induction false} SpaceBehindWord(s: string, word: string)
    requires Plain(s) && IsWord(word) && s != "" && s[0] == ' '
    ensures word + TrimRight(Collapsed(s)) == Joined(FieldsFrom(s, word))
    decreases |s|, 0
  {
    var rest, words := TrimLeft(Collapsed(s[1..])), FieldsFrom(s[1..], []);
    CollapsedSpace(s);
    TrimLeftStart(Collapsed(s[1..]));
    TrimRightSpace(rest);
    NormalIsJoined(s[1..]);
    FieldsAreWords(s[1..], []);
    JoinedEmpty(words);
    if words == [] {
      assert [word] + words == [word] && word + "" == word;
    } else {
      JoinedCons(word, words);
    }
  }

  lemma {:induction false} NormalIsJoined(s: string)
    requires Plain(s)
    ensures TrimSpace(Collapsed(s)) == Joined(FieldsFrom(s, []))
    decreases |s|, 1
  {
    if s != "" {
      WordCharIsNoSpace(s[0]);
      if s[0] == ' ' {
        CollapsedSpace(s);
        TrimLeftSpace(TrimLeft(Collapsed(s[1..])));
        TrimLeftTwice(Collapsed(s[1..]));
        NormalIsJoined(s[1..]);
        assert [] + FieldsFrom(s[1..], []) == FieldsFrom(s[1..], []);
      } else {
        CollapsedWord(s);
        BehindWord(s[1..], [s[0]]);
        assert [] + [s[0]] == [s[0]];
      }
    }
  }

  // The normalized title is the words with one space between them.
  lemma NormalizedIsWords(lower: string -> string, title: string)
    ensures NormalizeTitle(lower, title) == Joined(Words(lower, title)) && AreWords(Words(lower, title))
  {
    BlankedIsPlain(lower(title));
    NormalIsJoined(Blanked(lower(title)));
    FieldsAreWords(Blanked(lower(title)), []);
  }

  // ---- and gives them back ----

  lemma {:induction false} FieldsOfWord(word: string, done: string, rest: string)
    requires forall i :: 0 <= i < |word| ==> IsWordChar(word[i])
    ensures FieldsFrom(word + rest, done) == FieldsFrom(rest, done + word)
  {
    if word == "" {
      assert word + rest == rest && done + word == done;
    } else {
      assert (word + rest)[1..] == word[1..] + rest && (word + rest)[0] == word[0];
      FieldsOfWord(word[1..], done + [word[0]], rest);
      assert done + [word[0]] + word[1..] == done + word;
    }
  }

  lemma {:induction false} FieldsOfJoined(words: seq<string>)
    requires AreWords(words)
    ensures Fields(Joined(words)) == words
  {
    if words != [] {
      var rest := if |words| == 1 then "" else " " + Joined(words[1..]);
      FieldsOfWord(words[0], [], rest);
      assert [] + words[0] == words[0];
      assert words == [words[0]] + words[1..];
      if |words| > 1 {
        FieldsOfJoined(words[1..]);
        assert rest[1..] == Joined(words[1..]);
      }
    }
  }

  // Two titles have the same normal form, and so the same deduplication key, exactly when they have the same words in
  // the same order; the words of the normal form are those of the title.
  lemma SameKeyIff(lower: string -> string, a: string, b: string)
    ensures NormalizeTitle(lower, a) == NormalizeTitle(lower, b) <==> Words(lower, a) == Words(lower, b)
    ensures Fields(NormalizeTitle(lower, a)) == Words(lower, a)
  {
    NormalizedIsWords(lower, a);
    NormalizedIsWords(lower, b);
    FieldsOfJoined(Words(lower, a));
    FieldsOfJoined(Words(lower, b));
  }
}
