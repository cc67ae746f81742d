/** The compact JSON of a block, and what it is worth in front of other bytes (exchange/serialize.go, exchange/emit.go,
    store/payloads.go). */
module JsonText {
  import opened Text

  // A value as the encoder sees it; the members of an object come in their declared order.
  datatype Json =
    | Null
    | Flag(value: bool)
    | Number(digits: string)
    | Str(text: string)
    | Items(items: seq<Json>)
    | Object(members: seq<Member>)

  datatype Member = Member(key: string, value: Json)

  // ---- numbers ----

  predicate IsNumberChar(c: char) {
    '0' <= c <= '9' || c == '-' || c == '+' || c == '.' || c == 'e' || c == 'E'
  }

  // The text of a number, as far as reading it back needs to know.
  predicate IsNumber(s: string) {
    s != "" && ('0' <= s[0] <= '9' || s[0] == '-') && forall i :: 0 <= i < |s| ==> IsNumberChar(s[i])
  }

  predicate Writable(j: Json) {
    match j
    case Number(digits) => IsNumber(digits)
    case Items(items) => forall i :: 0 <= i < |items| ==> Writable(items[i])
    case Object(members) => forall i :: 0 <= i < |members| ==> Writable(members[i].value)
    case _ => true
  }

  // ---- strings ----

  function HexDigit(n: nat): char
    requires n < 16
  {
    "0123456789abcdef"[n]
  }

  function Hex4(n: nat): string
    requires n < 0x10000
  {
    [HexDigit(n / 16 / 16 / 16), HexDigit(n / 16 / 16 % 16), HexDigit(n / 16 % 16), HexDigit(n % 16)]
  }

  // The letter of a two-character escape.
  function ShortEscape(c: char): char {
    if c == '\n' then 'n' else if c == '\r' then 'r' else if c == '\t' then 't'
    else if c as int == 8 then 'b' else if c as int == 12 then 'f' else c
  }

  predicate IsShort(c: char) {
    c == '"' || c == '\\' || c == '\n' || c == '\r' || c == '\t' || c as int == 8 || c as int == 12
  }

  // Characters written by their code: the other control characters, those with a meaning in HTML, and the two line
  // separators.
  predicate IsCoded(c: char) {
    !IsShort(c) && (c as int < 0x20 || c == '<' || c == '>' || c == '&' || c as int == 0x2028 || c as int == 0x2029)
  }

  function Escape(c: char): string {
    if IsShort(c) then ['\\', ShortEscape(c)]
    else if IsCoded(c) then ['\\', 'u'] + Hex4(c as int)
    else [c]
  }

  // The rest of a string behind its opening quote.
  function QuoteTail(s: string): string {
    if s == "" then "\"" else Escape(s[0]) + QuoteTail(s[1..])
  }

  function Quote(s: string): string {
    "\"" + QuoteTail(s)
  }

  // ---- values ----

  function Print(j: Json): string {
    match j
    case Null => "null"
    case Flag(value) => if value then "true" else "false"
    case Number(digits) => digits
    case Str(text) => Quote(text)
    case Items(items) => "[" + ItemsTail(items, true)
    case Object(members) => "{" + MembersTail(members, true)
  }

  function Comma(first: bool): string {
    if first then "" else ","
  }

  // The rest of an array; a comma stands before every element but the first.
  function ItemsTail(items: seq<Json>, first: bool): string {
    if items == [] then "]"
    else Comma(first) + Print(items[0]) + ItemsTail(items[1..], false)
  }

  function MembersTail(members: seq<Member>, first: bool): string {
    if members == [] then "}"
    else
      Comma(first) + Quote(members[0].key) + ":" + Print(members[0].value) + MembersTail(members[1..], false)
  }

  // ---- reading one escape ----

  lemma HexDigitTells(m: nat, n: nat)
    requires m < 16 && n < 16 && HexDigit(m) == HexDigit(n)
    ensures m == n
  {
  }

  lemma SixteenTells(m: nat, n: nat)
    requires m / 16 == n / 16 && m % 16 == n % 16
    ensures m == n
  {
  }

  lemma Hex4Tells(m: nat, n: nat)
    requires m < 0x10000 && n < 0x10000 && Hex4(m) == Hex4(n)
    ensures m == n
  {
    var a, b := Hex4(m), Hex4(n);
    assert a[0] == b[0] && a[1] == b[1] && a[2] == b[2] && a[3] == b[3];
    HexDigitTells(m / 16 / 16 / 16, n / 16 / 16 / 16);
    HexDigitTells(m / 16 / 16 % 16, n / 16 / 16 % 16);
    HexDigitTells(m / 16 % 16, n / 16 % 16);
    HexDigitTells(m % 16, n % 16);
    SixteenTells(m / 16 / 16, n / 16 / 16);
    SixteenTells(m / 16, n / 16);
    SixteenTells(m, n);
  }

  lemma CodedTells(a: char, r: string, b: char, r': string)
    requires IsCoded(a) && IsCoded(b) && Escape(a) + r == Escape(b) + r'
    ensures a == b
  {
    var s, t := Escape(a) + r, Escape(b) + r';
    assert s[2..6] == Hex4(a as int) && t[2..6] == Hex4(b as int);
    Hex4Tells(a as int, b as int);
  }

  lemma EscapeStart(c: char, r: string)
    ensures Escape(c) + r != "" && (Escape(c) + r)[0] == if IsShort(c) || IsCoded(c) then '\\' else c
    ensures (Escape(c) + r)[0] != '"'
    ensures IsShort(c) ==> (Escape(c) + r)[1] == ShortEscape(c) != 'u'
    ensures IsCoded(c) ==> (Escape(c) + r)[1] == 'u'
  {
  }

  lemma EscapeTells(a: char, r: string, b: char, r': string)
    requires Escape(a) + r == Escape(b) + r'
    ensures a == b && r == r'
  {
    EscapeStart(a, r);
    EscapeStart(b, r');
    if IsCoded(a) && IsCoded(b) { CodedTells(a, r, b, r'); }
    assert a == b;
    SameRest(Escape(a), r, r');
  }

  lemma SameRest(p: string, r: string, r': string)
    requires p + r == p + r'
    ensures r == r'
  {
    assert (p + r)[|p|..] == r && (p + r')[|p|..] == r';
  }

  lemma BracketTells(open: string, r: string, c: string, r': string, c': string)
    requires open + r + c == open + r' + c'
    ensures r + c == r' + c'
  {
    Regroup(open, r, c);
    Regroup(open, r', c');
    SameRest(open, r + c, r' + c');
  }

  lemma {:induction false} QuoteTailTells(s: string, c: string, s': string, c': string)
    requires QuoteTail(s) + c == QuoteTail(s') + c'
    ensures s == s' && c == c'
  {
    if s != "" { EscapeStart(s[0], QuoteTail(s[1..]) + c); QuoteUnfolds(s, c); }
    if s' != "" { EscapeStart(s'[0], QuoteTail(s'[1..]) + c'); QuoteUnfolds(s', c'); }
    if s == "" || s' == "" {
      SameRest("\"", c, c');
    } else {
      EscapeTells(s[0], QuoteTail(s[1..]) + c, s'[0], QuoteTail(s'[1..]) + c');
      QuoteTailTells(s[1..], c, s'[1..], c');
      assert s == [s[0]] + s[1..] && s' == [s'[0]] + s'[1..];
    }
  }

  lemma QuoteUnfolds(s: string, c: string)
    requires s != ""
    ensures QuoteTail(s) + c == Escape(s[0]) + (QuoteTail(s[1..]) + c)
  {
    Regroup(Escape(s[0]), QuoteTail(s[1..]), c);
  }

  lemma QuoteTells(s: string, c: string, s': string, c': string)
    requires Quote(s) + c == Quote(s') + c'
    ensures s == s' && c == c'
  {
    BracketTells("\"", QuoteTail(s), c, QuoteTail(s'), c');
    QuoteTailTells(s, c, s', c');
  }

  // ---- reading one value ----

  // Nothing that would continue a number.
  predicate Closed(c: string) {
    c != "" ==> !IsNumberChar(c[0])
  }

  lemma {:induction false} NumberTells(s: string, c: string, s': string, c': string)
    requires (forall i :: 0 <= i < |s| ==> IsNumberChar(s[i])) && (forall i :: 0 <= i < |s'| ==> IsNumberChar(s'[i]))
    requires Closed(c) && Closed(c') && s + c == s' + c'
    ensures s == s' && c == c'
  {
    if s != "" { assert (s + c)[0] == s[0]; }
    if s' != "" { assert (s' + c')[0] == s'[0]; }
    if s == "" || s' == "" {
      assert s == "" ==> s + c == c;
      assert s' == "" ==> s' + c' == c';
    } else {
      assert (s + c)[1..] == s[1..] + c && (s' + c')[1..] == s'[1..] + c';
      NumberTells(s[1..], c, s'[1..], c');
      assert s == [s[0]] + s[1..] && s' == [s'[0]] + s'[1..];
    }
  }

  datatype Kind = IsNull | IsTrue | IsFalse | IsDigits | IsString | IsItems | IsMembers

  function KindOf(j: Json): Kind {
    match j
    case Null => IsNull
    case Flag(value) => if value then IsTrue else IsFalse
    case Number(_) => IsDigits
    case Str(_) => IsString
    case Items(_) => IsItems
    case Object(_) => IsMembers
  }

  function KindAt(c: char): Kind {
    if c == 'n' then IsNull else if c == 't' then IsTrue else if c == 'f' then IsFalse
    else if c == '"' then IsString else if c == '[' then IsItems else if c == '{' then IsMembers else IsDigits
  }

  // The first character of a value gives its kind away.
  lemma FirstTellsKind(j: Json, c: string)
    requires Writable(j)
    ensures Print(j) + c != "" && KindAt((Print(j) + c)[0]) == KindOf(j)
    ensures (Print(j) + c)[0] != ']' && (Print(j) + c)[0] != ','
  {
  }

  // A value is followed by an end or a comma: neither continues a number.
  lemma TailsClosed(items: seq<Json>, members: seq<Member>, c: string)
    ensures Closed(ItemsTail(items, false) + c) && Closed(MembersTail(members, false) + c)
  {
  }

  lemma LeafTells(j: Json, c: string, j': Json, c': string)
    requires !j.Items? && !j.Object? && KindOf(j) == KindOf(j') && Print(j) + c == Print(j') + c'
    requires Writable(j) && Writable(j') && (j.Number? ==> Closed(c) && Closed(c'))
    ensures j == j' && c == c'
  {
    match j
    case Number(digits) => NumberTells(digits, c, j'.digits, c');
    case Str(text) => QuoteTells(text, c, j'.text, c');
    case _ => SameRest(Print(j), c, c');
  }

  // What was printed in front determines the value and leaves what follows.
  lemma {:induction false} ValueTells(j: Json, c: string, j': Json, c': string)
    requires Writable(j) && Writable(j') && Print(j) + c == Print(j') + c'
    requires (j.Number? ==> Closed(c)) && (j'.Number? ==> Closed(c'))
    ensures j == j' && c == c'
    decreases j
  {
    FirstTellsKind(j, c);
    FirstTellsKind(j', c');
    match j
    case Items(items) =>
      BracketTells("[", ItemsTail(items, true), c, ItemsTail(j'.items, true), c');
      ItemsTell(items, c, j'.items, c', true);
    case Object(members) =>
      BracketTells("{", MembersTail(members, true), c, MembersTail(j'.members, true), c');
      MembersTell(members, c, j'.members, c', true);
    case _ => LeafTells(j, c, j', c');
  }

  lemma ItemsUnfold(items: seq<Json>, c: string, first: bool)
    requires items != []
    ensures ItemsTail(items, first) + c == Comma(first) + (Print(items[0]) + (ItemsTail(items[1..], false) + c))
  {
    Regroup(Comma(first) + Print(items[0]), ItemsTail(items[1..], false), c);
    Regroup(Comma(first), Print(items[0]), ItemsTail(items[1..], false) + c);
  }

  lemma ItemsStart(items: seq<Json>, c: string, first: bool)
    requires forall i :: 0 <= i < |items| ==> Writable(items[i])
    ensures ItemsTail(items, first) + c != "" && ((ItemsTail(items, first) + c)[0] == ']' <==> items == [])
  {
    if items != [] {
      ItemsUnfold(items, c, first);
      FirstTellsKind(items[0], ItemsTail(items[1..], false) + c);
    }
  }

  lemma {:induction false} ItemsTell(items: seq<Json>, c: string, items': seq<Json>, c': string, first: bool)
    requires forall i :: 0 <= i < |items| ==> Writable(items[i])
    requires forall i :: 0 <= i < |items'| ==> Writable(items'[i])
    requires ItemsTail(items, first) + c == ItemsTail(items', first) + c'
    ensures items == items' && c == c'
    decreases items
  {
    ItemsStart(items, c, first);
    ItemsStart(items', c', first);
    if items == [] {
      SameRest("]", c, c');
    } else {
      var r, r' := ItemsTail(items[1..], false) + c, ItemsTail(items'[1..], false) + c';
      ItemsUnfold(items, c, first);
      ItemsUnfold(items', c', first);
      SameRest(Comma(first), Print(items[0]) + r, Print(items'[0]) + r');
      TailsClosed(items[1..], [], c);
      TailsClosed(items'[1..], [], c');
      ValueTells(items[0], r, items'[0], r');
      ItemsTell(items[1..], c, items'[1..], c', false);
      assert items == [items[0]] + items[1..] && items' == [items'[0]] + items'[1..];
    }
  }

  lemma RegroupFour(a: string, b: string, c: string, d: string, e: string)
    ensures a + b + c + d + e == a + (b + (c + (d + e)))
  {
    Regroup(a + b + c, d, e);
    Regroup(a + b, c, d + e);
    Regroup(a, b, c + (d + e));
  }

  lemma MembersUnfold(members: seq<Member>, c: string, first: bool)
    requires members != []
    ensures MembersTail(members, first) + c ==
            Comma(first)
            + (Quote(members[0].key) + (":" + (Print(members[0].value) + (MembersTail(members[1..], false) + c))))
  {
    RegroupFour(Comma(first), Quote(members[0].key), ":", Print(members[0].value), MembersTail(members[1..], false) + c);
    Regroup(Comma(first) + Quote(members[0].key) + ":" + Print(members[0].value), MembersTail(members[1..], false), c);
  }

  lemma MembersStart(members: seq<Member>, c: string, first: bool)
    ensures MembersTail(members, first) + c != "" && ((MembersTail(members, first) + c)[0] == '}' <==> members == [])
  {
    if members != [] { MembersUnfold(members, c, first); }
  }

  lemma {:induction false} MembersTell(members: seq<Member>, c: string, members': seq<Member>, c': string, first: bool)
    requires forall i :: 0 <= i < |members| ==> Writable(members[i].value)
    requires forall i :: 0 <= i < |members'| ==> Writable(members'[i].value)
    requires MembersTail(members, first) + c == MembersTail(members', first) + c'
    ensures members == members' && c == c'
    decreases members
  {
    MembersStart(members, c, first);
    MembersStart(members', c', first);
    if members == [] {
      SameRest("}", c, c');
    } else {
      var r, r' := MembersTail(members[1..], false) + c, MembersTail(members'[1..], false) + c';
      MembersUnfold(members, c, first);
      MembersUnfold(members', c', first);
      FirstMemberTells(members[0], r, members'[0], r', first);
      TailsClosed([], members[1..], c);
      TailsClosed([], members'[1..], c');
      ValueTells(members[0].value, r, members'[0].value, r');
      MembersTell(members[1..], c, members'[1..], c', false);
      assert members == [members[0]] + members[1..] && members' == [members'[0]] + members'[1..];
    }
  }

  // The keys are the same, and what follows the colons.
  lemma FirstMemberTells(m: Member, r: string, m': Member, r': string, first: bool)
    requires Comma(first) + (Quote(m.key) + (":" + (Print(m.value) + r))) ==
             Comma(first) + (Quote(m'.key) + (":" + (Print(m'.value) + r')))
    ensures m.key == m'.key && Print(m.value) + r == Print(m'.value) + r'
  {
    var v, v' := Print(m.value) + r, Print(m'.value) + r';
    SameRest(Comma(first), Quote(m.key) + (":" + v), Quote(m'.key) + (":" + v'));
    QuoteTells(m.key, ":" + v, m'.key, ":" + v');
    SameRest(":", v, v');
  }

  // ---- what the content address and the unit digest hash ----

  // The bytes of unit.json followed by the content, with nothing between them, tell any two payloads apart: an object
  // ends where its last brace closes.
  lemma ConcatenationSeparates(unit: Json, content: string, unit': Json, content': string)
    requires Writable(unit) && Writable(unit') && unit.Object? && unit'.Object?
    ensures Print(unit) + content == Print(unit') + content' <==> unit == unit' && content == content'
  {
    if Print(unit) + content == Print(unit') + content' {
      ValueTells(unit, content, unit', content');
    }
  }
}
