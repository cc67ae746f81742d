/** Reading a JSON string back by the escapes of section 7 of RFC 8259 (exchange/serialize.go). */
module JsonReading {
  import opened Taxonomy
  import opened Text
  import opened JsonText

  // The character a two-character escape stands for.
  function Letter(c: char): Option<char> {
    match c
    case '"' => Some('"')
    case '\\' => Some('\\')
    case '/' => Some('/')
    case 'b' => Some(8 as char)
    case 'f' => Some(12 as char)
    case 'n' => Some(10 as char)
    case 'r' => Some(13 as char)
    case 't' => Some(9 as char)
    case _ => None
  }

  // The value of a hexadecimal digit, or -1.
  function HexValue(c: char): (v: int)
    ensures -1 <= v < 16
  {
    if '0' <= c <= '9' then c as int - '0' as int
    else if 'a' <= c <= 'f' then c as int - 'a' as int + 10
    else if 'A' <= c <= 'F' then c as int - 'A' as int + 10
    else -1
  }

  predicate IsScalar(n: int) {
    0 <= n < 0xd800 || 0xe000 <= n < 0x10000
  }

  // The character of four hexadecimal digits; surrogates are not read.
  function FromHex(t: string): Option<char>
    requires |t| == 4
  {
    var a, b, c, d := HexValue(t[0]), HexValue(t[1]), HexValue(t[2]), HexValue(t[3]);
    var n := ((a * 16 + b) * 16 + c) * 16 + d;
    if a < 0 || b < 0 || c < 0 || d < 0 || !IsScalar(n) then None else Some(n as char)
  }

  // One character of a string, and how much of the text it takes.
  function ReadOne(t: string): Option<(char, nat)>
    requires t != ""
  {
    if t[0] != '\\' then if t[0] as int < 0x20 then None else Some((t[0], 1))
    else if |t| >= 6 && t[1] == 'u' then
      match FromHex(t[2..6])
      case Some(c) => Some((c, 6))
      case None => None
    else if |t| >= 2 then
      match Letter(t[1])
      case Some(c) => Some((c, 2))
      case None => None
    else None
  }

  // The rest of a string behind its opening quote, and what follows it.
  function ReadTail(t: string): Option<(string, string)>
    decreases |t|
  {
    if t == "" then None
    else if t[0] == '"' then Some(("", t[1..]))
    else
      match ReadOne(t)
      case None => None
      case Some((c, n)) =>
        if n == 0 || n > |t| then None
        else
          match ReadTail(t[n..])
          case None => None
          case Some((s, rest)) => Some(([c] + s, rest))
  }

  function ReadString(t: string): Option<(string, string)> {
    if t == "" || t[0] != '"' then None else ReadTail(t[1..])
  }

  // ---- what is printed reads back ----

  lemma HexDigitReads(n: nat)
    requires n < 16
    ensures HexValue(HexDigit(n)) == n
  {
  }

  lemma HexSplits(n: nat)
    requires n < 0x10000
    ensures ((n / 16 / 16 / 16 * 16 + n / 16 / 16 % 16) * 16 + n / 16 % 16) * 16 + n % 16 == n
  {
    assert n / 16 / 16 == n / 16 / 16 / 16 * 16 + n / 16 / 16 % 16;
    assert n / 16 == n / 16 / 16 * 16 + n / 16 % 16;
    assert n == n / 16 * 16 + n % 16;
  }

  lemma Hex4Reads(c: char)
    requires (c as int) < 0x10000
    ensures FromHex(Hex4(c as int)) == Some(c)
  {
    var n := c as int;
    HexDigitReads(n / 16 / 16 / 16);
    HexDigitReads(n / 16 / 16 % 16);
    HexDigitReads(n / 16 % 16);
    HexDigitReads(n % 16);
    HexSplits(n);
  }

  lemma ShortReads(c: char, rest: string)
    requires IsShort(c)
    ensures ReadOne(Escape(c) + rest) == Some((c, |Escape(c)|))
  {
    var t := Escape(c) + rest;
    assert t[0] == '\\' && t[1] == ShortEscape(c);
    assert Letter(ShortEscape(c)) == Some(c);
  }

  lemma CodedReads(c: char, rest: string)
    requires IsCoded(c)
    ensures ReadOne(Escape(c) + rest) == Some((c, |Escape(c)|))
  {
    var t := Escape(c) + rest;
    assert t[0] == '\\' && t[1] == 'u' && t[2..6] == Hex4(c as int);
    Hex4Reads(c);
  }

  lemma EscapeReads(c: char, rest: string)
    ensures ReadOne(Escape(c) + rest) == Some((c, |Escape(c)|)) && Escape(c) != "" && (Escape(c) + rest)[0] != '"'
  {
    EscapeStart(c, rest);
    if IsShort(c) {
      ShortReads(c, rest);
    } else if IsCoded(c) {
      CodedReads(c, rest);
    }
  }

  lemma {:induction false} TailReads(s: string, rest: string)
    ensures ReadTail(QuoteTail(s) + rest) == Some((s, rest))
  {
    var t := QuoteTail(s) + rest;
    if s == "" {
      assert t[1..] == rest;
    } else {
      var more := QuoteTail(s[1..]) + rest;
      QuoteUnfolds(s, rest);
      EscapeReads(s[0], more);
      assert t[|Escape(s[0])|..] == more;
      TailReads(s[1..], rest);
      assert s == [s[0]] + s[1..];
    }
  }

  // A printed string, whatever follows it, is read back as the string and what follows.
  lemma StringReadsBack(s: string, rest: string)
    ensures ReadString(Quote(s) + rest) == Some((s, rest))
  {
    TailReads(s, rest);
    assert (Quote(s) + rest)[1..] == QuoteTail(s) + rest;
  }
}
