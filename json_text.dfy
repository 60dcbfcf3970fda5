/** Python's `json.dumps` applied to a `str`, with its default `ensure_ascii=True`:
    the text in double quotes, `"` and `\` escaped with a backslash, the five control
    characters that have a short escape written as `\b \f \n \r \t`, and every other
    character outside the printable ASCII range written as `\u` and four lower-case hex
    digits, as a UTF-16 surrogate pair above U+FFFF. A decoder for JSON string
    literals is given beside it, and the encoding is proved to round-trip through it. */
module JsonText {
  import opened Wrappers

  /** The lower-case hex digit of `d`. */
  function HexDigit(d: nat): char
    requires d < 16
  {
    if d < 10 then ('0' as int + d) as char else ('a' as int + d - 10) as char
  }

  /** The value of a hex digit of either case. */
  function HexValue(c: char): Option<nat> {
    if '0' <= c <= '9' then Some(c as int - '0' as int)
    else if 'a' <= c <= 'f' then Some(c as int - 'a' as int + 10)
    else if 'A' <= c <= 'F' then Some(c as int - 'A' as int + 10)
    else None
  }

  lemma HexValueOfDigit(d: nat)
    requires d < 16
    ensures HexValue(HexDigit(d)) == Some(d)
  {
  }

  /** The value of four hex digits. */
  function Hex4(t: string): (r: Option<nat>)
    requires |t| == 4
    ensures r.Some? ==> r.value < 0x10000
  {
    match (HexValue(t[0]), HexValue(t[1]), HexValue(t[2]), HexValue(t[3]))
    case (Some(a), Some(b), Some(c), Some(d)) =>
      if a < 16 && b < 16 && c < 16 && d < 16 then Some(((a * 16 + b) * 16 + c) * 16 + d) else None
    case _ => None
  }

  /** `\uXXXX` for one UTF-16 code unit. */
  function UnitEscape(u: nat): string
    requires u < 0x10000
  {
    var low12 := u % 0x1000;
    var low8 := low12 % 0x100;
    ['\\', 'u', HexDigit(u / 0x1000), HexDigit(low12 / 0x100), HexDigit(low8 / 0x10), HexDigit(low8 % 0x10)]
  }

  /** The four digits of a unit escape read back give the unit. */
  lemma Hex4OfUnit(u: nat)
    requires u < 0x10000
    ensures |UnitEscape(u)| == 6
    ensures Hex4(UnitEscape(u)[2..6]) == Some(u)
  {
    var low12 := u % 0x1000;
    var low8 := low12 % 0x100;
    var a, b, c, d := u / 0x1000, low12 / 0x100, low8 / 0x10, low8 % 0x10;
    HexValueOfDigit(a);
    HexValueOfDigit(b);
    HexValueOfDigit(c);
    HexValueOfDigit(d);
    var digits := UnitEscape(u)[2..6];
    assert digits == [HexDigit(a), HexDigit(b), HexDigit(c), HexDigit(d)];
    assert u == a * 0x1000 + low12 && low12 == b * 0x100 + low8 && low8 == c * 0x10 + d;
    assert ((a * 16 + b) * 16 + c) * 16 + d == u;
  }

  /** The character a short escape `\e` stands for. */
  function ShortEscape(e: char): Option<char> {
    match e
    case '"' => Some('"')
    case '\\' => Some('\\')
    case '/' => Some('/')
    case 'b' => Some('\U{8}')
    case 'f' => Some('\U{C}')
    case 'n' => Some('\n')
    case 'r' => Some('\r')
    case 't' => Some('\t')
    case _ => None
  }

  /** The letter `json.dumps` writes after a backslash for `c`, if `c` has a short
      escape: `"` and `\` themselves and the letters of the five control characters. */
  function ShortName(c: char): (e: Option<char>)
    ensures e.Some? ==> ShortEscape(e.value) == Some(c) && e.value != 'u'
  {
    match c
    case '"' => Some('"')
    case '\\' => Some('\\')
    case '\U{8}' => Some('b')
    case '\U{C}' => Some('f')
    case '\n' => Some('n')
    case '\r' => Some('r')
    case '\t' => Some('t')
    case _ => None
  }

  /** A printable ASCII character, from space to `~`. */
  predicate Printable(c: char) {
    ' ' <= c <= '~'
  }

  /** The UTF-16 surrogate pair of a code point `0x10000 + n`, as two unit escapes. */
  function PairEscape(n: nat): string
    requires n < 0x100000
  {
    UnitEscape(0xD800 + n / 0x400) + UnitEscape(0xDC00 + n % 0x400)
  }

  /** How `json.dumps` writes one character. */
  function EscapeChar(c: char): string {
    if ShortName(c).Some? then ['\\', ShortName(c).value]
    else if Printable(c) then [c]
    else if c as int < 0x10000 then UnitEscape(c as int)
    else PairEscape(c as int - 0x10000)
  }

  /** The pieces of text one after the other. */
  function Flatten(parts: seq<string>): string {
    if parts == [] then [] else parts[0] + Flatten(parts[1..])
  }

  /** The characters of a string, each as `json.dumps` writes it. */
  function EscapeAll(s: string): string {
    Flatten(seq(|s|, i requires 0 <= i < |s| => EscapeChar(s[i])))
  }

  /** Escaping writes the first character, then the rest. */
  lemma EscapeAllCons(s: string)
    ensures s == [] ==> EscapeAll(s) == []
    ensures s != [] ==> EscapeAll(s) == EscapeChar(s[0]) + EscapeAll(s[1..])
  {
    if s != [] {
      var parts := seq(|s|, i requires 0 <= i < |s| => EscapeChar(s[i]));
      assert parts[1..] == seq(|s| - 1, i requires 0 <= i < |s| - 1 => EscapeChar(s[1..][i]));
    }
  }

  /** `json.dumps(s)` for a `str` value `s`. */
  function JsonString(s: string): string {
    "\"" + EscapeAll(s) + "\""
  }

  function Prepend(c: char, rest: Option<string>): Option<string> {
    if rest.None? then None else Some([c] + rest.value)
  }

  /** The characters the body of a JSON string literal stands for; `None` on a raw quote
      or control character, an unknown escape or a lone surrogate. */
  function Unescape(t: string): Option<string>
    decreases |t|
  {
    if t == [] then Some([])
    else if t[0] == '"' || t[0] < ' ' then None
    else if t[0] != '\\' then Prepend(t[0], Unescape(t[1..]))
    else if |t| < 2 then None
    else if ShortEscape(t[1]).Some? then Prepend(ShortEscape(t[1]).value, Unescape(t[2..]))
    else if t[1] != 'u' || |t| < 6 || Hex4(t[2..6]).None? then None
    else
      var u := Hex4(t[2..6]).value;
      if u < 0xD800 || 0xE000 <= u then Prepend(u as char, Unescape(t[6..]))
      else if u < 0xDC00 && |t| >= 12 && t[6] == '\\' && t[7] == 'u'
              && Hex4(t[8..12]).Some? && 0xDC00 <= Hex4(t[8..12]).value < 0xE000 then
        Prepend((0x10000 + (u - 0xD800) * 0x400 + (Hex4(t[8..12]).value - 0xDC00)) as char, Unescape(t[12..]))
      else None
  }

  /** The string a JSON string literal stands for. */
  function DecodeString(t: string): Option<string> {
    if |t| >= 2 && t[0] == '"' && t[|t| - 1] == '"' then Unescape(t[1..|t| - 1]) else None
  }

  lemma UnescapeUnit(c: char, rest: string)
    requires ShortName(c).None? && !Printable(c) && c as int < 0x10000
    ensures Unescape(UnitEscape(c as int) + rest) == Prepend(c, Unescape(rest))
  {
    var t := UnitEscape(c as int) + rest;
    Hex4OfUnit(c as int);
    assert t[2..6] == UnitEscape(c as int)[2..6] && t[6..] == rest;
  }

  /** A surrogate pair of unit escapes reads back as the one character it encodes. */
  lemma UnescapeSurrogates(t: string, hi: nat, lo: nat, c: char)
    requires |t| >= 12 && t[0] == '\\' && t[1] == 'u' && t[6] == '\\' && t[7] == 'u'
    requires 0xD800 <= hi < 0xDC00 && 0xDC00 <= lo < 0xE000
    requires Hex4(t[2..6]) == Some(hi) && Hex4(t[8..12]) == Some(lo)
    requires c as int == 0x10000 + (hi - 0xD800) * 0x400 + (lo - 0xDC00)
    ensures Unescape(t) == Prepend(c, Unescape(t[12..]))
  {
    assert ShortEscape(t[1]).None?;
  }

  /** Where the digits of two unit escapes sit when something follows them. */
  lemma PairLayout(hi: nat, lo: nat, rest: string)
    requires hi < 0x10000 && lo < 0x10000
    ensures var t := UnitEscape(hi) + UnitEscape(lo) + rest;
            && |t| >= 12 && t[0] == '\\' && t[1] == 'u' && t[6] == '\\' && t[7] == 'u'
            && Hex4(t[2..6]) == Some(hi) && Hex4(t[8..12]) == Some(lo) && t[12..] == rest
  {
    Hex4OfUnit(hi);
    Hex4OfUnit(lo);
    var first, second := UnitEscape(hi), UnitEscape(lo);
    var t := first + second + rest;
    assert t[2..6] == first[2..6];
    assert t[8..12] == second[2..6];
  }

  /** Splitting `n` into ten high and ten low bits gives two surrogates that put `n`
      back together. */
  lemma SurrogateHalves(n: nat, hi: nat, lo: nat)
    requires n < 0x100000 && hi == 0xD800 + n / 0x400 && lo == 0xDC00 + n % 0x400
    ensures 0xD800 <= hi < 0xDC00 && 0xDC00 <= lo < 0xE000
    ensures (hi - 0xD800) * 0x400 + (lo - 0xDC00) == n
  {
  }

  lemma UnescapePair(c: char, rest: string)
    requires c as int >= 0x10000
    ensures Unescape(PairEscape(c as int - 0x10000) + rest) == Prepend(c, Unescape(rest))
  {
    var n := c as int - 0x10000;
    var hi, lo := 0xD800 + n / 0x400, 0xDC00 + n % 0x400;
    SurrogateHalves(n, hi, lo);
    PairLayout(hi, lo, rest);
    UnescapeSurrogates(UnitEscape(hi) + UnitEscape(lo) + rest, hi, lo, c);
  }

  /** One written character reads back as itself. */
  lemma UnescapeChar(c: char, rest: string)
    ensures Unescape(EscapeChar(c) + rest) == Prepend(c, Unescape(rest))
  {
    var t := EscapeChar(c) + rest;
    if ShortName(c).Some? {
      assert t[2..] == rest;
    } else if Printable(c) {
      assert t[1..] == rest;
    } else if c as int < 0x10000 {
      UnescapeUnit(c, rest);
    } else {
      UnescapePair(c, rest);
    }
  }

  /** The written characters read back as the string. */
  lemma {:induction false} UnescapeAll(s: string)
    ensures Unescape(EscapeAll(s)) == Some(s)
    decreases |s|
  {
    EscapeAllCons(s);
    if s != [] {
      UnescapeChar(s[0], EscapeAll(s[1..]));
      UnescapeAll(s[1..]);
      assert [s[0]] + s[1..] == s;
    }
  }

  /** `json.loads(json.dumps(s)) == s`. */
  lemma JsonStringRoundTrip(s: string)
    ensures DecodeString(JsonString(s)) == Some(s)
  {
    var t := JsonString(s);
    assert t[1..|t| - 1] == EscapeAll(s);
    UnescapeAll(s);
  }

  lemma UnitEscapePrintable(u: nat)
    requires u < 0x10000
    ensures forall x :: x in UnitEscape(u) ==> Printable(x)
  {
  }

  lemma EscapeCharPrintable(c: char)
    ensures forall x :: x in EscapeChar(c) ==> Printable(x)
  {
    if ShortName(c).None? && !Printable(c) {
      if c as int < 0x10000 {
        UnitEscapePrintable(c as int);
      } else {
        var n := c as int - 0x10000;
        UnitEscapePrintable(0xD800 + n / 0x400);
        UnitEscapePrintable(0xDC00 + n % 0x400);
      }
    }
  }

  /** Every character written is printable ASCII. */
  lemma {:induction false} EscapeAllPrintable(s: string)
    ensures forall c :: c in EscapeAll(s) ==> Printable(c)
    decreases |s|
  {
    EscapeAllCons(s);
    if s != [] {
      EscapeAllPrintable(s[1..]);
      EscapeCharPrintable(s[0]);
    }
  }

  /** The encoding is pure printable ASCII. */
  lemma JsonStringAscii(s: string)
    ensures forall c :: c in JsonString(s) ==> Printable(c)
  {
    EscapeAllPrintable(s);
  }

  /** A character `json.dumps` writes as itself. */
  predicate Plain(c: char) {
    Printable(c) && c != '"' && c != '\\'
  }

  lemma EscapePlainChar(c: char)
    requires Plain(c)
    ensures EscapeChar(c) == [c]
  {
    assert ShortName(c).None?;
  }

  /** Printable ASCII text without `"` or `\` is only put in quotes. */
  lemma PlainTextQuoted(s: string)
    requires forall i :: 0 <= i < |s| ==> Plain(s[i])
    ensures JsonString(s) == "\"" + s + "\""
  {
    EscapeAllPlain(s);
  }

  lemma {:induction false} EscapeAllPlain(s: string)
    requires forall i :: 0 <= i < |s| ==> Plain(s[i])
    ensures EscapeAll(s) == s
    decreases |s|
  {
    EscapeAllCons(s);
    if s != [] {
      EscapePlainChar(s[0]);
      assert forall i :: 0 <= i < |s| - 1 ==> s[1..][i] == s[i + 1];
      EscapeAllPlain(s[1..]);
      assert [s[0]] + s[1..] == s;
    }
  }
}
