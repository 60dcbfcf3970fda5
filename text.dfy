/** String primitives the Python code uses: `str.split(sep)`, `str.strip()`,
    `str.lower()` (ASCII and Latin-1 letters), `str.upper()` (ASCII letters) and
    `str.startswith`. */
module Text {

  /** The white-space characters `str.strip()` removes: those Python's
      `str.isspace()` accepts, from ASCII up to the ideographic space U+3000. */
  predicate IsSpace(c: char) {
    c == ' ' || c == '\t' || c == '\n' || c == '\r' || c == '\U{0B}' || c == '\U{0C}'
    || c == '\U{1C}' || c == '\U{1D}' || c == '\U{1E}' || c == '\U{1F}'
    || c == '\U{85}' || c == '\U{A0}' || c == '\U{1680}' || '\U{2000}' <= c <= '\U{200A}'
    || c == '\U{2028}' || c == '\U{2029}' || c == '\U{202F}' || c == '\U{205F}' || c == '\U{3000}'
  }

  predicate IsAsciiUpper(c: char) { 'A' <= c <= 'Z' }
  predicate IsAsciiLower(c: char) { 'a' <= c <= 'z' }
  predicate IsAsciiLetter(c: char) { IsAsciiUpper(c) || IsAsciiLower(c) }
  predicate IsDigit(c: char) { '0' <= c <= '9' }
  predicate IsAsciiAlnum(c: char) { IsAsciiLetter(c) || IsDigit(c) }

  /** The Latin-1 capitals `str.lower()` maps one-to-one: A-Z and U+00C0-U+00DE
      except the multiplication sign U+00D7. */
  predicate IsUpperLatin1(c: char) {
    IsAsciiUpper(c) || ('\U{C0}' <= c <= '\U{DE}' && c != '\U{D7}')
  }

  function LowerChar(c: char): (d: char)
    ensures IsAsciiUpper(c) ==> IsAsciiLower(d)
    ensures IsUpperLatin1(c) ==> d as int == c as int + 32 && !IsUpperLatin1(d)
    ensures !IsUpperLatin1(c) ==> d == c
  {
    if IsUpperLatin1(c) then (c as int + 32) as char else c
  }

  function UpperChar(c: char): (d: char)
    ensures IsAsciiLower(c) ==> IsAsciiUpper(d)
    ensures !IsAsciiLower(c) ==> d == c
  {
    if IsAsciiLower(c) then (c as int - 32) as char else c
  }

  /** `s.lower()` on ASCII and Latin-1 letters. */
  function Lower(s: string): (r: string)
    ensures |r| == |s|
    ensures forall i :: 0 <= i < |s| ==> r[i] == LowerChar(s[i])
  {
    if s == [] then [] else [LowerChar(s[0])] + Lower(s[1..])
  }

  /** `s.upper()` on ASCII letters. */
  function Upper(s: string): (r: string)
    ensures |r| == |s|
    ensures forall i :: 0 <= i < |s| ==> r[i] == UpperChar(s[i])
  {
    if s == [] then [] else [UpperChar(s[0])] + Upper(s[1..])
  }

  lemma LowerIdempotent(s: string)
    ensures Lower(Lower(s)) == Lower(s)
  {
  }

  lemma CharCaseAgree(a: char, b: char)
    requires IsAsciiLetter(b)
    ensures UpperChar(a) == UpperChar(b) <==> LowerChar(a) == LowerChar(b)
  {
  }

  /** Against a word of ASCII letters, comparing upper-cased and comparing lower-cased
      strings agree. */
  lemma UpperLowerAgree(s: string, t: string)
    requires forall i :: 0 <= i < |t| ==> IsAsciiLetter(t[i])
    ensures Upper(s) == Upper(t) <==> Lower(s) == Lower(t)
  {
    if |s| == |t| {
      forall i | 0 <= i < |s| ensures UpperChar(s[i]) == UpperChar(t[i]) <==> LowerChar(s[i]) == LowerChar(t[i]) {
        CharCaseAgree(s[i], t[i]);
      }
      if Upper(s) == Upper(t) {
        assert forall i :: 0 <= i < |s| ==> Upper(s)[i] == Upper(t)[i];
      }
      if Lower(s) == Lower(t) {
        assert forall i :: 0 <= i < |s| ==> Lower(s)[i] == Lower(t)[i];
      }
    }
  }

  function StripLeft(s: string): (r: string)
    ensures |r| <= |s| && r == s[|s| - |r|..]
    ensures forall i :: 0 <= i < |s| - |r| ==> IsSpace(s[i])
    ensures r != [] ==> !IsSpace(r[0])
  {
    if s != [] && IsSpace(s[0]) then StripLeft(s[1..]) else s
  }

  function StripRight(s: string): (r: string)
    ensures |r| <= |s| && r == s[..|r|]
    ensures forall i :: |r| <= i < |s| ==> IsSpace(s[i])
    ensures r != [] ==> !IsSpace(r[|r| - 1])
  {
    if s != [] && IsSpace(s[|s| - 1]) then StripRight(s[..|s| - 1]) else s
  }

  /** All characters of `s` are white space. */
  predicate AllSpace(s: string) {
    forall i :: 0 <= i < |s| ==> IsSpace(s[i])
  }

  /** `s` is `r` with the white space `s[..i]` in front and white space behind. */
  predicate PaddedAt(s: string, r: string, i: int) {
    0 <= i && i + |r| <= |s| && s[i..i + |r|] == r && AllSpace(s[..i]) && AllSpace(s[i + |r|..])
  }

  /** `s.strip()`. */
  function Strip(s: string): string {
    StripRight(StripLeft(s))
  }

  /** `s` is `s.strip()` with only white space added at either end, and the stripped
      string neither starts nor ends with white space. */
  lemma StripSpec(s: string)
    ensures PaddedAt(s, Strip(s), |s| - |StripLeft(s)|)
    ensures Strip(s) != [] ==> !IsSpace(Strip(s)[0]) && !IsSpace(Strip(s)[|Strip(s)| - 1])
  {
    var l := StripLeft(s);
    var r := StripRight(l);
    var i := |s| - |l|;
    assert AllSpace(s[..i]) by {
      assert forall k :: 0 <= k < i ==> s[..i][k] == s[k];
    }
    assert AllSpace(l[|r|..]) by {
      assert forall k :: 0 <= k < |l| - |r| ==> l[|r|..][k] == l[|r| + k];
    }
    PaddedCompose(s, l, r, i);
    if r != [] {
      assert r[0] == l[0];
    }
  }

  /** White space in front of `l` and white space behind `r` inside `l` pad `r` in `s`. */
  lemma PaddedCompose(s: string, l: string, r: string, i: int)
    requires 0 <= i == |s| - |l| && l == s[i..] && AllSpace(s[..i])
    requires |r| <= |l| && r == l[..|r|] && AllSpace(l[|r|..])
    ensures PaddedAt(s, r, i)
  {
    assert s[i + |r|..] == l[|r|..];
  }

  /** The position of the first `c` in `s`, or `|s|` when there is none. */
  function FirstIndex(s: string, c: char): (i: nat)
    ensures i <= |s|
    ensures i < |s| ==> s[i] == c
    ensures forall k :: 0 <= k < i ==> s[k] != c
  {
    if s == [] then 0 else if s[0] == c then 0 else 1 + FirstIndex(s[1..], c)
  }

  /** The position of the last `c` in `s`, or -1 when there is none. */
  function LastIndex(s: string, c: char): (i: int)
    ensures -1 <= i < |s|
    ensures i >= 0 ==> s[i] == c
    ensures forall k :: i < k < |s| ==> s[k] != c
  {
    if s == [] then -1 else if s[|s| - 1] == c then |s| - 1 else LastIndex(s[..|s| - 1], c)
  }

  /** `s.startswith(prefix)`. */
  predicate StartsWith(s: string, prefix: string) {
    |prefix| <= |s| && s[..|prefix|] == prefix
  }

  /** `sep.join(parts)`. */
  function Join(parts: seq<string>, sep: char): string {
    if parts == [] then ""
    else if |parts| == 1 then parts[0]
    else parts[0] + [sep] + Join(parts[1..], sep)
  }

  /** `s.split(sep)` for a one-character separator: never empty, no part holds the
      separator, and joining the parts back gives `s`. */
  function Split(s: string, sep: char): (parts: seq<string>)
    ensures |parts| >= 1
    ensures forall i :: 0 <= i < |parts| ==> sep !in parts[i]
    ensures Join(parts, sep) == s
  {
    if s == [] then [""]
    else if s[0] == sep then
      var rest := Split(s[1..], sep);
      assert [s[0]] + s[1..] == s;
      [""] + rest
    else
      var rest := Split(s[1..], sep);
      var parts := [[s[0]] + rest[0]] + rest[1..];
      assert parts[1..] == rest[1..];
      assert s == [s[0]] + s[1..];
      parts
  }

  /** The parts `Split` returns are exactly the pieces between separators: any other
      separator-free list that joins to `s` is that same list. */
  lemma {:induction false} SplitUnique(s: string, sep: char, parts: seq<string>)
    requires |parts| >= 1
    requires forall i :: 0 <= i < |parts| ==> sep !in parts[i]
    requires Join(parts, sep) == s
    ensures parts == Split(s, sep)
    decreases |s|, |parts[0]|
  {
    if |parts| == 1 {
      SplitNoSep(s, sep);
    } else if parts[0] == [] {
      assert s == [sep] + Join(parts[1..], sep);
      assert s[1..] == Join(parts[1..], sep);
      SplitUnique(s[1..], sep, parts[1..]);
    } else {
      var tail := [parts[0][1..]] + parts[1..];
      assert tail[1..] == parts[1..];
      assert s == [parts[0][0]] + (parts[0][1..] + [sep] + Join(parts[1..], sep));
      assert Join(tail, sep) == s[1..];
      assert parts[0][0] != sep by { assert parts[0][0] in parts[0]; }
      forall i | 0 <= i < |tail| ensures sep !in tail[i] {
        if i == 0 {
          assert forall c :: c in parts[0][1..] ==> c in parts[0];
        } else {
          assert tail[i] == parts[i];
        }
      }
      SplitUnique(s[1..], sep, tail);
      assert parts[0] == [parts[0][0]] + parts[0][1..];
    }
  }

  lemma {:induction false} SplitNoSep(s: string, sep: char)
    requires sep !in s
    ensures Split(s, sep) == [s]
    decreases |s|
  {
    if s != [] {
      SplitNoSep(s[1..], sep);
      assert [s[0]] + s[1..] == s;
    }
  }

  /** Splitting a string that starts with a separator-free piece and a separator gives
      that piece, then the parts of the rest. */
  lemma SplitAfter(p: string, sep: char, t: string)
    requires sep !in p
    ensures Split(p + [sep] + t, sep) == [p] + Split(t, sep)
  {
    var parts := [p] + Split(t, sep);
    assert parts[1..] == Split(t, sep);
    forall i | 0 <= i < |parts| ensures sep !in parts[i] {
      if i > 0 {
        assert parts[i] == Split(t, sep)[i - 1];
      }
    }
    SplitUnique(p + [sep] + t, sep, parts);
  }

  /** The last part is empty only when the string ends with the separator (or is
      empty): a line stripped of trailing tabs has no empty last field. */
  lemma SplitLastNonEmpty(s: string, sep: char)
    requires s != [] && s[|s| - 1] != sep
    ensures Split(s, sep)[|Split(s, sep)| - 1] != []
  {
    SplitLastPart(s, sep);
    var d := LastIndex(s, sep);
    assert d < |s| - 1;
    assert s[d + 1..][|s| - d - 2] == s[|s| - 1];
  }

  /** The first part is the text before the first separator. */
  lemma SplitFirstIsPrefix(s: string, sep: char)
    ensures StartsWith(s, Split(s, sep)[0])
  {
    var parts := Split(s, sep);
    if |parts| > 1 {
      assert s == parts[0] + ([sep] + Join(parts[1..], sep));
    }
  }

  /** Joining one more part adds a separator and that part. */
  lemma {:induction false} JoinAppend(parts: seq<string>, sep: char, t: string)
    requires |parts| >= 1
    ensures Join(parts + [t], sep) == Join(parts, sep) + [sep] + t
    decreases |parts|
  {
    if |parts| > 1 {
      assert (parts + [t])[1..] == parts[1..] + [t];
      JoinAppend(parts[1..], sep, t);
    }
  }

  /** The last part is the text after the last separator, or the whole string when it
      holds none. */
  lemma SplitLastPart(s: string, sep: char)
    ensures Split(s, sep)[|Split(s, sep)| - 1] == s[LastIndex(s, sep) + 1..]
  {
    var d := LastIndex(s, sep);
    if d < 0 {
      SplitNoSep(s, sep);
    } else {
      var p, t := s[..d], s[d + 1..];
      assert sep !in t;
      var parts := Split(p, sep) + [t];
      JoinAppend(Split(p, sep), sep, t);
      assert s == p + [sep] + t;
      SplitUnique(s, sep, parts);
    }
  }
}
