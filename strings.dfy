/** The ECMAScript string operations the extension relies on (`\s`, `trim`,
    `toLowerCase`, `includes`, `split`, template rendering of numbers), and the
    fallback `cssEscape` together with the CSS reader it has to satisfy. */
module Strings {
  import opened Wrappers

  /** The characters `\s` matches and `String.prototype.trim` removes: the
      ECMAScript WhiteSpace and LineTerminator code points. */
  predicate IsSpace(c: char) {
    || c == '\t' || c == '\n' || c == '\U{B}' || c == '\U{C}' || c == '\r' || c == ' '
    || c == '\U{A0}' || c == '\U{1680}' || ('\U{2000}' <= c <= '\U{200A}')
    || c == '\U{2028}' || c == '\U{2029}' || c == '\U{202F}' || c == '\U{205F}'
    || c == '\U{3000}' || c == '\U{FEFF}'
  }

  predicate IsUpper(c: char) { 'A' <= c <= 'Z' }

  predicate IsDigit(c: char) { '0' <= c <= '9' }

  function LowerChar(c: char): char {
    if IsUpper(c) then (c as int + 32) as char else c
  }

  /** `toLowerCase` on the ASCII letters. */
  function Lower(s: string): (r: string)
    ensures |r| == |s|
  {
    seq(|s|, i requires 0 <= i < |s| => LowerChar(s[i]))
  }

  /** `trimStart`: whitespace removed from the front. */
  function TrimStart(s: string): (r: string)
    ensures |r| <= |s|
    decreases |s|
  {
    if s != [] && IsSpace(s[0]) then TrimStart(s[1..]) else s
  }

  /** `trimStart` keeps the longest suffix that does not start with whitespace. */
  lemma {:induction false} TrimStartShape(s: string)
    ensures var r := TrimStart(s); r == s[|s| - |r|..]
    ensures var r := TrimStart(s); r == [] || !IsSpace(r[0])
    ensures forall i :: 0 <= i < |s| - |TrimStart(s)| ==> IsSpace(s[i])
    decreases |s|
  {
    if s != [] && IsSpace(s[0]) {
      TrimStartShape(s[1..]);
      var r := TrimStart(s);
      assert s[1..][|s| - 1 - |r|..] == s[|s| - |r|..];
      assert forall i :: 1 <= i < |s| - |r| ==> s[i] == s[1..][i - 1];
    }
  }

  /** `trimEnd`: whitespace removed from the back. */
  function TrimEnd(s: string): (r: string)
    ensures |r| <= |s|
    decreases |s|
  {
    if s != [] && IsSpace(s[|s| - 1]) then TrimEnd(s[..|s| - 1]) else s
  }

  /** `trimEnd` keeps the longest prefix that does not end with whitespace. */
  lemma {:induction false} TrimEndShape(s: string)
    ensures var r := TrimEnd(s); r == s[..|r|]
    ensures var r := TrimEnd(s); r == [] || !IsSpace(r[|r| - 1])
    ensures forall i :: |TrimEnd(s)| <= i < |s| ==> IsSpace(s[i])
    decreases |s|
  {
    if s != [] && IsSpace(s[|s| - 1]) {
      TrimEndShape(s[..|s| - 1]);
      var r := TrimEnd(s);
      assert s[..|s| - 1][..|r|] == s[..|r|];
      assert forall i :: |r| <= i < |s| - 1 ==> s[i] == s[..|s| - 1][i];
    }
  }

  /** `trim`: whitespace removed from both ends. */
  function Trim(s: string): (r: string)
    ensures |r| <= |s|
  {
    TrimEnd(TrimStart(s))
  }

  /** `trim` keeps the middle as it is: a slice of the string with no
      whitespace at either end, and only whitespace around it. */
  lemma TrimShape(s: string)
    ensures var r := Trim(s); r == [] || (!IsSpace(r[0]) && !IsSpace(r[|r| - 1]))
    ensures var k := |s| - |TrimStart(s)|; k + |Trim(s)| <= |s| && Trim(s) == s[k..k + |Trim(s)|]
    ensures var k := |s| - |TrimStart(s)|; forall i :: 0 <= i < |s| && !(k <= i < k + |Trim(s)|) ==> IsSpace(s[i])
  {
    var t := TrimStart(s);
    var k := |s| - |t|;
    TrimStartShape(s);
    TrimEndShape(t);
    var r := Trim(s);
    assert r == t[..|r|];
    assert forall i :: |r| <= i < |t| ==> t[i] == s[k + i];
  }

  /** Every whitespace character is a plain space with no whitespace right after it. */
  predicate Collapsed(s: string) {
    && (forall i :: 0 <= i < |s| && IsSpace(s[i]) ==> s[i] == ' ')
    && (forall i, j {:trigger s[i], s[j]} :: 0 <= i < |s| && 0 <= j < |s| && j == i + 1 ==> !(IsSpace(s[i]) && IsSpace(s[j])))
  }

  /** `replace(/\s+/g, " ")`: each maximal run of whitespace becomes one space. */
  function CollapseSpace(s: string): (r: string)
    ensures (r == []) == (s == [])
    ensures r != [] ==> (IsSpace(r[0]) <==> IsSpace(s[0]))
    decreases |s|
  {
    if s == [] then []
    else if IsSpace(s[0]) then [' '] + CollapseSpace(TrimStart(s[1..]))
    else [s[0]] + CollapseSpace(s[1..])
  }

  /** What the label matcher compares: whitespace runs collapsed, trimmed, lower-cased. */
  function NormalizeText(s: string): string {
    Lower(Trim(CollapseSpace(s)))
  }

  /** Collapsing leaves no whitespace but single plain spaces. */
  lemma {:induction false} CollapseSpaceCollapsed(s: string)
    ensures Collapsed(CollapseSpace(s))
    decreases |s|
  {
    if s != [] {
      var t := if IsSpace(s[0]) then TrimStart(s[1..]) else s[1..];
      CollapseSpaceCollapsed(t);
      var c := CollapseSpace(t);
      var r := CollapseSpace(s);
      assert r == [if IsSpace(s[0]) then ' ' else s[0]] + c;
      assert forall i :: 0 <= i < |c| ==> r[i + 1] == c[i];
      if IsSpace(s[0]) {
        TrimStartShape(s[1..]);
        assert c == [] || !IsSpace(c[0]);
      }
    }
  }

  /** The shape of a normalized text: collapsed, no space at either end, no upper case. */
  predicate Normalized(s: string) {
    && Collapsed(s)
    && (s == [] || (!IsSpace(s[0]) && !IsSpace(s[|s| - 1])))
    && forall i :: 0 <= i < |s| ==> !IsUpper(s[i])
  }

  lemma CollapsedSlice(s: string, a: nat, b: nat)
    requires Collapsed(s) && a <= b <= |s|
    ensures Collapsed(s[a..b])
  {
    forall i | 0 <= i < b - a && IsSpace(s[a..b][i])
      ensures s[a..b][i] == ' ' && (i + 1 < b - a ==> !IsSpace(s[a..b][i + 1]))
    {
      assert s[a..b][i] == s[a + i];
      if i + 1 < b - a { assert s[a..b][i + 1] == s[a + i + 1]; }
    }
  }

  /** Every normalized text is a fixed point of the normalization. */
  lemma {:induction false} CollapseFixed(s: string)
    requires Collapsed(s)
    ensures CollapseSpace(s) == s
    decreases |s|
  {
    if s != [] {
      CollapsedSlice(s, 1, |s|);
      CollapseFixed(s[1..]);
      if IsSpace(s[0]) {
        assert s[1..] == [] || !IsSpace(s[1..][0]);
        assert TrimStart(s[1..]) == s[1..];
        assert s == [' '] + s[1..];
      } else {
        assert s == [s[0]] + s[1..];
      }
    }
  }

  lemma LowerCharShape(c: char)
    ensures IsSpace(LowerChar(c)) == IsSpace(c)
    ensures c == ' ' ==> LowerChar(c) == ' '
    ensures !IsUpper(LowerChar(c))
  {
  }

  lemma TrimKeepsCollapsed(c: string)
    requires Collapsed(c)
    ensures Collapsed(Trim(c))
  {
    var k := |c| - |TrimStart(c)|;
    TrimShape(c);
    CollapsedSlice(c, k, k + |Trim(c)|);
  }

  lemma LowerNormalized(t: string)
    requires Collapsed(t)
    requires t == [] || (!IsSpace(t[0]) && !IsSpace(t[|t| - 1]))
    ensures Normalized(Lower(t))
  {
    var l := Lower(t);
    forall i | 0 <= i < |t|
      ensures IsSpace(l[i]) == IsSpace(t[i]) && (t[i] == ' ' ==> l[i] == ' ') && !IsUpper(l[i])
    {
      LowerCharShape(t[i]);
    }
  }

  /** The result of NormalizeText always has the normalized shape. */
  lemma NormalizeTextNormalized(s: string)
    ensures Normalized(NormalizeText(s))
  {
    CollapseSpaceCollapsed(s);
    TrimShape(CollapseSpace(s));
    TrimKeepsCollapsed(CollapseSpace(s));
    LowerNormalized(Trim(CollapseSpace(s)));
  }

  /** A normalized text is left unchanged by NormalizeText. */
  lemma NormalizedFixed(s: string)
    requires Normalized(s)
    ensures NormalizeText(s) == s
  {
    CollapseFixed(s);
    assert TrimStart(s) == s;
    assert TrimEnd(s) == s;
  }

  /** Normalizing twice is normalizing once, so the label matcher's comparison
      is insensitive to the hint already being normalized. */
  lemma NormalizeTextIdempotent(s: string)
    ensures NormalizeText(NormalizeText(s)) == NormalizeText(s)
  {
    NormalizeTextNormalized(s);
    NormalizedFixed(NormalizeText(s));
  }

  /** Nothing but whitespace (possibly nothing at all). */
  predicate Blank(s: string) {
    forall i :: 0 <= i < |s| ==> IsSpace(s[i])
  }

  lemma TrimStartBlank(s: string)
    ensures Blank(TrimStart(s)) <==> Blank(s)
  {
    var t := TrimStart(s);
    var k := |s| - |t|;
    TrimStartShape(s);
    if Blank(t) {
      assert |t| == 0;
    }
    assert t == s[k..];
  }

  /** `trim()` gives "" exactly for blank strings. */
  lemma TrimEmpty(s: string)
    ensures Trim(s) == [] <==> Blank(s)
  {
    TrimStartBlank(s);
    var t := TrimStart(s);
    TrimEndShape(t);
    TrimStartShape(s);
    if t != [] {
      assert s[|s| - |t|] == t[0];
    }
  }

  lemma {:induction false} CollapseBlank(s: string)
    ensures Blank(CollapseSpace(s)) <==> Blank(s)
    decreases |s|
  {
    if s != [] && IsSpace(s[0]) {
      var t := TrimStart(s[1..]);
      CollapseBlank(t);
      TrimStartBlank(s[1..]);
      var c := CollapseSpace(t);
      var cs := [' '] + c;
      assert CollapseSpace(s) == cs;
      assert forall i :: 0 <= i < |c| ==> cs[i + 1] == c[i];
      assert forall i :: 0 <= i < |s| - 1 ==> s[1..][i] == s[i + 1];
    }
  }

  /** A text normalizes to "" exactly when it is blank. */
  lemma NormalizeTextEmpty(s: string)
    ensures NormalizeText(s) == [] <==> Blank(s)
  {
    CollapseBlank(s);
    TrimEmpty(CollapseSpace(s));
  }

  /** The fallback branch of the source's `cssEscape`: a backslash is put in
      front of every `"` and every `\`; nothing else changes. */
  function CssEscape(v: string): string {
    if v == [] then [] else EscapeChar(v[0]) + CssEscape(v[1..])
  }

  /** One character of the fallback: a backslash before a quote or a
      backslash, nothing before anything else. */
  function EscapeChar(c: char): string {
    if c == '"' || c == '\\' then ['\\', c] else [c]
  }

  /** Newlines in the sense of the CSS tokenizer. */
  predicate IsCssNewline(c: char) { c == '\n' || c == '\r' || c == '\U{C}' }

  predicate IsHexDigit(c: char) { IsDigit(c) || 'a' <= c <= 'f' || 'A' <= c <= 'F' }

  /** The body of a CSS double-quoted string token, read after its opening
      quote (section 4.3.5 of CSS Syntax Module Level 3): the decoded value and
      what follows the closing quote, or None for a bad string (an unescaped
      newline) or a string that is never closed. A backslash before a newline
      is a line continuation; before any other non-hex character it stands
      for that character. Hexadecimal escapes are not decoded by this reader
      (yielding None); the fallback escaper never produces them. */
  function ReadCssString(s: string): Option<(string, string)>
    decreases |s|
  {
    if s == [] then None
    else if s[0] == '"' then Some(([], s[1..]))
    else if IsCssNewline(s[0]) then None
    else if s[0] == '\\' then
      if |s| == 1 || IsHexDigit(s[1]) then None
      else if IsCssNewline(s[1]) then ReadCssString(s[2..])
      else Prepend(s[1], ReadCssString(s[2..]))
    else Prepend(s[0], ReadCssString(s[1..]))
  }

  function Prepend(c: char, r: Option<(string, string)>): Option<(string, string)> {
    match r
    case None => None
    case Some((v, rest)) => Some(([c] + v, rest))
  }

  /** Reading one escaped character gives it back, whatever follows. */
  lemma ReadEscapeChar(c: char, tail: string)
    requires !IsCssNewline(c)
    ensures ReadCssString(EscapeChar(c) + tail) == Prepend(c, ReadCssString(tail))
  {
    var t := EscapeChar(c) + tail;
    if c == '"' || c == '\\' {
      assert t[0] == '\\' && t[1] == c && t[2..] == tail;
    } else {
      assert t[0] == c && t[1..] == tail;
    }
  }

  /** The escaped value, the closing quote and what follows, one character
      at a time. */
  lemma EscapeFirst(v: string, rest: string)
    requires v != []
    ensures CssEscape(v) + ['"'] + rest == EscapeChar(v[0]) + (CssEscape(v[1..]) + ['"'] + rest)
  {
  }

  /** Quoting the escaped value gives back exactly that value, and the
      closing quote is the one the selector put there: no hint can end the
      attribute string early. It needs the value to hold no newline, which
      the fallback leaves unescaped. */
  lemma {:induction false} CssEscapeReadBack(v: string, rest: string)
    requires forall i :: 0 <= i < |v| ==> !IsCssNewline(v[i])
    ensures ReadCssString(CssEscape(v) + ['"'] + rest) == Some((v, rest))
    decreases |v|
  {
    if v == [] {
      assert CssEscape(v) + ['"'] + rest == ['"'] + rest;
    } else {
      var tail := CssEscape(v[1..]) + ['"'] + rest;
      assert forall i :: 0 <= i < |v[1..]| ==> v[1..][i] == v[i + 1];
      CssEscapeReadBack(v[1..], rest);
      EscapeFirst(v, rest);
      ReadEscapeChar(v[0], tail);
      assert v == [v[0]] + v[1..];
    }
  }

  /** A line break passes through the fallback unescaped and turns the quoted
      value into a bad string. */
  lemma CssEscapeLineBreak()
    ensures ReadCssString(CssEscape("a\nb") + "\"]") == None
  {
    assert CssEscape("a\nb") == "a\nb";
  }

  /** The decimal digit for `d`. */
  function DigitChar(d: nat): char
    requires d < 10
  {
    ('0' as int + d) as char
  }

  /** The decimal rendering of a number in a template literal (`${n}`). */
  function NatToString(n: nat): (r: string)
    ensures r != [] && forall i :: 0 <= i < |r| ==> IsDigit(r[i])
    decreases n
  {
    if n < 10 then [DigitChar(n)] else NatToString(n / 10) + [DigitChar(n % 10)]
  }

  function DigitValue(c: char): nat
    requires IsDigit(c)
  {
    c as int - '0' as int
  }

  /** The number a string of decimal digits denotes. */
  function DigitsValue(s: string): nat
    requires forall i :: 0 <= i < |s| ==> IsDigit(s[i])
  {
    if s == [] then 0
    else 10 * DigitsValue(s[..|s| - 1]) + DigitValue(s[|s| - 1])
  }

  /** Reading the rendered digits back gives the number. */
  lemma {:induction false} NatToStringRoundTrip(n: nat)
    ensures DigitsValue(NatToString(n)) == n
    decreases n
  {
    if n >= 10 {
      NatToStringRoundTrip(n / 10);
      var s := NatToString(n);
      assert s[..|s| - 1] == NatToString(n / 10);
    }
  }

  /** Distinct numbers render to distinct strings. */
  lemma NatToStringInjective(m: nat, n: nat)
    requires NatToString(m) == NatToString(n)
    ensures m == n
  {
    NatToStringRoundTrip(m);
    NatToStringRoundTrip(n);
  }

  /** `s.split(sep)`: the pieces between separators, always at least one. */
  function Split(s: string, sep: char): (r: seq<string>)
    ensures |r| >= 1
    decreases |s|
  {
    if s == [] then [[]]
    else
      var rest := Split(s[1..], sep);
      if s[0] == sep then [[]] + rest else [[s[0]] + rest[0]] + rest[1..]
  }

  /** `parts.join(sep)`. */
  function Join(parts: seq<string>, sep: char): string
    requires |parts| >= 1
  {
    if |parts| == 1 then parts[0] else parts[0] + [sep] + Join(parts[1..], sep)
  }

  /** No piece of a split holds the separator. */
  lemma {:induction false} SplitPiecesFree(s: string, sep: char)
    ensures forall k, i :: 0 <= k < |Split(s, sep)| && 0 <= i < |Split(s, sep)[k]| ==> Split(s, sep)[k][i] != sep
    decreases |s|
  {
    if s != [] {
      var rest := Split(s[1..], sep);
      var r := Split(s, sep);
      SplitPiecesFree(s[1..], sep);
      if s[0] == sep {
        assert r == [[]] + rest;
        forall k, i | 0 <= k < |r| && 0 <= i < |r[k]| ensures r[k][i] != sep {
          assert r[k] == rest[k - 1];
        }
      } else {
        assert r == [[s[0]] + rest[0]] + rest[1..];
        forall k, i | 0 <= k < |r| && 0 <= i < |r[k]| ensures r[k][i] != sep {
          if k == 0 {
            if i > 0 { assert r[0][i] == rest[0][i - 1]; }
          } else {
            assert r[k] == rest[k];
          }
        }
      }
    }
  }

  /** A character put in front of the first piece comes out in front of
      the joined string. */
  lemma JoinPrepend(c: char, parts: seq<string>, sep: char)
    requires |parts| >= 1
    ensures Join([[c] + parts[0]] + parts[1..], sep) == [c] + Join(parts, sep)
  {
    var r := [[c] + parts[0]] + parts[1..];
    if |parts| > 1 {
      assert r[1..] == parts[1..];
      assert Join(r, sep) == [c] + parts[0] + [sep] + Join(parts[1..], sep);
    }
  }

  /** Splitting loses nothing: the pieces hold no separator and joining them
      with it gives back the string. */
  lemma {:induction false} SplitJoin(s: string, sep: char)
    ensures Join(Split(s, sep), sep) == s
    ensures forall k, i :: 0 <= k < |Split(s, sep)| && 0 <= i < |Split(s, sep)[k]| ==> Split(s, sep)[k][i] != sep
    decreases |s|
  {
    SplitPiecesFree(s, sep);
    if s != [] {
      var rest := Split(s[1..], sep);
      SplitJoin(s[1..], sep);
      if s[0] == sep {
        assert Split(s, sep) == [[]] + rest;
        assert Join(Split(s, sep), sep) == [] + [sep] + Join(rest, sep);
      } else {
        assert Split(s, sep) == [[s[0]] + rest[0]] + rest[1..];
        JoinPrepend(s[0], rest, sep);
      }
      assert s == [s[0]] + s[1..];
    }
  }

  /** `s.includes(sub)`. */
  predicate Contains(s: string, sub: string)
    decreases |s|
  {
    sub <= s || (s != [] && Contains(s[1..], sub))
  }

  /** `sub` occurs in `s` starting at position `i`. */
  predicate OccursAt(s: string, sub: string, i: int) {
    0 <= i <= |s| - |sub| && s[i..i + |sub|] == sub
  }

  lemma {:induction false} OccursContains(s: string, sub: string, i: int)
    requires OccursAt(s, sub, i)
    ensures Contains(s, sub)
    decreases i
  {
    if i > 0 {
      assert s[1..][i - 1..i - 1 + |sub|] == s[i..i + |sub|];
      OccursContains(s[1..], sub, i - 1);
    }
  }

  /** `includes` holds exactly when `sub` occurs at some position of `s`. */
  lemma {:induction false} ContainsAt(s: string, sub: string)
    ensures Contains(s, sub) <==> exists i :: OccursAt(s, sub, i)
    decreases |s|
  {
    if Contains(s, sub) {
      if sub <= s {
        assert OccursAt(s, sub, 0);
      } else {
        ContainsAt(s[1..], sub);
        var i :| OccursAt(s[1..], sub, i);
        assert s[i + 1..i + 1 + |sub|] == s[1..][i..i + |sub|];
        assert OccursAt(s, sub, i + 1);
      }
    }
    forall i | OccursAt(s, sub, i)
      ensures Contains(s, sub)
    {
      OccursContains(s, sub, i);
    }
  }

  /** A string contains whatever is placed inside it. */
  lemma {:induction false} ContainsInfix(a: string, sub: string, b: string)
    ensures Contains(a + sub + b, sub)
    decreases |a|
  {
    if a == [] {
      assert a + sub + b == sub + b;
    } else {
      ContainsInfix(a[1..], sub, b);
      assert (a + sub + b)[1..] == a[1..] + sub + b;
    }
  }

  /** A string contains nothing longer than itself. */
  lemma {:induction false} ContainsLength(s: string, sub: string)
    requires Contains(s, sub)
    ensures |sub| <= |s|
    decreases |s|
  {
    if !(sub <= s) {
      ContainsLength(s[1..], sub);
    }
  }

  /** A prefix none of whose characters can start `sub` neither creates nor
      hides an occurrence of `sub`. */
  lemma {:induction false} ContainsSkipPrefix(p: string, m: string, sub: string)
    requires sub != [] && forall i :: 0 <= i < |p| ==> p[i] != sub[0]
    ensures Contains(p + m, sub) <==> Contains(m, sub)
    decreases |p|
  {
    if p == [] {
      assert p + m == m;
    } else {
      assert !(sub <= p + m) by { assert (p + m)[0] == p[0]; }
      assert (p + m)[1..] == p[1..] + m;
      ContainsSkipPrefix(p[1..], m, sub);
    }
  }
}
