/**
 The string functions of Go's standard library that the models share, on strings
 of code points. What Unicode says about code points beyond those named here is a
 parameter: `others` for lower case.
 */
module Text {

  type CharMap = char -> char

  predicate IsSpace(c: char) {
    || '\t' <= c <= '\r' || c == ' ' || c == '\U{85}' || c == '\U{A0}' || c == '\U{1680}'
    || '\U{2000}' <= c <= '\U{200A}' || c == '\U{2028}' || c == '\U{2029}' || c == '\U{202F}'
    || c == '\U{205F}' || c == '\U{3000}'
  }

  /** Two code points outside ASCII have an ASCII lower case: the dotted capital I
      and the Kelvin sign. */
  function LowerChar(c: char, others: CharMap): char {
    if 'A' <= c <= 'Z' then (c as int + 32) as char
    else if c < '\U{80}' || IsSpace(c) then c
    else if c == '\U{130}' then 'i'
    else if c == '\U{212A}' then 'k'
    else others(c)
  }

  function ToLower(s: string, others: CharMap): (r: string)
    ensures |r| == |s| && forall i :: 0 <= i < |s| ==> r[i] == LowerChar(s[i], others)
  {
    seq(|s|, i requires 0 <= i < |s| => LowerChar(s[i], others))
  }

  function TrimLeft(s: string): string {
    if s != [] && IsSpace(s[0]) then TrimLeft(s[1..]) else s
  }

  function TrimRight(s: string): string {
    if s != [] && IsSpace(s[|s| - 1]) then TrimRight(s[..|s| - 1]) else s
  }

  function TrimSpace(s: string): string {
    TrimRight(TrimLeft(s))
  }

  predicate HasPrefix(s: string, prefix: string) {
    prefix <= s
  }

  function TrimPrefix(s: string, prefix: string): string {
    if HasPrefix(s, prefix) then s[|prefix|..] else s
  }

  // ---- Splitting and joining -----------------------------------------------

  function Split(s: string, sep: char): (parts: seq<string>)
    ensures parts != []
  {
    if s == [] then [""]
    else
      var rest := Split(s[1..], sep);
      if s[0] == sep then [""] + rest else [[s[0]] + rest[0]] + rest[1..]
  }

  function Join(parts: seq<string>, sep: char): string
    requires parts != []
  {
    if |parts| == 1 then parts[0] else parts[0] + [sep] + Join(parts[1..], sep)
  }

  lemma {:induction false} SplitAtSep(a: string, b: string, sep: char)
    ensures Split(a + [sep] + b, sep) == Split(a, sep) + Split(b, sep)
  {
    if a == [] {
      assert a + [sep] + b == [sep] + b;
      assert ([sep] + b)[1..] == b;
    } else {
      assert (a + [sep] + b)[1..] == a[1..] + [sep] + b;
      SplitAtSep(a[1..], b, sep);
    }
  }

  lemma {:induction false} SplitWithoutSep(s: string, sep: char)
    requires sep !in s
    ensures Split(s, sep) == [s]
  {
    if s != [] {
      SplitWithoutSep(s[1..], sep);
      assert s == [s[0]] + s[1..] && s[0] in s;
    }
  }

  /** Splitting undoes joining when no part contains the separator. */
  lemma {:induction false} SplitJoin(parts: seq<string>, sep: char)
    requires parts != [] && forall i :: 0 <= i < |parts| ==> sep !in parts[i]
    ensures Split(Join(parts, sep), sep) == parts
  {
    SplitWithoutSep(parts[0], sep);
    if |parts| > 1 {
      SplitAtSep(parts[0], Join(parts[1..], sep), sep);
      SplitJoin(parts[1..], sep);
    }
  }

  /** Joining undoes splitting. */
  lemma {:induction false} JoinSplit(s: string, sep: char)
    ensures Join(Split(s, sep), sep) == s
  {
    if s != [] {
      JoinSplit(s[1..], sep);
      var rest := Split(s[1..], sep);
      if s[0] == sep {
        assert ([""] + rest)[1..] == rest;
      } else {
        JoinFirst(s[0], rest, sep);
      }
    }
  }

  lemma JoinFirst(c: char, rest: seq<string>, sep: char)
    requires rest != []
    ensures Join([[c] + rest[0]] + rest[1..], sep) == [c] + Join(rest, sep)
  {
    assert ([[c] + rest[0]] + rest[1..])[1..] == rest[1..];
  }

  lemma {:induction false} NoSpaceTrimmed(s: string)
    requires forall c :: c in s ==> !IsSpace(c)
    ensures TrimSpace(s) == s
  {
    if s != [] {
      assert s[0] in s && s[|s| - 1] in s;
    }
  }

  // ---- Case and white space ------------------------------------------------

  /** `word` is the lower-case ASCII `name` in any mix of cases. */
  predicate CaseOf(word: string, name: string) {
    && |word| == |name|
    && forall i :: 0 <= i < |name| ==> CharCaseOf(word[i], name[i])
  }

  predicate CharCaseOf(c: char, lower: char) {
    && lower < '\U{80}' && !('A' <= lower <= 'Z')
    && (c == lower || ('a' <= lower <= 'z' && c as int + 32 == lower as int))
  }

  lemma LowerOfCase(word: string, name: string, others: CharMap)
    requires CaseOf(word, name)
    ensures ToLower(word, others) == name
  {
    forall i | 0 <= i < |name| ensures LowerChar(word[i], others) == name[i] {
      assert CharCaseOf(word[i], name[i]);
    }
  }

  predicate Spaces(s: string) {
    forall i :: 0 <= i < |s| ==> IsSpace(s[i])
  }

  lemma {:induction false} TrimLeftSkips(a: string, s: string)
    requires Spaces(a) && (s != [] ==> !IsSpace(s[0]))
    ensures TrimLeft(a + s) == s
  {
    if a == [] {
      assert a + s == s;
    } else {
      assert (a + s)[0] == a[0] && (a + s)[1..] == a[1..] + s;
      TrimLeftSkips(a[1..], s);
    }
  }

  lemma {:induction false} TrimRightSkips(s: string, b: string)
    requires Spaces(b) && (s != [] ==> !IsSpace(s[|s| - 1]))
    ensures TrimRight(s + b) == s
    decreases |b|
  {
    if b == [] {
      assert s + b == s;
    } else {
      var n := |b| - 1;
      assert (s + b)[|s + b| - 1] == b[n] && (s + b)[..|s + b| - 1] == s + b[..n];
      TrimRightSkips(s, b[..n]);
    }
  }

  /** Trimming takes off white space on both sides and nothing else. */
  lemma TrimSpaceTakesOff(a: string, s: string, b: string)
    requires Spaces(a) && Spaces(b) && (s != [] ==> !IsSpace(s[0]) && !IsSpace(s[|s| - 1]))
    ensures TrimSpace(a + s + b) == s
  {
    if s == [] {
      TrimLeftSkips(a + b, s);
      assert a + s + b == (a + b) + s;
      return;
    }
    assert a + s + b == a + (s + b);
    TrimLeftSkips(a, s + b);
    TrimRightSkips(s, b);
  }

  /** The white space of Unicode, by code point. */
  lemma WhiteSpace(c: char)
    ensures
      var n := c as int;
      IsSpace(c) <==> || n in {9, 10, 11, 12, 13, 32, 0x85, 0xA0, 0x1680, 0x2028, 0x2029, 0x202F, 0x205F, 0x3000}
                      || (0x2000 <= n && n <= 0x200A)
  {
  }

  /** Lower case, by code point: ASCII capitals move by 32, the dotted capital I and the
      Kelvin sign become ASCII, other ASCII characters and white space stay. */
  lemma LowerCase(c: char, others: CharMap)
    ensures
      var n, r := c as int, LowerChar(c, others);
      if 65 <= n <= 90 then r as int == n + 32
      else if n < 128 || IsSpace(c) then r == c
      else if n == 0x130 then r as int == 105
      else if n == 0x212A then r as int == 107
      else r == others(c)
  {
  }
}
