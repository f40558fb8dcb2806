/**
 Bytes against text: the well-formed byte sequences of `Utf8` are the encodings of
 strings of code points as section 3 of RFC 3629 defines them, and trimming,
 cutting and repairing bytes does to an encoded text what it should do to the text.
 */
module Encoding {
  import opened Common
  import Text
  import Utf8

  function EncodeChar(c: char): (r: seq<byte>)
    ensures 1 <= |r| <= 4
  {
    var n := c as int;
    if n < 0x80 then [n as byte]
    else if n < 0x800 then [(0xC0 + n / 64) as byte, (0x80 + n % 64) as byte]
    else if n < 0x1_0000 then
      [(0xE0 + n / 4096) as byte, (0x80 + n / 64 % 64) as byte, (0x80 + n % 64) as byte]
    else
      [(0xF0 + n / 262144) as byte, (0x80 + n / 4096 % 64) as byte, (0x80 + n / 64 % 64) as byte,
       (0x80 + n % 64) as byte]
  }

  function Encode(s: string): seq<byte> {
    if s == [] then [] else EncodeChar(s[0]) + Encode(s[1..])
  }

  /** The code point of the character `b` starts with. */
  function CodePoint(b: seq<byte>): int
    requires Utf8.CharLen(b) > 0
  {
    match Utf8.CharLen(b)
    case 1 => b[0] as int
    case 2 => (b[0] as int - 0xC0) * 64 + Low(b[1])
    case 3 => (b[0] as int - 0xE0) * 4096 + Low(b[1]) * 64 + Low(b[2])
    case _ => (b[0] as int - 0xF0) * 262144 + Low(b[1]) * 4096 + Low(b[2]) * 64 + Low(b[3])
  }

  /** The six bits a continuation byte carries. */
  function Low(b: byte): int {
    b as int - 0x80
  }

  lemma ThreeDigits(a: int, b: int, c: int)
    requires 0 <= b < 64 && 0 <= c < 64
    ensures
      var n := a * 4096 + b * 64 + c;
      n / 4096 == a && n / 64 % 64 == b && n % 64 == c
  {
    var n := a * 4096 + b * 64 + c;
    assert n == (a * 64 + b) * 64 + c;
  }

  lemma FourDigits(a: int, b: int, c: int, d: int)
    requires 0 <= b < 64 && 0 <= c < 64 && 0 <= d < 64
    ensures
      var n := a * 262144 + b * 4096 + c * 64 + d;
      n / 262144 == a && n / 4096 % 64 == b && n / 64 % 64 == c && n % 64 == d
  {
    var n := a * 262144 + b * 4096 + c * 64 + d;
    ThreeDigits(a * 64 + b, c, d);
    assert n == (a * 64 + b) * 4096 + c * 64 + d;
  }

  /** A number from its digits to base 64. */
  lemma FromDigits(n: nat)
    ensures n == n / 4096 * 4096 + n / 64 % 64 * 64 + n % 64
    ensures n == n / 262144 * 262144 + n / 4096 % 64 * 4096 + n / 64 % 64 * 64 + n % 64
  {
    var q := n / 64;
    var p := q / 64;
    ThreeDigits(p, q % 64, n % 64);
    FourDigits(p / 64, p % 64, q % 64, n % 64);
  }

  // ---- Well-formed is encoded ----------------------------------------------

  lemma SamePrefix(r: seq<byte>, b: seq<byte>)
    requires r <= b && Utf8.CharLen(r) > 0
    ensures Utf8.CharLen(r) == Utf8.CharLen(b)
  {
  }

  lemma EncodedAlone(c: char)
    ensures Utf8.CharLen(EncodeChar(c)) == |EncodeChar(c)|
  {
  }

  /** Every encoded code point is a character, whatever follows. */
  lemma CharEncoded(c: char, rest: seq<byte>)
    ensures Utf8.CharLen(EncodeChar(c) + rest) == |EncodeChar(c)|
    ensures (EncodeChar(c) + rest)[|EncodeChar(c)|..] == rest
  {
    EncodedAlone(c);
    SamePrefix(EncodeChar(c), EncodeChar(c) + rest);
  }

  /** And every character is one: no surrogate, no overlong form, none above U+10FFFF. */
  lemma CharDecoded(b: seq<byte>) returns (c: char)
    requires Utf8.CharLen(b) > 0
    ensures c as int == CodePoint(b) && EncodeChar(c) == b[..Utf8.CharLen(b)]
  {
    match Utf8.CharLen(b)
    case 1 => c := OneByte(b);
    case 2 => c := TwoBytes(b);
    case 3 => c := ThreeBytes(b);
    case _ => c := FourBytes(b);
  }

  lemma OneByte(b: seq<byte>) returns (c: char)
    requires Utf8.CharLen(b) == 1
    ensures c as int == CodePoint(b) && EncodeChar(c) == b[..1]
  {
    c := CodePoint(b) as char;
  }

  lemma TwoBytes(b: seq<byte>) returns (c: char)
    requires Utf8.CharLen(b) == 2
    ensures c as int == CodePoint(b) && EncodeChar(c) == b[..2]
  {
    c := CodePoint(b) as char;
  }

  lemma ThreeBytes(b: seq<byte>) returns (c: char)
    requires Utf8.CharLen(b) == 3
    ensures c as int == CodePoint(b) && EncodeChar(c) == b[..3]
  {
    ThreeDigits(b[0] as int - 0xE0, Low(b[1]), Low(b[2]));
    c := CodePoint(b) as char;
  }

  lemma FourBytes(b: seq<byte>) returns (c: char)
    requires Utf8.CharLen(b) == 4
    ensures c as int == CodePoint(b) && EncodeChar(c) == b[..4]
  {
    FourDigits(b[0] as int - 0xF0, Low(b[1]), Low(b[2]), Low(b[3]));
    c := CodePoint(b) as char;
  }

  lemma {:induction false} EncodeValid(s: string)
    ensures Utf8.Valid(Encode(s))
  {
    if s != [] {
      EncodeValid(s[1..]);
      CharEncoded(s[0], Encode(s[1..]));
    }
  }

  lemma {:induction false} Decoded(b: seq<byte>) returns (s: string)
    requires Utf8.Valid(b)
    ensures Encode(s) == b
    decreases |b|
  {
    if b == [] {
      s := [];
    } else {
      var n := Utf8.CharLen(b);
      var c := CharDecoded(b);
      var rest := Decoded(b[n..]);
      s := [c] + rest;
      assert s[1..] == rest && b == b[..n] + b[n..];
    }
  }

  /** The well-formed byte sequences are exactly the encodings of strings. */
  lemma ValidIffEncoding(b: seq<byte>)
    ensures Utf8.Valid(b) <==> exists s :: Encode(s) == b
  {
    if Utf8.Valid(b) {
      var s := Decoded(b);
    }
    forall s | Encode(s) == b ensures Utf8.Valid(b) {
      EncodeValid(s);
    }
  }

  /** Different strings have different encodings. */
  lemma {:induction false} EncodeInjective(s: string, t: string)
    requires Encode(s) == Encode(t)
    ensures s == t
  {
    if s != [] && t != [] {
      CharEncoded(s[0], Encode(s[1..]));
      CharEncoded(t[0], Encode(t[1..]));
      CharInjective(s[0], t[0], Encode(s[1..]), Encode(t[1..]));
      EncodeInjective(s[1..], t[1..]);
      assert s == [s[0]] + s[1..] && t == [t[0]] + t[1..];
    }
  }

  lemma CharInjective(c: char, d: char, x: seq<byte>, y: seq<byte>)
    requires EncodeChar(c) + x == EncodeChar(d) + y
    ensures c == d && x == y
  {
    CharCodePoint(c, x);
    CharCodePoint(d, y);
    CharEncoded(c, x);
    CharEncoded(d, y);
  }

  lemma CharCodePoint(c: char, rest: seq<byte>)
    ensures Utf8.CharLen(EncodeChar(c) + rest) > 0 && CodePoint(EncodeChar(c) + rest) == c as int
  {
    CharEncoded(c, rest);
    FromDigits(c as int);
    var b := EncodeChar(c) + rest;
    assert forall i :: 0 <= i < |EncodeChar(c)| ==> b[i] == EncodeChar(c)[i];
  }

  lemma {:induction false} EncodeAppend(s: string, t: string)
    ensures Encode(s + t) == Encode(s) + Encode(t)
  {
    if s == [] {
      assert s + t == t;
    } else {
      assert (s + t)[1..] == s[1..] + t;
      EncodeAppend(s[1..], t);
    }
  }

  // ---- Trimming ------------------------------------------------------------

  lemma SpaceEncoded(c: char, rest: seq<byte>)
    ensures Utf8.SpaceLen(EncodeChar(c) + rest) == if Text.IsSpace(c) then |EncodeChar(c)| else 0
  {
  }

  lemma {:induction false} TrimLeftEncoded(s: string)
    ensures Utf8.TrimLeft(Encode(s)) == Encode(Text.TrimLeft(s))
  {
    if s != [] {
      SpaceEncoded(s[0], Encode(s[1..]));
      CharEncoded(s[0], Encode(s[1..]));
      TrimLeftEncoded(s[1..]);
    }
  }

  /** White space does not start inside a character. */
  lemma NoShorterSpace(e: seq<byte>, n: nat)
    requires Utf8.CharLen(e) == |e| && 0 < n < |e|
    ensures Utf8.SpaceLen(e[|e| - n..]) == 0
  {
    assert Utf8.Continuation(e[|e| - n]);
  }

  /** Nor does it go on with the first byte of one. */
  lemma NoLongerSpace(tail: seq<byte>, n: nat)
    requires 0 < n < |tail| && !Utf8.Continuation(tail[n])
    ensures Utf8.SpaceLen(tail) != |tail|
  {
  }

  /** The last n bytes are a white-space character. */
  predicate SpaceOf(s: seq<byte>, n: nat)
    requires n <= |s|
  {
    Utf8.SpaceLen(s[|s| - n..]) == n
  }

  lemma LastSpaceOf(s: seq<byte>, k: nat)
    requires 0 < k <= |s|
    requires forall n :: 0 < n <= |s| && n != k ==> !SpaceOf(s, n)
    ensures Utf8.LastSpaceLen(s) == if SpaceOf(s, k) then k else 0
  {
    var n := Utf8.LastSpaceLen(s);
    assert n == 0 || SpaceOf(s, n);
  }

  lemma OtherSpace(b: seq<byte>, e: seq<byte>, n: nat)
    requires e != [] && Utf8.CharLen(e) == |e| && 0 < n <= |b + e| && n != |e|
    ensures !SpaceOf(b + e, n)
  {
    var tail := (b + e)[|b + e| - n..];
    if n < |e| {
      assert tail == e[|e| - n..];
      NoShorterSpace(e, n);
    } else {
      assert tail[n - |e|] == e[0];
      NoLongerSpace(tail, n - |e|);
    }
  }

  lemma LastSpaceIs(b: seq<byte>, e: seq<byte>)
    requires e != [] && Utf8.CharLen(e) == |e|
    requires Utf8.SpaceLen(e) == 0 || Utf8.SpaceLen(e) == |e|
    ensures Utf8.LastSpaceLen(b + e) == Utf8.SpaceLen(e)
  {
    var all := b + e;
    assert all[|b|..] == e;
    forall n | 0 < n <= |all| && n != |e| ensures !SpaceOf(all, n) {
      OtherSpace(b, e, n);
    }
    LastSpaceOf(all, |e|);
  }

  lemma LastSpaceEncoded(b: seq<byte>, c: char)
    ensures Utf8.LastSpaceLen(b + EncodeChar(c)) == if Text.IsSpace(c) then |EncodeChar(c)| else 0
  {
    var e := EncodeChar(c);
    assert e + [] == e;
    SpaceEncoded(c, []);
    CharEncoded(c, []);
    LastSpaceIs(b, e);
  }

  lemma TrimRightOnce(b: seq<byte>, e: seq<byte>, space: bool)
    requires |e| > 0 && Utf8.LastSpaceLen(b + e) == if space then |e| else 0
    ensures Utf8.TrimRight(b + e) == if space then Utf8.TrimRight(b) else b + e
  {
    assert (b + e)[..|b + e| - |e|] == b;
  }

  lemma {:induction false} TrimRightEncoded(s: string)
    ensures Utf8.TrimRight(Encode(s)) == Encode(Text.TrimRight(s))
    decreases |s|
  {
    if s != [] {
      var n := |s| - 1;
      assert s == s[..n] + [s[n]];
      EncodeAppend(s[..n], [s[n]]);
      assert Encode([s[n]]) == EncodeChar(s[n]);
      LastSpaceEncoded(Encode(s[..n]), s[n]);
      TrimRightEncoded(s[..n]);
      TrimRightOnce(Encode(s[..n]), EncodeChar(s[n]), Text.IsSpace(s[n]));
    }
  }

  /** Trimming the bytes of a text gives the bytes of the trimmed text. */
  lemma TrimEncoded(s: string)
    ensures Utf8.TrimSpace(Encode(s)) == Encode(Text.TrimSpace(s))
  {
    TrimLeftEncoded(s);
    TrimRightEncoded(Text.TrimLeft(s));
  }

  // ---- Cutting -------------------------------------------------------------

  /** Cutting the bytes of a text keeps whole characters, and one more would not fit. */
  lemma {:induction false} CutEncoded(s: string, limit: nat) returns (k: nat)
    ensures k <= |s| && Utf8.Truncated(Encode(s), limit) == Encode(s[..k])
    ensures |Encode(s[..k])| <= limit
    ensures k < |s| ==> |Encode(s[..k + 1])| > limit
  {
    EncodeValid(s);
    Utf8.TruncatedLongest(Encode(s), limit);
    var r := Utf8.Truncated(Encode(s), limit);
    k := Parts(s, r);
    if k < |s| {
      EncodeAppend(s[..k + 1], s[k + 1..]);
      assert s == s[..k + 1] + s[k + 1..];
      var m := |Encode(s[..k + 1])|;
      assert Encode(s)[..m] == Encode(s[..k + 1]);
      EncodeValid(s[..k + 1]);
      EncodeAppend(s[..k], [s[k]]);
      assert s[..k + 1] == s[..k] + [s[k]];
    }
  }

  lemma SplitPrefix(r: seq<byte>, e: seq<byte>, tail: seq<byte>)
    requires r <= e + tail && |e| <= |r|
    ensures r[|e|..] <= tail && r == e + r[|e|..]
  {
  }

  lemma EncodeFirst(s: string, k: nat)
    requires 0 < k <= |s|
    ensures Encode(s[..k]) == EncodeChar(s[0]) + Encode(s[1..][..k - 1])
  {
    assert s[..k][1..] == s[1..][..k - 1] && s[..k][0] == s[0];
  }

  /** A well-formed prefix of an encoded text encodes its first characters. */
  lemma {:induction false} Parts(s: string, r: seq<byte>) returns (k: nat)
    requires r <= Encode(s) && Utf8.Valid(r)
    ensures k <= |s| && r == Encode(s[..k])
  {
    if r == [] {
      k := 0;
    } else {
      var n, tail := |EncodeChar(s[0])|, Encode(s[1..]);
      CharEncoded(s[0], tail);
      assert Encode(s)[..n] == EncodeChar(s[0]);
      SamePrefix(r, Encode(s));
      SplitPrefix(r, EncodeChar(s[0]), tail);
      var j := Parts(s[1..], r[n..]);
      k := j + 1;
      EncodeFirst(s, k);
    }
  }

  // ---- Repairing -----------------------------------------------------------

  /** No character starts at any of the first n bytes. */
  predicate Stray(b: seq<byte>, n: nat)
    requires n <= |b|
  {
    forall i :: 0 <= i < n ==> Utf8.CharLen(b[i..]) == 0
  }

  lemma StrayTail(bad: seq<byte>, rest: seq<byte>)
    requires bad != [] && Stray(bad + rest, |bad|)
    ensures (bad + rest)[1..] == bad[1..] + rest && Stray(bad[1..] + rest, |bad| - 1)
    ensures Utf8.CharLen(bad + rest) == 0
  {
    var b := bad + rest;
    assert b[0..] == b && b[1..] == bad[1..] + rest;
    assert forall i :: 0 <= i < |bad| - 1 ==> b[1..][i..] == b[i + 1..];
  }

  lemma {:induction false} RunSkipped(bad: seq<byte>, rest: seq<byte>)
    requires Stray(bad + rest, |bad|)
    ensures Utf8.Repaired(bad + rest, true) == Utf8.Repaired(rest, true)
    decreases |bad|
  {
    if bad == [] {
      assert bad + rest == rest;
    } else {
      StrayTail(bad, rest);
      RunSkipped(bad[1..], rest);
    }
  }

  lemma CharKept(e: seq<byte>, rest: seq<byte>, inRun: bool)
    requires |e| > 0 && Utf8.CharLen(e + rest) == |e|
    ensures Utf8.Repaired(e + rest, inRun) == e + Utf8.Repaired(rest, false)
  {
    assert (e + rest)[..|e|] == e && (e + rest)[|e|..] == rest;
  }

  lemma RunStarts(b: seq<byte>)
    requires b != [] && Utf8.CharLen(b) == 0
    ensures Utf8.Repaired(b, false) == Utf8.REPLACEMENT + Utf8.Repaired(b[1..], true)
  {
  }

  lemma RunEnds(b: seq<byte>)
    requires b == [] || Utf8.CharLen(b) > 0
    ensures Utf8.Repaired(b, true) == Utf8.Repaired(b, false)
  {
  }

  lemma RunThen(bad: seq<byte>, rest: seq<byte>)
    requires bad != [] && Stray(bad + rest, |bad|) && (rest == [] || Utf8.CharLen(rest) > 0)
    ensures Utf8.Repaired(bad + rest, false) == Utf8.REPLACEMENT + Utf8.Repaired(rest, false)
  {
    StrayTail(bad, rest);
    RunStarts(bad + rest);
    RunSkipped(bad[1..], rest);
    RunEnds(rest);
  }

  lemma Assoc(a: seq<byte>, b: seq<byte>, c: seq<byte>)
    ensures a + b + c == a + (b + c)
  {
  }

  /** Repair keeps the bytes in front of the rest. */
  predicate Keeps(v: seq<byte>, rest: seq<byte>) {
    Utf8.Repaired(v + rest, false) == v + Utf8.Repaired(rest, false)
  }

  lemma NothingKept(rest: seq<byte>)
    ensures Keeps([], rest)
  {
    assert [] + rest == rest;
  }

  lemma ThenKept(e: seq<byte>, tail: seq<byte>, rest: seq<byte>)
    requires |e| > 0 && Utf8.CharLen(e) == |e| && Keeps(tail, rest)
    ensures Keeps(e + tail, rest)
  {
    SamePrefix(e, e + (tail + rest));
    Assoc(e, tail, rest);
    CharKept(e, tail + rest, false);
    Assoc(e, tail, Utf8.Repaired(rest, false));
  }

  lemma {:induction false} TextKept(s: string, rest: seq<byte>)
    ensures Keeps(Encode(s), rest)
    decreases |s|
  {
    if s == [] {
      NothingKept(rest);
    } else {
      EncodedAlone(s[0]);
      TextKept(s[1..], rest);
      ThenKept(EncodeChar(s[0]), Encode(s[1..]), rest);
    }
  }

  lemma ReplacementChar()
    ensures EncodeChar('\U{FFFD}') == Utf8.REPLACEMENT
  {
  }

  /** Repair keeps the text up to the first stray byte, puts one U+FFFD for the whole
      run of stray bytes there, and goes on behind it. */
  lemma RunRepaired(s: string, bad: seq<byte>, rest: seq<byte>)
    requires bad != [] && Stray(bad + rest, |bad|) && (rest == [] || Utf8.CharLen(rest) > 0)
    ensures Utf8.Repaired(Encode(s) + bad + rest, false) ==
            Encode(s) + EncodeChar('\U{FFFD}') + Utf8.Repaired(rest, false)
  {
    Assoc(Encode(s), bad, rest);
    TextKept(s, bad + rest);
    RunThen(bad, rest);
    ReplacementChar();
    Assoc(Encode(s), Utf8.REPLACEMENT, Utf8.Repaired(rest, false));
  }

  // ---- The whole of limitedReason ------------------------------------------

  /** The recorded reason of a failure with an encoded text is the trimmed text, cut
      between characters, with as many of them as 4096 bytes hold. */
  lemma ReasonOfText(s: string) returns (k: nat)
    ensures k <= |Text.TrimSpace(s)| && Utf8.Reason(Encode(s)) == Encode(Text.TrimSpace(s)[..k])
    ensures |Encode(Text.TrimSpace(s)[..k])| <= 4096
    ensures k < |Text.TrimSpace(s)| ==> |Encode(Text.TrimSpace(s)[..k + 1])| > 4096
  {
    var t := Text.TrimSpace(s);
    TrimEncoded(s);
    EncodeValid(t);
    Utf8.ValidStays(Encode(t), false);
    Utf8.CutsAgree(Encode(t), 4096);
    k := CutEncoded(t, 4096);
  }
}
