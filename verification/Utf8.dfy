/**
 Cutting an error text at a byte limit: `truncate` (inbox/sqlstore.go), the cut
 loop of `limitedReason` (eventbus/consumer.go) and the raw slice in
 `MarkFailed` (outbox/sqlstore.go), against well-formedness as the grammar of
 section 4 of RFC 3629 gives it.
 */
module Utf8 {
  import opened Common

  /** The inbox and the consumer keep at most this many bytes of an error. */
  const TEXT_LIMIT: nat := 4096

  /** A byte of the form 10xxxxxx. */
  predicate Continuation(b: byte) {
    0x80 <= b <= 0xBF
  }

  /** The source tests `b & 0xc0 == 0x80`; as a range that is `Continuation`. */
  lemma ContinuationMask(b: bv8)
    ensures b & 0xC0 == 0x80 <==> 0x80 <= b <= 0xBF
  {
  }

  predicate SecondByte(lead: byte, second: byte) {
    && Continuation(second)
    && (lead == 0xE0 ==> 0xA0 <= second)
    && (lead == 0xED ==> second <= 0x9F)
    && (lead == 0xF0 ==> 0x90 <= second)
    && (lead == 0xF4 ==> second <= 0x8F)
  }

  /** Length of the well-formed character `s` starts with, or 0 if there is none. */
  function CharLen(s: seq<byte>): (n: nat)
    ensures n <= 4 && n <= |s|
    ensures forall m :: 1 <= m < n ==> Continuation(s[m])
    ensures n > 0 ==> !Continuation(s[0])
  {
    if |s| >= 1 && s[0] <= 0x7F then 1
    else if |s| >= 2 && 0xC2 <= s[0] <= 0xDF && Continuation(s[1]) then 2
    else if |s| >= 3 && 0xE0 <= s[0] <= 0xEF && SecondByte(s[0], s[1]) && Continuation(s[2]) then 3
    else if |s| >= 4 && 0xF0 <= s[0] <= 0xF4 && SecondByte(s[0], s[1])
            && Continuation(s[2]) && Continuation(s[3]) then 4
    else 0
  }

  predicate Valid(s: seq<byte>)
    decreases |s|
  {
    s == [] || (CharLen(s) > 0 && Valid(s[CharLen(s)..]))
  }

  /** `r` is the longest well-formed prefix of `s` of at most `limit` bytes. */
  ghost predicate LongestValidPrefix(s: seq<byte>, limit: nat, r: seq<byte>) {
    && r <= s && |r| <= limit
    && Valid(r)
    && forall m :: |r| < m <= |s| && m <= limit ==> !Valid(s[..m])
  }

  /** In a well-formed text the prefixes that are well formed are exactly those
      that stop in front of a byte that is not a continuation byte. */
  lemma {:induction false} ValidPrefix(s: seq<byte>, m: nat)
    requires Valid(s) && m <= |s|
    ensures Valid(s[..m]) <==> m == |s| || !Continuation(s[m])
    decreases |s|
  {
    if s != [] && m > 0 {
      var n := CharLen(s);
      if m >= n {
        assert CharLen(s[..m]) == n;
        assert s[..m][n..] == s[n..][..m - n];
        ValidPrefix(s[n..], m - n);
      } else {
        assert CharLen(s[..m]) == 0;
      }
    }
  }

  /** At most three continuation bytes stand in a row. */
  lemma {:induction false} ShortContinuations(s: seq<byte>, a: nat, b: nat)
    requires Valid(s) && a <= b < |s|
    requires forall m :: a < m <= b ==> Continuation(s[m])
    ensures b - a <= 3
    decreases |s|
  {
    var n := CharLen(s);
    assert n < |s| ==> s[n] == s[n..][0];
    if a >= n {
      assert forall m :: a - n < m <= b - n ==> Continuation(s[n..][m]) by {
        forall m | a - n < m <= b - n ensures Continuation(s[n..][m]) {
          assert s[n..][m] == s[m + n];
        }
      }
      ShortContinuations(s[n..], a - n, b - n);
    }
  }

  // ---- inbox truncate ------------------------------------------------------

  /** Where the backward scan over continuation bytes comes to rest. */
  function Rest(value: seq<byte>, limit: nat): (stop: nat)
    requires limit < |value|
    ensures stop <= limit
    ensures stop == 0 || !Continuation(value[stop])
    ensures forall m :: stop < m <= limit ==> Continuation(value[m])
  {
    if limit > 0 && Continuation(value[limit]) then Rest(value, limit - 1) else limit
  }

  function Truncated(value: seq<byte>, limit: nat): seq<byte> {
    if |value| <= limit then value else value[..Rest(value, limit)]
  }

  method Truncate(value: seq<byte>, limit: nat) returns (r: seq<byte>)
    ensures r == Truncated(value, limit)
    ensures Valid(value) ==> LongestValidPrefix(value, limit, r)
    ensures Valid(value) && limit < |value| ==> limit - |r| <= 3
  {
    TruncatedLongest(value, limit);
    if |value| <= limit {
      return value;
    }
    var cut: nat := limit;
    while cut > 0 && Continuation(value[cut])
      invariant cut <= limit
      invariant Rest(value, cut) == Rest(value, limit)
    {
      cut := cut - 1;
    }
    r := value[..cut];
  }

  lemma TruncatedLongest(value: seq<byte>, limit: nat)
    ensures Valid(value) ==> LongestValidPrefix(value, limit, Truncated(value, limit))
    ensures Valid(value) && limit < |value| ==> limit - |Truncated(value, limit)| <= 3
  {
    if Valid(value) {
      var r := Truncated(value, limit);
      if limit < |value| {
        ValidPrefix(value, |r|);
        assert |r| == 0 ==> !Continuation(value[0]);
        ShortContinuations(value, |r|, limit);
        forall m | |r| < m <= limit ensures !Valid(value[..m]) {
          ValidPrefix(value, m);
        }
      }
    }
  }

  // ---- consumer limitedReason ----------------------------------------------

  /** Drop bytes from the end until the text is well formed. */
  function Shrunk(s: seq<byte>): (r: seq<byte>)
    ensures LongestValidPrefix(s, |s|, r)
  {
    if Valid(s) then s
    else
      var r := Shrunk(s[..|s| - 1]);
      assert forall m :: 0 <= m < |s| ==> s[..m] == s[..|s| - 1][..m];
      assert s[..|s|] == s;
      r
  }

  function Limited(reason: seq<byte>, limit: nat): seq<byte> {
    if |reason| <= limit then reason else Shrunk(reason[..limit])
  }

  /** The cut of `limitedReason`. When it cuts at all the result is well formed whatever came in. */
  method LimitReason(reason: seq<byte>, limit: nat) returns (r: seq<byte>)
    ensures r == Limited(reason, limit)
    ensures limit < |reason| ==> LongestValidPrefix(reason, limit, r)
  {
    r := reason;
    if |r| > limit {
      r := r[..limit];
      while !Valid(r)
        invariant r <= reason && |r| <= limit
        invariant Shrunk(r) == Shrunk(reason[..limit])
        decreases |r|
      {
        r := r[..|r| - 1];
      }
      LimitedLongest(reason, limit);
    }
  }

  lemma LimitedLongest(reason: seq<byte>, limit: nat)
    requires limit < |reason|
    ensures LongestValidPrefix(reason, limit, Limited(reason, limit))
  {
    assert forall m :: 0 <= m <= limit ==> reason[..m] == reason[..limit][..m];
  }

  /** U+FFFD, encoded. */
  const REPLACEMENT: seq<byte> := [0xEF, 0xBF, 0xBD]

  /** `strings.ToValidUTF8`: each run of bytes that belong to no character gives one
      replacement character. `inRun` says that the byte before was of a run. */
  function Repaired(s: seq<byte>, inRun: bool): seq<byte>
    decreases |s|
  {
    if s == [] then []
    else
      var n := CharLen(s);
      if n > 0 then s[..n] + Repaired(s[n..], false)
      else (if inRun then [] else REPLACEMENT) + Repaired(s[1..], true)
  }

  lemma CharThen(c: seq<byte>, rest: seq<byte>)
    requires |c| > 0 && CharLen(c) == |c| && Valid(rest)
    ensures Valid(c + rest)
  {
    assert CharLen(c + rest) == |c|;
    assert (c + rest)[|c|..] == rest;
  }

  lemma CharAlone(s: seq<byte>)
    requires CharLen(s) > 0
    ensures CharLen(s[..CharLen(s)]) == CharLen(s)
  {
  }

  lemma ReplacementThen(rest: seq<byte>)
    requires Valid(rest)
    ensures Valid(REPLACEMENT + rest)
  {
    assert CharLen(REPLACEMENT) == 3;
    CharThen(REPLACEMENT, rest);
  }

  /** Repair makes any text well formed. */
  lemma {:induction false} RepairedValid(s: seq<byte>, inRun: bool)
    ensures Valid(Repaired(s, inRun))
    decreases |s|
  {
    if s != [] {
      var n := CharLen(s);
      if n > 0 {
        RepairedValid(s[n..], false);
        CharAlone(s);
        CharThen(s[..n], Repaired(s[n..], false));
      } else {
        RepairedValid(s[1..], true);
        ReplacementThen(Repaired(s[1..], true));
        assert [] + Repaired(s[1..], true) == Repaired(s[1..], true);
      }
    }
  }

  lemma {:induction false} ValidStays(s: seq<byte>, inRun: bool)
    requires Valid(s)
    ensures Repaired(s, inRun) == s
    decreases |s|
  {
    if s != [] {
      ValidStays(s[CharLen(s)..], false);
      assert s == s[..CharLen(s)] + s[CharLen(s)..];
    }
  }

  /** Repair leaves just the well-formed texts alone. */
  lemma RepairedChanges(s: seq<byte>)
    ensures Repaired(s, false) == s <==> Valid(s)
  {
    RepairedValid(s, false);
    if Valid(s) {
      ValidStays(s, false);
    }
  }

  // ---- White space ---------------------------------------------------------

  /** Length of the white-space character `s` starts with, or 0 if there is none. */
  function SpaceLen(s: seq<byte>): (n: nat)
    ensures n <= |s| && n <= 3
  {
    if |s| >= 1 && (0x09 <= s[0] <= 0x0D || s[0] == 0x20) then 1
    else if |s| >= 2 && s[0] == 0xC2 && (s[1] == 0x85 || s[1] == 0xA0) then 2
    else if |s| >= 3 && IsWideSpace(s[0], s[1], s[2]) then 3
    else 0
  }

  /** U+1680, U+2000 to U+200A, U+2028, U+2029, U+202F, U+205F and U+3000, encoded. */
  predicate IsWideSpace(a: byte, b: byte, c: byte) {
    || (a == 0xE1 && b == 0x9A && c == 0x80)
    || (a == 0xE2 && b == 0x80 && (0x80 <= c <= 0x8A || c == 0xA8 || c == 0xA9 || c == 0xAF))
    || (a == 0xE2 && b == 0x81 && c == 0x9F)
    || (a == 0xE3 && b == 0x80 && c == 0x80)
  }

  lemma SpaceIsChar(s: seq<byte>)
    requires SpaceLen(s) > 0
    ensures CharLen(s) == SpaceLen(s)
  {
  }

  /** Length of the white-space character `s` ends with, or 0 if there is none. */
  function LastSpaceLen(s: seq<byte>): (n: nat)
    ensures n <= |s| && (n > 0 ==> SpaceLen(s[|s| - n..]) == n)
  {
    if |s| >= 1 && SpaceLen(s[|s| - 1..]) == 1 then 1
    else if |s| >= 2 && SpaceLen(s[|s| - 2..]) == 2 then 2
    else if |s| >= 3 && SpaceLen(s[|s| - 3..]) == 3 then 3
    else 0
  }

  function TrimLeft(s: seq<byte>): (r: seq<byte>)
    ensures SpaceLen(r) == 0
    decreases |s|
  {
    if SpaceLen(s) > 0 then TrimLeft(s[SpaceLen(s)..]) else s
  }

  function TrimRight(s: seq<byte>): (r: seq<byte>)
    ensures LastSpaceLen(r) == 0 && r <= s
    decreases |s|
  {
    if LastSpaceLen(s) > 0 then TrimRight(s[..|s| - LastSpaceLen(s)]) else s
  }

  /** `strings.TrimSpace`, on bytes. */
  function TrimSpace(s: seq<byte>): seq<byte> {
    TrimRight(TrimLeft(s))
  }

  lemma {:induction false} TrimLeftValid(s: seq<byte>)
    requires Valid(s)
    ensures Valid(TrimLeft(s))
    decreases |s|
  {
    if SpaceLen(s) > 0 {
      SpaceIsChar(s);
      TrimLeftValid(s[SpaceLen(s)..]);
    }
  }

  lemma {:induction false} TrimRightValid(s: seq<byte>)
    requires Valid(s)
    ensures Valid(TrimRight(s))
    decreases |s|
  {
    var n := LastSpaceLen(s);
    if n > 0 {
      SpaceIsChar(s[|s| - n..]);
      assert s[|s| - n] == s[|s| - n..][0];
      ValidPrefix(s, |s| - n);
      TrimRightValid(s[..|s| - n]);
    }
  }

  /** Trimming does not break a character. */
  lemma TrimKeepsValid(s: seq<byte>)
    requires Valid(s)
    ensures Valid(TrimSpace(s))
  {
    TrimLeftValid(s);
    TrimRightValid(TrimLeft(s));
  }

  // ---- The whole of limitedReason ------------------------------------------

  const UNKNOWN_FAILURE: string := "unknown consumer failure"

  function Bytes(s: string): seq<byte>
    requires forall i :: 0 <= i < |s| ==> s[i] < '\U{80}'
  {
    seq(|s|, i requires 0 <= i < |s| => s[i] as int as byte)
  }

  /** The text of a failure: trimmed, repaired and cut at 4096 bytes. */
  function Reason(cause: seq<byte>): seq<byte> {
    Limited(Repaired(TrimSpace(cause), false), 4096)
  }

  /** `limitedReason`: always well formed and within the limit, and the longest such
      prefix of the text trimmed and repaired; a text that is well formed itself is
      only trimmed and cut. */
  method LimitedReason(error: Option<seq<byte>>) returns (r: seq<byte>)
    ensures error.None? ==> r == Bytes(UNKNOWN_FAILURE)
    ensures error.Some? ==> r == Reason(error.value) && Valid(r) && |r| <= 4096
    ensures error.Some? ==> LongestValidPrefix(Repaired(TrimSpace(error.value), false), 4096, r)
    ensures error.Some? && Valid(error.value) ==> r == Truncated(TrimSpace(error.value), 4096)
  {
    if error.None? {
      return Bytes(UNKNOWN_FAILURE);
    }
    var reason := TrimSpace(error.value);
    if Valid(error.value) {
      TrimKeepsValid(error.value);
    }
    RepairedValid(reason, false);
    RepairedChanges(reason);
    reason := Repaired(reason, false);
    r := LimitReason(reason, TEXT_LIMIT);
    CutsAgree(reason, TEXT_LIMIT);
  }

  /** The two cuts agree on every well-formed text. */
  lemma CutsAgree(s: seq<byte>, limit: nat)
    requires Valid(s)
    ensures Truncated(s, limit) == Limited(s, limit)
    ensures LongestValidPrefix(s, limit, Truncated(s, limit))
  {
    TruncatedLongest(s, limit);
    if limit < |s| {
      LimitedLongest(s, limit);
      var a, b := Truncated(s, limit), Limited(s, limit);
      assert a == s[..|a|] && b == s[..|b|];
    }
  }

  // ---- outbox MarkFailed ---------------------------------------------------

  /** `MarkFailed` keeps the first 4096 bytes as they are. */
  function RawCut(message: seq<byte>): seq<byte> {
    if |message| > TEXT_LIMIT then message[..TEXT_LIMIT] else message
  }

  /** A well-formed message stays well formed exactly when the limit does not
      fall inside a character. */
  lemma RawCutValid(message: seq<byte>)
    requires Valid(message)
    ensures Valid(RawCut(message)) <==> |message| <= TEXT_LIMIT || !Continuation(message[TEXT_LIMIT])
    ensures Valid(RawCut(message)) <==> RawCut(message) == Truncated(message, TEXT_LIMIT)
  {
    if |message| > TEXT_LIMIT {
      ValidPrefix(message, TEXT_LIMIT);
      TruncatedLongest(message, TEXT_LIMIT);
      var r := Truncated(message, TEXT_LIMIT);
      assert r == message[..|r|];
    }
  }

  lemma {:induction false} AsciiThen(n: nat, tail: seq<byte>)
    ensures Valid(seq(n, _ => 0x61) + tail) == Valid(tail)
  {
    var s := seq(n, _ => 0x61 as byte) + tail;
    if n == 0 {
      assert s == tail;
    } else {
      assert s[1..] == seq(n - 1, _ => 0x61 as byte) + tail;
      AsciiThen(n - 1, tail);
      assert CharLen(s) == 1;
    }
  }

  /** 4095 letters followed by a two-byte character: the stored text is broken. */
  lemma RawCutSplitsCharacter()
    ensures exists message :: Valid(message) && !Valid(RawCut(message))
  {
    var tail: seq<byte> := [0xC3, 0xA9];
    var message := seq(TEXT_LIMIT - 1, _ => 0x61 as byte) + tail;
    AsciiThen(TEXT_LIMIT - 1, tail);
    assert tail[2..] == [];
    assert Valid(tail);
    assert message[TEXT_LIMIT] == 0xA9;
    RawCutValid(message);
  }
}
