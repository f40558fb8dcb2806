/**
 Which field names carry credentials (redact/json.go): the name is trimmed,
 lowered, looked up in a table and then split into words. What Unicode calls a
 letter or digit outside ASCII is the parameter `others`.
 */
module SensitiveKeys {
  import opened Text

  type CharTest = char -> bool

  predicate WordChar(c: char, others: CharTest) {
    if c < '\U{80}' then 'a' <= c <= 'z' || 'A' <= c <= 'Z' || '0' <= c <= '9'
    else !IsSpace(c) && others(c)
  }

  /** The length of the run of word characters at the front. */
  function Run(s: string, others: CharTest): (n: nat)
    ensures n <= |s| && (forall i :: 0 <= i < n ==> WordChar(s[i], others))
    ensures n < |s| ==> !WordChar(s[n], others)
  {
    if s == [] || !WordChar(s[0], others) then 0 else 1 + Run(s[1..], others)
  }

  /** The maximal runs of word characters. */
  function Words(s: string, others: CharTest): seq<string>
    decreases |s|
  {
    if s == [] then []
    else if !WordChar(s[0], others) then Words(s[1..], others)
    else
      var n := Run(s, others);
      [s[..n]] + Words(s[n..], others)
  }

  const TABLE: set<string> :=
    {"authorization", "client_secret", "password", "refresh_token", "secret", "token", "access_token", "api_key", "psk"}

  const ALONE: set<string> :=
    {"password", "passwd", "secret", "token", "authorization", "cookie", "credential", "credentials", "psk"}

  const BEFORE_KEY: set<string> := {"api", "access", "private"}

  /** Some word is telling alone, or one that is telling before "key" comes there. */
  ghost predicate Tells(words: seq<string>, alone: set<string>, beforeKey: set<string>) {
    || (exists i :: 0 <= i < |words| && words[i] in alone)
    || (exists i :: 0 <= i < |words| - 1 && words[i] in beforeKey && words[i + 1] == "key")
  }

  ghost predicate Credential(words: seq<string>) {
    Tells(words, ALONE, BEFORE_KEY)
  }

  lemma {:induction false} RunOf(w: string, rest: string, others: CharTest)
    requires forall i :: 0 <= i < |w| ==> WordChar(w[i], others)
    requires rest != [] ==> !WordChar(rest[0], others)
    ensures Run(w + rest, others) == |w|
  {
    if w == [] {
      assert w + rest == rest;
    } else {
      assert (w + rest)[1..] == w[1..] + rest;
      RunOf(w[1..], rest, others);
    }
  }

  lemma WordThen(w: string, rest: string, others: CharTest)
    requires w != [] && forall i :: 0 <= i < |w| ==> WordChar(w[i], others)
    requires rest != [] ==> !WordChar(rest[0], others)
    ensures Words(w + rest, others) == [w] + Words(rest, others)
  {
    RunOf(w, rest, others);
    assert (w + rest)[..|w|] == w && (w + rest)[|w|..] == rest;
  }

  lemma {:induction false} TrailingIgnored(s: string, c: char, others: CharTest)
    requires !WordChar(c, others)
    ensures Words(s + [c], others) == Words(s, others)
    decreases |s|
  {
    if s == [] {
      assert s + [c] == [c];
    } else if !WordChar(s[0], others) {
      assert (s + [c])[1..] == s[1..] + [c];
      TrailingIgnored(s[1..], c, others);
    } else {
      var n := Run(s, others);
      var w, rest := s[..n], s[n..];
      assert s == w + rest && s + [c] == w + (rest + [c]);
      WordThen(w, rest, others);
      WordThen(w, rest + [c], others);
      TrailingIgnored(rest, c, others);
    }
  }

  lemma {:induction false} TrimLeftIgnored(s: string, lower: CharMap, others: CharTest)
    ensures Words(ToLower(TrimLeft(s), lower), others) == Words(ToLower(s, lower), others)
  {
    if s != [] && IsSpace(s[0]) {
      TrimLeftIgnored(s[1..], lower, others);
      assert ToLower(s, lower)[1..] == ToLower(s[1..], lower);
    }
  }

  lemma {:induction false} TrimRightIgnored(s: string, lower: CharMap, others: CharTest)
    ensures Words(ToLower(TrimRight(s), lower), others) == Words(ToLower(s, lower), others)
  {
    if s != [] && IsSpace(s[|s| - 1]) {
      var front, c := s[..|s| - 1], s[|s| - 1];
      TrimRightIgnored(front, lower, others);
      assert ToLower(s, lower) == ToLower(front, lower) + [c];
      TrailingIgnored(ToLower(front, lower), c, others);
    }
  }

  predicate LowerWord(s: string) {
    s != [] && forall i :: 0 <= i < |s| ==> 'a' <= s[i] <= 'z' || '0' <= s[i] <= '9'
  }

  /** An ASCII character that is neither letter nor digit. */
  predicate Separator(c: char) {
    c < '\U{80}' && !('a' <= c <= 'z') && !('A' <= c <= 'Z') && !('0' <= c <= '9')
  }

  /** The characters of words: in ASCII the letters and digits, beyond it what Unicode
      calls so. */
  lemma WordChars(c: char, others: CharTest)
    ensures c as int < 128 ==> (WordChar(c, others) <==> !Separator(c))
    ensures c as int < 128 ==>
              var n := c as int;
              (WordChar(c, others) <==> 48 <= n <= 57 || 65 <= n <= 90 || 97 <= n <= 122)
    ensures c as int >= 128 ==> (WordChar(c, others) <==> others(c) && !IsSpace(c))
  {
  }

  /** Any such character separates words. */
  lemma Separated(a: string, sep: char, b: string, others: CharTest)
    requires LowerWord(a) && LowerWord(b) && Separator(sep)
    ensures Words(a + [sep] + b, others) == [a, b]
  {
    assert a + [sep] + b == a + ([sep] + b);
    WordThen(a, [sep] + b, others);
    assert ([sep] + b)[1..] == b;
    assert b + [] == b;
    WordThen(b, [], others);
  }

  /** Neither the case of ASCII letters nor the separator matters: a name made of two
      words in any case reads as those words. */
  lemma NameReads(x: string, sep: char, y: string, a: string, b: string, lower: CharMap, others: CharTest)
    requires LowerWord(a) && LowerWord(b) && CaseOf(x, a) && CaseOf(y, b) && Separator(sep)
    ensures Words(ToLower(x + [sep] + y, lower), others) == [a, b]
  {
    LowerOfCase(x, a, lower);
    LowerOfCase(y, b, lower);
    assert ToLower(x + [sep] + y, lower) == a + [sep] + b;
    Separated(a, sep, b, others);
  }

  lemma Compound(a: string, b: string, others: CharTest)
    requires LowerWord(a) && LowerWord(b)
    ensures Words(a + "_" + b, others) == [a, b]
  {
    Separated(a, '_', b, others);
  }

  lemma SplitsInto(w: string, others: CharTest)
    requires w != [] && forall i :: 0 <= i < |w| ==> WordChar(w[i], others)
    ensures Words(w, others) == [w]
  {
    assert w + [] == w;
    WordThen(w, [], others);
  }

  lemma OneTells(w: string, alone: set<string>, beforeKey: set<string>)
    ensures Tells([w], alone, beforeKey) <==> w in alone
  {
    assert [w][0] == w;
  }

  /** A name of one word is sensitive only as that whole word, never for a part of
      it. */
  lemma OneWord(w: string, others: CharTest)
    requires w != [] && forall i :: 0 <= i < |w| ==> WordChar(w[i], others)
    ensures Credential(Words(w, others)) <==> w in ALONE
  {
    SplitsInto(w, others);
    OneTells(w, ALONE, BEFORE_KEY);
  }

  predicate Lowercase(s: string) {
    s != [] && forall i :: 0 <= i < |s| ==> 'a' <= s[i] <= 'z'
  }

  ghost predicate Pair(name: string, a: string, b: string, alone: set<string>, beforeKey: set<string>) {
    && name == a + "_" + b && Lowercase(a) && Lowercase(b)
    && (b in alone || (a in beforeKey && b == "key"))
  }

  lemma TwoTell(a: string, b: string, alone: set<string>, beforeKey: set<string>)
    requires b in alone || (a in beforeKey && b == "key")
    ensures Tells([a, b], alone, beforeKey)
  {
    assert [a, b][0] == a && [a, b][1] == b;
  }

  lemma PairTells(name: string, a: string, b: string, alone: set<string>, beforeKey: set<string>, others: CharTest)
    requires Pair(name, a, b, alone, beforeKey)
    ensures Tells(Words(name, others), alone, beforeKey)
  {
    Compound(a, b, others);
    TwoTell(a, b, alone, beforeKey);
  }

  lemma PairsInTable()
    ensures Pair("client_secret", "client", "secret", ALONE, BEFORE_KEY)
    ensures Pair("refresh_token", "refresh", "token", ALONE, BEFORE_KEY)
    ensures Pair("access_token", "access", "token", ALONE, BEFORE_KEY)
    ensures Pair("api_key", "api", "key", ALONE, BEFORE_KEY)
  {
  }

  ghost predicate Made(name: string, alone: set<string>, beforeKey: set<string>) {
    (Lowercase(name) && name in alone) || exists a, b :: Pair(name, a, b, alone, beforeKey)
  }

  lemma MadeTells(name: string, alone: set<string>, beforeKey: set<string>, others: CharTest)
    requires Made(name, alone, beforeKey)
    ensures Tells(Words(name, others), alone, beforeKey)
  {
    if Lowercase(name) && name in alone {
      SplitsInto(name, others);
      OneTells(name, alone, beforeKey);
    } else {
      var a, b :| Pair(name, a, b, alone, beforeKey);
      PairTells(name, a, b, alone, beforeKey, others);
    }
  }

  lemma AllMade(name: string)
    requires name in TABLE
    ensures Made(name, ALONE, BEFORE_KEY)
  {
    PairsInTable();
  }

  /** Every name in the table is found by its words as well. */
  lemma TableIsRedundant(name: string, others: CharTest)
    requires name in TABLE
    ensures Credential(Words(name, others))
  {
    AllMade(name);
    MadeTells(name, ALONE, BEFORE_KEY, others);
  }

  /** The words of the lowered name decide: trimming and the table change nothing. */
  method SensitiveKey(key: string, lower: CharMap, others: CharTest) returns (sensitive: bool)
    ensures sensitive <==> Credential(Words(ToLower(key, lower), others))
  {
    var normalized := ToLower(TrimSpace(key), lower);
    TrimLeftIgnored(key, lower, others);
    TrimRightIgnored(TrimLeft(key), lower, others);
    if normalized in TABLE {
      TableIsRedundant(normalized, others);
      return true;
    }
    var parts := Words(normalized, others);
    for i := 0 to |parts|
      invariant forall j :: 0 <= j < i ==> parts[j] !in ALONE
    {
      if parts[i] in ALONE {
        return true;
      }
    }
    var index := 0;
    while index + 1 < |parts|
      invariant forall j :: 0 <= j < index && j + 1 < |parts| ==> !(parts[j] in BEFORE_KEY && parts[j + 1] == "key")
    {
      if parts[index + 1] == "key" && parts[index] in BEFORE_KEY {
        return true;
      }
      index := index + 1;
    }
    return false;
  }

  // ---- Known names ---------------------------------------------------------

  /** Words that make a name sensitive wherever they stand in it. */
  lemma TellingWords(words: seq<string>, i: nat)
    requires i < |words|
    requires words[i] in ["password", "passwd", "secret", "token", "authorization", "cookie", "credential",
                          "credentials", "psk"]
    ensures Credential(words)
  {
  }

  /** The word "key" does after "api", "access" or "private". */
  lemma TellingKeys(words: seq<string>, i: nat)
    requires i + 1 < |words| && words[i + 1] == "key"
    ensures words[i] == "api" || words[i] == "access" || words[i] == "private" ==> Credential(words)
  {
  }

  /** Words that only contain such a word do not. */
  lemma HarmlessNames()
    ensures !Credential(["monkey"]) && !Credential(["tokenized", "at"]) && !Credential(["accessibility", "key"])
  {
    OneTells("monkey", ALONE, BEFORE_KEY);
    NoneTells("tokenized", "at", ALONE, BEFORE_KEY);
    NoneTells("accessibility", "key", ALONE, BEFORE_KEY);
  }

  lemma NoneTells(a: string, b: string, alone: set<string>, beforeKey: set<string>)
    requires a !in alone && b !in alone && a !in beforeKey
    ensures !Tells([a, b], alone, beforeKey)
  {
    assert [a, b][0] == a && [a, b][1] == b;
  }
}
