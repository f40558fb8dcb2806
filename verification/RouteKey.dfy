/**
 Canonical route keys (routepolicy/route.go) as the identifier generator accepts
 them (stableid/stableid.go). The model stops at the key that is hashed.
 */
module RouteKey {
  import opened Common
  import opened Text

  datatype Route = Route(
    key: string, protocol: string, method_: string, path: string, serviceName: string, sourceVersion: string)

  /** What a key stands for. */
  datatype Identity = Identity(service: string, protocol: string, method_: string, segments: seq<string>)

  predicate Alnum(c: char) {
    'a' <= c <= 'z' || '0' <= c <= '9'
  }

  predicate NameChar(c: char) {
    Alnum(c) || c == '_' || c == '.' || c == '-'
  }

  /** The pattern of a route segment. */
  predicate Name(s: string) {
    s != [] && forall i :: 0 <= i < |s| ==> NameChar(s[i])
  }

  /** The pattern of one part of a canonical key. */
  predicate KeyPart(s: string) {
    Name(s) && Alnum(s[0])
  }

  predicate KeyPartsOnly(parts: seq<string>) {
    forall i :: 0 <= i < |parts| ==> KeyPart(parts[i])
  }

  /** The pattern of a canonical key: two or more parts joined by colons, the first
      of which starts with a letter. */
  predicate Canonical(key: string) {
    var parts := Split(key, ':');
    |parts| >= 2 && KeyPartsOnly(parts) && 'a' <= parts[0][0] <= 'z'
  }

  predicate NeedsEscape(s: string) {
    HasPrefix(s, ".") || HasPrefix(s, "x-")
  }

  function Escape(s: string): string {
    if NeedsEscape(s) then "x-" + s else s
  }

  function Unescape(s: string): string {
    TrimPrefix(s, "x-")
  }

  function EscapeAll(segments: seq<string>): seq<string> {
    seq(|segments|, i requires 0 <= i < |segments| => Escape(segments[i]))
  }

  function UnescapeAll(segments: seq<string>): seq<string> {
    seq(|segments|, i requires 0 <= i < |segments| => Unescape(segments[i]))
  }

  const ROOT: string := "route"

  function KeyUnder(root: string, id: Identity): string {
    Join([root] + ([id.service] + ([id.protocol] + ([id.method_] + EscapeAll(id.segments)))), ':')
  }

  function Key(id: Identity): string {
    KeyUnder(ROOT, id)
  }

  /** The parts of a key after the protocol. */
  function Tail(id: Identity): seq<string> {
    Split(id.method_, ':') + EscapeAll(id.segments)
  }

  // ---- Undoing the key -----------------------------------------------------

  lemma EscapeUndone(s: string)
    ensures Unescape(Escape(s)) == s
  {
    if NeedsEscape(s) {
      assert ("x-" + s)[2..] == s;
    }
  }

  lemma EscapeAllUndone(segments: seq<string>)
    ensures UnescapeAll(EscapeAll(segments)) == segments
  {
    forall i | 0 <= i < |segments| ensures Unescape(Escape(segments[i])) == segments[i] {
      EscapeUndone(segments[i]);
    }
  }

  ghost predicate NoColon(s: string) {
    ':' !in s
  }

  ghost predicate AllNoColon(parts: seq<string>) {
    forall i :: 0 <= i < |parts| ==> NoColon(parts[i])
  }

  /** The parts of a key besides its method hold no colon; the code ensures it. */
  ghost predicate Plain(id: Identity) {
    NoColon(id.service) && NoColon(id.protocol) && AllNoColon(id.segments) && id.segments != []
  }

  lemma EscapeNoColon(segments: seq<string>)
    requires AllNoColon(segments)
    ensures AllNoColon(EscapeAll(segments))
  {
    forall i | 0 <= i < |segments| ensures NoColon(EscapeAll(segments)[i]) {
      assert NoColon(segments[i]);
    }
  }

  lemma SplitCons(part: string, rest: seq<string>)
    requires rest != []
    ensures Split(Join([part] + rest, ':'), ':') == Split(part, ':') + Split(Join(rest, ':'), ':')
    ensures NoColon(part) ==> Split(Join([part] + rest, ':'), ':') == [part] + Split(Join(rest, ':'), ':')
  {
    assert ([part] + rest)[1..] == rest;
    SplitAtSep(part, Join(rest, ':'), ':');
    if NoColon(part) {
      SplitWithoutSep(part, ':');
    }
  }

  /** Splitting a key gives its parts, the method's own colons apart. */
  lemma KeyParts(root: string, id: Identity)
    requires NoColon(root) && Plain(id)
    ensures Split(KeyUnder(root, id), ':') == [root] + ([id.service] + ([id.protocol] + Tail(id)))
  {
    var segments := EscapeAll(id.segments);
    var third := [id.method_] + segments;
    var second := [id.protocol] + third;
    SplitCons(root, [id.service] + second);
    SplitCons(id.service, second);
    SplitCons(id.protocol, third);
    SplitCons(id.method_, segments);
    EscapeNoColon(id.segments);
    assert forall i :: 0 <= i < |segments| ==> NoColon(segments[i]);
    SplitJoin(segments, ':');
  }

  lemma SameCons(x: string, y: string, xs: seq<string>, ys: seq<string>)
    ensures [x] + xs == [y] + ys <==> x == y && xs == ys
  {
    if [x] + xs == [y] + ys {
      assert ([x] + xs)[0] == x && ([y] + ys)[0] == y;
      assert ([x] + xs)[1..] == xs && ([y] + ys)[1..] == ys;
    }
  }

  /** For all accepted routes: keys are equal exactly when service, protocol and the
      list of method parts and escaped segments are. */
  lemma SameKeyIffSameParts(root: string, a: Identity, b: Identity)
    requires NoColon(root) && Plain(a) && Plain(b)
    ensures KeyUnder(root, a) == KeyUnder(root, b) <==>
            a.service == b.service && a.protocol == b.protocol && Tail(a) == Tail(b)
  {
    KeyParts(root, a);
    KeyParts(root, b);
    JoinSplit(KeyUnder(root, a), ':');
    JoinSplit(KeyUnder(root, b), ':');
    SameCons(root, root, [a.service] + ([a.protocol] + Tail(a)), [b.service] + ([b.protocol] + Tail(b)));
    SameCons(a.service, b.service, [a.protocol] + Tail(a), [b.protocol] + Tail(b));
    SameCons(a.protocol, b.protocol, Tail(a), Tail(b));
  }

  /** The identity a key stands for, if its method holds no colon. */
  function Decode(key: string): Option<Identity> {
    var parts := Split(key, ':');
    if |parts| < 5 then None
    else Some(Identity(parts[1], parts[2], parts[3], UnescapeAll(parts[4..])))
  }

  lemma DecodeKey(root: string, id: Identity)
    requires NoColon(root) && Plain(id) && NoColon(id.method_)
    ensures Decode(KeyUnder(root, id)) == Some(id)
  {
    KeyParts(root, id);
    SplitWithoutSep(id.method_, ':');
    EscapeAllUndone(id.segments);
    var parts := Split(KeyUnder(root, id), ':');
    assert parts == [root, id.service, id.protocol, id.method_] + EscapeAll(id.segments);
    assert parts[4..] == EscapeAll(id.segments);
  }

  /** Without colons in methods a key stands for one identity only. */
  lemma KeyIsInjective(root: string, a: Identity, b: Identity)
    requires NoColon(root) && Plain(a) && Plain(b) && NoColon(a.method_) && NoColon(b.method_)
    ensures KeyUnder(root, a) == KeyUnder(root, b) <==> a == b
  {
    DecodeKey(root, a);
    DecodeKey(root, b);
  }

  // ---- Acceptance ----------------------------------------------------------

  function TrimSlashes(s: string): string {
    if s != [] && s[0] == '/' then TrimSlashes(s[1..])
    else if s != [] && s[|s| - 1] == '/' then TrimSlashes(s[..|s| - 1])
    else s
  }

  /** A path segment without its parameter or wildcard mark, in lower case. */
  function Segment(part: string, lower: CharMap): string {
    ToLower(TrimPrefix(TrimPrefix(part, ":"), "*"), lower)
  }

  function Segments(path: string, lower: CharMap): (segments: seq<string>)
    ensures segments != []
  {
    var parts := Split(TrimSlashes(path), '/');
    seq(|parts|, i requires 0 <= i < |parts| => Segment(parts[i], lower))
  }

  /** What the code reads from its arguments. */
  function Read(protocol: string, method_: string, path: string, service: string, lower: CharMap): Identity {
    Identity(
      ToLower(TrimSpace(service), lower), ToLower(TrimSpace(protocol), lower),
      ToLower(TrimSpace(method_), lower), Segments(TrimSpace(path), lower))
  }

  /** A segment that is a part of a key once it is escaped. */
  predicate SegmentPart(s: string) {
    Name(s) && (Alnum(s[0]) || s[0] == '.')
  }

  predicate Protocol(s: string) {
    s == "http" || s == "grpc"
  }

  predicate WellFormed(id: Identity) {
    && KeyPart(id.protocol) && KeyPart(id.service) && id.segments != []
    && KeyPartsOnly(Split(id.method_, ':'))
    && (forall i :: 0 <= i < |id.segments| ==> SegmentPart(id.segments[i]))
  }

  /** Which identities make a route, said without the key. */
  predicate Acceptable(id: Identity) {
    Protocol(id.protocol) && WellFormed(id)
  }

  lemma NameNoColon(s: string)
    requires Name(s)
    ensures NoColon(s)
  {
  }

  lemma EscapedIsKeyPart(s: string)
    requires Name(s)
    ensures KeyPart(Escape(s)) <==> SegmentPart(s)
  {
    assert s[0] == '.' <==> "." <= s;
    if NeedsEscape(s) {
      assert Escape(s)[0] == 'x' && Escape(s)[1] == '-';
      assert forall i :: 2 <= i < |Escape(s)| ==> Escape(s)[i] == s[i - 2];
      assert s[0] == '.' || s[0] == 'x';
    }
  }

  /** The names the code has checked before it makes a key. */
  ghost predicate Checked(id: Identity) {
    && KeyPart(id.protocol) && Name(id.service)
    && id.segments != [] && forall i :: 0 <= i < |id.segments| ==> Name(id.segments[i])
  }

  lemma CheckedIsPlain(id: Identity)
    requires Checked(id)
    ensures Plain(id)
  {
    NameNoColon(id.service);
    NameNoColon(id.protocol);
    forall i | 0 <= i < |id.segments| ensures NoColon(id.segments[i]) {
      NameNoColon(id.segments[i]);
    }
  }

  lemma PartsAppended(a: seq<string>, b: seq<string>)
    ensures KeyPartsOnly(a + b) <==> KeyPartsOnly(a) && KeyPartsOnly(b)
  {
    assert forall i :: 0 <= i < |a| ==> (a + b)[i] == a[i];
    assert forall i :: 0 <= i < |b| ==> (a + b)[|a| + i] == b[i];
  }

  lemma PartPrepended(x: string, b: seq<string>)
    ensures KeyPartsOnly([x] + b) <==> KeyPart(x) && KeyPartsOnly(b)
  {
    PartsAppended([x], b);
    assert [x][0] == x;
  }

  ghost predicate Root(root: string) {
    KeyPart(root) && 'a' <= root[0] <= 'z'
  }

  /** The key is canonical exactly when the identity is well formed. */
  lemma CanonicalIffWellFormed(root: string, id: Identity)
    requires Root(root) && Checked(id)
    ensures Canonical(KeyUnder(root, id)) <==> WellFormed(id)
  {
    CheckedIsPlain(id);
    NameNoColon(root);
    KeyParts(root, id);
    PartPrepended(root, [id.service] + ([id.protocol] + Tail(id)));
    PartPrepended(id.service, [id.protocol] + Tail(id));
    PartPrepended(id.protocol, Tail(id));
    PartsAppended(Split(id.method_, ':'), EscapeAll(id.segments));
    SegmentsEscaped(id.segments);
    assert Split(KeyUnder(root, id), ':')[0] == root;
  }

  lemma SegmentsEscaped(segments: seq<string>)
    requires forall i :: 0 <= i < |segments| ==> Name(segments[i])
    ensures KeyPartsOnly(EscapeAll(segments)) <==>
            (forall i :: 0 <= i < |segments| ==> SegmentPart(segments[i]))
  {
    forall i | 0 <= i < |segments| ensures KeyPart(EscapeAll(segments)[i]) <==> SegmentPart(segments[i]) {
      EscapedIsKeyPart(segments[i]);
    }
  }

  predicate KeyChar(c: char) {
    NameChar(c) || c == ':'
  }

  lemma {:induction false} JoinedChars(parts: seq<string>)
    requires parts != [] && forall i :: 0 <= i < |parts| ==> Name(parts[i])
    ensures forall c :: c in Join(parts, ':') ==> KeyChar(c)
  {
    if |parts| > 1 {
      JoinedChars(parts[1..]);
    }
  }

  /** A canonical key is trimmed and in lower case already. */
  lemma CanonicalIsNormal(key: string, lower: CharMap)
    requires Canonical(key)
    ensures TrimSpace(key) == key && ToLower(key, lower) == key
  {
    JoinSplit(key, ':');
    JoinedChars(Split(key, ':'));
    NoSpaceTrimmed(key);
    forall i | 0 <= i < |key| ensures LowerChar(key[i], lower) == key[i] {
      assert key[i] in key;
    }
  }

  /** The generator's checks of a key before it is hashed: the pattern alone decides. */
  method AcceptsKey(key: string, lower: CharMap) returns (accepted: bool)
    ensures accepted <==> Canonical(key)
  {
    if Canonical(key) {
      CanonicalIsNormal(key, lower);
    }
    accepted := key == TrimSpace(key) && key == ToLower(key, lower) && Canonical(key);
  }

  lemma Regroup(a: string, b: string, c: string, d: string, rest: seq<string>)
    ensures [a, b, c, d] + rest == [a] + ([b] + ([c] + ([d] + rest)))
  {
  }

  lemma Literals()
    ensures Root(ROOT) && NoColon(ROOT)
  {
  }

  lemma ProtocolIsKeyPart(s: string)
    requires Protocol(s)
    ensures KeyPart(s)
  {
  }

  /** An empty path or method is refused by the patterns alone. */
  lemma EmptyRefused(id: Identity, path: string, lower: CharMap)
    requires id.segments == Segments(path, lower)
    ensures path == "" ==> !WellFormed(id)
    ensures id.method_ == "" ==> !WellFormed(id)
  {
    assert id.method_ == "" ==> Split(id.method_, ':')[0] == "";
    assert path == "" ==> id.segments[0] == "";
  }

  /** The loop over the path: the escaped segments, or nothing if one is not a name. */
  method CollectSegments(start: seq<string>, parts: seq<string>, ghost wanted: seq<string>, lower: CharMap)
    returns (segments: Option<seq<string>>)
    requires |wanted| == |parts| && forall i :: 0 <= i < |parts| ==> wanted[i] == Segment(parts[i], lower)
    ensures segments.Some? <==> forall i :: 0 <= i < |wanted| ==> Name(wanted[i])
    ensures segments.Some? ==> segments.value == start + EscapeAll(wanted)
  {
    var collected := start;
    for i := 0 to |parts|
      invariant forall j :: 0 <= j < i ==> Name(wanted[j])
      invariant collected == start + EscapeAll(wanted[..i])
    {
      var segment := ToLower(TrimPrefix(TrimPrefix(parts[i], ":"), "*"), lower);
      assert wanted[i] == segment && wanted[..i + 1] == wanted[..i] + [segment];
      assert EscapeAll(wanted[..i + 1]) == EscapeAll(wanted[..i]) + [Escape(segment)];
      if segment == "" || !Name(segment) {
        return None;
      }
      if HasPrefix(segment, ".") || HasPrefix(segment, "x-") {
        segment := "x-" + segment;
      }
      collected := collected + [segment];
    }
    assert wanted[..|parts|] == wanted;
    return Some(collected);
  }

  /** A route is made exactly from the acceptable identities, under the key of the
      identity. */
  method NewRoute(
    protocol: string, method_: string, path: string, service: string, sourceVersion: string, lower: CharMap)
    returns (route: Option<Route>)
    ensures var id := Read(protocol, method_, path, service, lower);
            && (route.Some? <==> Acceptable(id))
            && (route.Some? ==> route.value ==
                                Route(Key(id), id.protocol, id.method_, TrimSpace(path), id.service, sourceVersion))
  {
    ghost var id := Read(protocol, method_, path, service, lower);
    var protocol', method' := ToLower(TrimSpace(protocol), lower), ToLower(TrimSpace(method_), lower);
    var path', service' := TrimSpace(path), ToLower(TrimSpace(service), lower);
    EmptyRefused(id, path', lower);
    Literals();
    if !Protocol(protocol') || method' == "" || path' == "" || service' == "" || !Name(service') {
      return None;
    }
    ProtocolIsKeyPart(protocol');
    var start := [ROOT, service', protocol', method'];
    var segments := CollectSegments(start, Split(TrimSlashes(path'), '/'), id.segments, lower);
    if segments.None? {
      return None;
    }
    Regroup(ROOT, service', protocol', method', EscapeAll(id.segments));
    var key := Join(segments.value, ':');
    CanonicalIffWellFormed(ROOT, id);
    var accepted := AcceptsKey(key, lower);
    if !accepted {
      return None;
    }
    return Some(Route(key, protocol', method', path', service', sourceVersion));
  }

  lemma AcceptableIsPlain(id: Identity)
    requires WellFormed(id)
    ensures Plain(id)
  {
    CheckedIsPlain(id);
  }

  /** Two routes that the code accepts have the same key exactly when they have the
      same service, protocol, method and segments, if no method holds a colon. */
  lemma RoutesApart(a: Identity, b: Identity)
    requires Acceptable(a) && Acceptable(b) && NoColon(a.method_) && NoColon(b.method_)
    ensures Key(a) == Key(b) <==> a == b
  {
    AcceptableIsPlain(a);
    AcceptableIsPlain(b);
    Literals();
    KeyIsInjective(ROOT, a, b);
  }

  /** The route whose method has taken over the first segment. */
  function TakenOver(b: Identity): Identity
    requires b.segments != []
  {
    b.(method_ := b.method_ + [':'] + Escape(b.segments[0]), segments := b.segments[1..])
  }

  /** With colons in methods they need not: every acceptable route of two or more
      segments shares its key with the one whose method has taken over the first. */
  lemma ColonCollides(b: Identity)
    requires Acceptable(b) && |b.segments| >= 2
    ensures Acceptable(TakenOver(b)) && TakenOver(b) != b && Key(TakenOver(b)) == Key(b)
  {
    var a, part := TakenOver(b), Escape(b.segments[0]);
    EscapedIsKeyPart(b.segments[0]);
    NameNoColon(part);
    SplitAtSep(b.method_, part, ':');
    SplitWithoutSep(part, ':');
    PartsAppended(Split(b.method_, ':'), [part]);
    assert EscapeAll(b.segments) == [part] + EscapeAll(a.segments);
    assert Tail(a) == Tail(b);
    AcceptableIsPlain(a);
    AcceptableIsPlain(b);
    Literals();
    SameKeyIffSameParts(ROOT, a, b);
  }

  /** For one, "get:b" on path "c" and "get" on path "b/c" in service "a". */
  lemma ExampleCollides()
    ensures Acceptable(Identity("a", "http", "get", ["b", "c"]))
    ensures Key(Identity("a", "http", "get:b", ["c"])) == Key(Identity("a", "http", "get", ["b", "c"]))
  {
    var b := Identity("a", "http", "get", ["b", "c"]);
    SplitWithoutSep("get", ':');
    assert KeyPart("get") && KeyPart("a") && KeyPart("http");
    ColonCollides(b);
    assert b.segments[1..] == ["c"] && "get" + [':'] + "b" == "get:b";
  }

  // ---- What paths read as --------------------------------------------------

  /** The characters of a name. */
  lemma NameChars(c: char)
    ensures NameChar(c) <==> c in "abcdefghijklmnopqrstuvwxyz0123456789_.-"
  {
  }

  predicate IsMark(mark: string) {
    mark == "" || mark == ":" || mark == "*" || mark == ":*"
  }

  lemma CaseOfName(word: string, name: string)
    requires CaseOf(word, name) && Name(name)
    ensures word != [] && forall i :: 0 <= i < |word| ==> word[i] != ':' && word[i] != '*' && word[i] != '/'
  {
    forall i | 0 <= i < |word| ensures word[i] != ':' && word[i] != '*' && word[i] != '/' {
      assert CharCaseOf(word[i], name[i]) && NameChar(name[i]);
    }
  }

  lemma PrefixTakenOff(c: char, s: string)
    ensures TrimPrefix([c] + s, [c]) == s
  {
    assert ([c] + s)[1..] == s;
  }

  lemma PrefixMissing(c: char, s: string)
    requires s != [] && s[0] != c
    ensures TrimPrefix(s, [c]) == s
  {
    assert [c][0] == c;
  }

  lemma MarkTakenOff(mark: string, word: string)
    requires IsMark(mark) && word != [] && word[0] != ':' && word[0] != '*'
    ensures TrimPrefix(TrimPrefix(mark + word, [':']), ['*']) == word
  {
    PrefixMissing(':', word);
    PrefixMissing('*', word);
    PrefixTakenOff(':', word);
    PrefixTakenOff('*', word);
    PrefixTakenOff(':', ['*'] + word);
    PrefixMissing(':', ['*'] + word);
    if |mark| == 0 {
      assert mark + word == word;
    } else if |mark| == 1 {
      assert mark + word == [mark[0]] + word;
    } else {
      assert mark + word == [':'] + (['*'] + word);
    }
  }

  /** A parameter or wildcard mark and the case of ASCII letters do not matter. */
  lemma SegmentReads(mark: string, word: string, name: string, lower: CharMap)
    requires IsMark(mark) && CaseOf(word, name) && Name(name)
    ensures Segment(mark + word, lower) == name
  {
    CaseOfName(word, name);
    MarkTakenOff(mark, word);
    LowerOfCase(word, name, lower);
  }

  function Slashes(n: nat): string {
    seq(n, _ => '/')
  }

  lemma {:induction false} TrimSlashesTakesOff(a: nat, s: string, b: nat)
    requires s != [] && s[0] != '/' && s[|s| - 1] != '/'
    ensures TrimSlashes(Slashes(a) + s + Slashes(b)) == s
    decreases a + b
  {
    var whole := Slashes(a) + s + Slashes(b);
    if a > 0 {
      assert whole[0] == '/' && whole[1..] == Slashes(a - 1) + s + Slashes(b);
      TrimSlashesTakesOff(a - 1, s, b);
    } else if b > 0 {
      assert whole[0] == s[0] && whole[|whole| - 1] == '/';
      assert whole[..|whole| - 1] == Slashes(a) + s + Slashes(b - 1);
      TrimSlashesTakesOff(a, s, b - 1);
    } else {
      assert whole == s;
    }
  }

  lemma {:induction false} JoinEnds(parts: seq<string>, sep: char)
    requires parts != [] && forall i :: 0 <= i < |parts| ==> parts[i] != []
    ensures var s := Join(parts, sep); var last := parts[|parts| - 1];
            s != [] && s[0] == parts[0][0] && s[|s| - 1] == last[|last| - 1]
  {
    if |parts| > 1 {
      JoinEnds(parts[1..], sep);
      assert parts[1..][|parts| - 2] == parts[|parts| - 1];
    }
  }

  /** Parts without slashes come back from a path of them. */
  lemma PartsFromPath(a: nat, parts: seq<string>, b: nat)
    requires parts != [] && forall i :: 0 <= i < |parts| ==> parts[i] != [] && '/' !in parts[i]
    ensures Split(TrimSlashes(Slashes(a) + Join(parts, '/') + Slashes(b)), '/') == parts
  {
    JoinEnds(parts, '/');
    SplitJoin(parts, '/');
    var first, last := parts[0], parts[|parts| - 1];
    assert first[0] in first && last[|last| - 1] in last;
    TrimSlashesTakesOff(a, Join(parts, '/'), b);
  }

  /** A path of names, each with or without a mark and in any case, between any number
      of slashes, reads as those names. */
  lemma PathReads(a: nat, marks: seq<string>, words: seq<string>, names: seq<string>, b: nat, lower: CharMap)
    requires names != [] && |marks| == |words| == |names|
    requires forall i :: 0 <= i < |names| ==> IsMark(marks[i]) && CaseOf(words[i], names[i]) && Name(names[i])
    ensures var parts := seq(|names|, i requires 0 <= i < |names| => marks[i] + words[i]);
            Segments(Slashes(a) + Join(parts, '/') + Slashes(b), lower) == names
  {
    var parts := seq(|names|, i requires 0 <= i < |names| => marks[i] + words[i]);
    forall i | 0 <= i < |names|
      ensures parts[i] != [] && '/' !in parts[i] && Segment(parts[i], lower) == names[i]
    {
      CaseOfName(words[i], names[i]);
      SegmentReads(marks[i], words[i], names[i], lower);
    }
    PartsFromPath(a, parts, b);
  }

  /** The pattern takes keys of two parts, but not of one. */
  lemma TwoPartsSuffice(a: string, b: string)
    requires KeyPart(a) && 'a' <= a[0] <= 'z' && KeyPart(b)
    ensures Canonical(a + [':'] + b) && !Canonical(a)
  {
    NameNoColon(a);
    NameNoColon(b);
    SplitAtSep(a, b, ':');
    SplitWithoutSep(a, ':');
    SplitWithoutSep(b, ':');
  }

  /** A key starts with "route" and the separator. */
  lemma KeyStarts(id: Identity)
    ensures "route:" <= Key(id)
  {
    var rest := [id.service] + ([id.protocol] + ([id.method_] + EscapeAll(id.segments)));
    assert ([ROOT] + rest)[1..] == rest;
    assert Key(id) == ROOT + [':'] + Join(rest, ':');
  }
}
