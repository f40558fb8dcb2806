/**
 Redaction of decoded JSON (redact/json.go). The test for sensitive keys is a
 parameter here; the one the code uses is in SensitiveKeys.
 */
module Redact {
  import opened Common

  datatype Scalar = Null | Bool(b: bool) | Number(literal: string) | Text(text: string)

  datatype Json = Atom(scalar: Scalar) | Arr(items: seq<Json>) | Obj(fields: map<string, Json>)

  const MASK: Scalar := Text("[REDACTED]")

  type KeyTest = string -> bool

  function Redacted(j: Json, sensitive: KeyTest): Json {
    match j
    case Atom(_) => j
    case Arr(items) => Arr(seq(|items|, i requires 0 <= i < |items| => Redacted(items[i], sensitive)))
    case Obj(fields) => Obj(map k | k in fields :: if sensitive(k) then Atom(MASK) else Redacted(fields[k], sensitive))
  }

  predicate Contains(j: Json, sensitive: KeyTest) {
    match j
    case Atom(_) => false
    case Arr(items) => exists i :: 0 <= i < |items| && Contains(items[i], sensitive)
    case Obj(fields) => exists k :: k in fields && (sensitive(k) || Contains(fields[k], sensitive))
  }

  // ---- What can be seen along a path ---------------------------------------

  datatype Step = Key(key: string) | Index(index: nat)

  datatype Sight = Leaf(scalar: Scalar) | Length(length: nat) | Keys(keys: set<string>)

  function Top(j: Json): Sight {
    match j
    case Atom(scalar) => Leaf(scalar)
    case Arr(items) => Length(|items|)
    case Obj(fields) => Keys(fields.Keys)
  }

  function Child(j: Json, step: Step): Option<Json> {
    match step
    case Key(k) => if j.Obj? && k in j.fields then Some(j.fields[k]) else None
    case Index(i) => if j.Arr? && i < |j.items| then Some(j.items[i]) else None
  }

  /** What stands at the end of a path: a scalar, the length of an array or the
      keys of an object; nothing if the path leaves the tree. */
  function See(j: Json, path: seq<Step>): Option<Sight> {
    if path == [] then Some(Top(j))
    else
      var child := Child(j, path[0]);
      if child.None? then None else See(child.value, path[1..])
  }

  predicate Visible(path: seq<Step>, sensitive: KeyTest) {
    forall i :: 0 <= i < |path| && path[i].Key? ==> !sensitive(path[i].key)
  }

  /** The trees look the same except beneath sensitive keys. */
  ghost predicate Agree(a: Json, b: Json, sensitive: KeyTest) {
    forall path :: Visible(path, sensitive) ==> See(a, path) == See(b, path)
  }

  /** Redaction changes nothing that is visible. */
  lemma {:induction false} VisibleKept(j: Json, path: seq<Step>, sensitive: KeyTest)
    requires Visible(path, sensitive)
    ensures See(Redacted(j, sensitive), path) == See(j, path)
    decreases |path|
  {
    if path == [] {
      if j.Obj? {
        assert Redacted(j, sensitive).fields.Keys == j.fields.Keys;
      }
    } else {
      var child := Child(j, path[0]);
      if child.Some? {
        VisibleKept(child.value, path[1..], sensitive);
      }
    }
  }

  /** At a sensitive key there is only the mask, and nothing beneath it. */
  lemma {:induction false} HiddenMasked(j: Json, path: seq<Step>, k: string, rest: seq<Step>, sensitive: KeyTest)
    requires Visible(path, sensitive) && sensitive(k)
    ensures See(Redacted(j, sensitive), path + [Key(k)] + rest) ==
            if See(j, path + [Key(k)]).Some? && rest == [] then Some(Leaf(Text("[REDACTED]"))) else None
    decreases |path|
  {
    if path == [] {
      assert path + [Key(k)] + rest == [Key(k)] + rest;
      assert path + [Key(k)] == [Key(k)];
      if rest != [] {
        assert Child(Atom(MASK), rest[0]) == None;
      }
    } else {
      assert (path + [Key(k)] + rest)[1..] == path[1..] + [Key(k)] + rest;
      assert (path + [Key(k)])[1..] == path[1..] + [Key(k)];
      var child := Child(j, path[0]);
      if child.Some? {
        HiddenMasked(child.value, path[1..], k, rest, sensitive);
      }
    }
  }

  lemma AgreeBelow(a: Json, b: Json, step: Step, sensitive: KeyTest)
    requires Agree(a, b, sensitive) && Visible([step], sensitive)
    requires Child(a, step).Some? && Child(b, step).Some?
    ensures Agree(Child(a, step).value, Child(b, step).value, sensitive)
  {
    forall path | Visible(path, sensitive)
      ensures See(Child(a, step).value, path) == See(Child(b, step).value, path)
    {
      var longer := [step] + path;
      assert longer[1..] == path;
      assert forall i :: 1 <= i < |longer| ==> longer[i] == path[i - 1];
      assert [step][0] == step && Visible(longer, sensitive);
      assert See(a, longer) == See(b, longer);
    }
  }

  lemma {:induction false} AgreeRedactsSame(a: Json, b: Json, sensitive: KeyTest)
    requires Agree(a, b, sensitive)
    ensures Redacted(a, sensitive) == Redacted(b, sensitive)
    decreases a
  {
    assert Visible([], sensitive) && See(a, []) == See(b, []);
    assert Top(a) == Top(b);
    match a
    case Atom(_) =>
    case Arr(items) =>
      forall i | 0 <= i < |items| ensures Redacted(items[i], sensitive) == Redacted(b.items[i], sensitive) {
        AgreeBelow(a, b, Index(i), sensitive);
        AgreeRedactsSame(items[i], b.items[i], sensitive);
      }
    case Obj(fields) =>
      assert b.Obj? && fields.Keys == b.fields.Keys;
      forall k | k in fields && !sensitive(k)
        ensures k in b.fields && Redacted(fields[k], sensitive) == Redacted(b.fields[k], sensitive)
      {
        assert k in b.fields.Keys;
        AgreeBelow(a, b, Key(k), sensitive);
        AgreeRedactsSame(fields[k], b.fields[k], sensitive);
      }
      assert Redacted(a, sensitive).fields == Redacted(b, sensitive).fields;
  }

  /** Redaction forgets exactly what lies beneath sensitive keys. */
  lemma SameIffAgree(a: Json, b: Json, sensitive: KeyTest)
    ensures Redacted(a, sensitive) == Redacted(b, sensitive) <==> Agree(a, b, sensitive)
  {
    if Redacted(a, sensitive) == Redacted(b, sensitive) {
      forall path | Visible(path, sensitive) ensures See(a, path) == See(b, path) {
        VisibleKept(a, path, sensitive);
        VisibleKept(b, path, sensitive);
      }
    } else if Agree(a, b, sensitive) {
      AgreeRedactsSame(a, b, sensitive);
    }
  }

  lemma {:induction false} Idempotent(j: Json, sensitive: KeyTest)
    ensures Redacted(Redacted(j, sensitive), sensitive) == Redacted(j, sensitive)
  {
    forall path | Visible(path, sensitive) ensures See(Redacted(j, sensitive), path) == See(j, path) {
      VisibleKept(j, path, sensitive);
    }
    SameIffAgree(Redacted(j, sensitive), j, sensitive);
  }

  // ---- Sensitive keys anywhere ---------------------------------------------

  ghost predicate SensitiveAt(j: Json, path: seq<Step>, k: string, sensitive: KeyTest) {
    && Visible(path, sensitive) && sensitive(k)
    && See(j, path).Some? && See(j, path).value.Keys? && k in See(j, path).value.keys
  }

  lemma VisibleStep(step: Step, path: seq<Step>, sensitive: KeyTest)
    requires Visible(path, sensitive) && (step.Key? ==> !sensitive(step.key))
    ensures Visible([step] + path, sensitive) && ([step] + path)[1..] == path
  {
    assert forall i :: 1 <= i < |path| + 1 ==> ([step] + path)[i] == path[i - 1];
  }

  lemma {:induction false} ContainedAt(j: Json, sensitive: KeyTest) returns (path: seq<Step>, k: string)
    requires Contains(j, sensitive)
    ensures SensitiveAt(j, path, k, sensitive)
    decreases j
  {
    if j.Arr? {
      var i :| 0 <= i < |j.items| && Contains(j.items[i], sensitive);
      path, k := ContainedAt(j.items[i], sensitive);
      VisibleStep(Index(i), path, sensitive);
      path := [Index(i)] + path;
    } else {
      k :| k in j.fields && (sensitive(k) || Contains(j.fields[k], sensitive));
      if sensitive(k) {
        path := [];
      } else {
        var first := k;
        path, k := ContainedAt(j.fields[first], sensitive);
        VisibleStep(Key(first), path, sensitive);
        path := [Key(first)] + path;
      }
    }
  }

  lemma {:induction false} AtContained(j: Json, path: seq<Step>, k: string, sensitive: KeyTest)
    requires SensitiveAt(j, path, k, sensitive)
    ensures Contains(j, sensitive)
    decreases |path|
  {
    if path == [] {
      assert j.Obj? && k in j.fields;
    } else {
      AtContained(Child(j, path[0]).value, path[1..], k, sensitive);
    }
  }

  /** The test says whether some object that can be seen has a sensitive key. */
  lemma ContainsIffSeen(j: Json, sensitive: KeyTest)
    ensures Contains(j, sensitive) <==> exists path, k :: SensitiveAt(j, path, k, sensitive)
  {
    if Contains(j, sensitive) {
      var path, k := ContainedAt(j, sensitive);
    }
    forall path, k | SensitiveAt(j, path, k, sensitive) ensures Contains(j, sensitive) {
      AtContained(j, path, k, sensitive);
    }
  }

  /** Every sensitive key that can be seen already holds the mask. */
  ghost predicate Masked(j: Json, sensitive: KeyTest) {
    forall path, k :: SensitiveAt(j, path, k, sensitive) ==> See(j, path + [Key(k)]) == Some(Leaf(MASK))
  }

  lemma MaskedBelow(j: Json, step: Step, sensitive: KeyTest)
    requires Masked(j, sensitive) && Child(j, step).Some? && (step.Key? ==> !sensitive(step.key))
    ensures Masked(Child(j, step).value, sensitive)
  {
    var child := Child(j, step).value;
    forall path, k | SensitiveAt(child, path, k, sensitive) ensures See(child, path + [Key(k)]) == Some(Leaf(MASK)) {
      VisibleStep(step, path, sensitive);
      assert SensitiveAt(j, [step] + path, k, sensitive);
      assert ([step] + path + [Key(k)])[1..] == path + [Key(k)];
    }
  }

  lemma MaskedField(j: Json, k: string, sensitive: KeyTest)
    requires Masked(j, sensitive) && j.Obj? && k in j.fields && sensitive(k)
    ensures j.fields[k] == Atom(MASK)
  {
    assert SensitiveAt(j, [], k, sensitive);
    assert [] + [Key(k)] == [Key(k)];
    assert See(j, [Key(k)]) == Some(Top(j.fields[k]));
  }

  lemma {:induction false} MaskedUnchanged(j: Json, sensitive: KeyTest)
    requires Masked(j, sensitive)
    ensures Redacted(j, sensitive) == j
    decreases j
  {
    match j
    case Atom(_) =>
    case Arr(items) =>
      forall i | 0 <= i < |items| ensures Redacted(items[i], sensitive) == items[i] {
        MaskedBelow(j, Index(i), sensitive);
        MaskedUnchanged(items[i], sensitive);
      }
    case Obj(fields) =>
      forall k | k in fields
        ensures fields[k] == if sensitive(k) then Atom(MASK) else Redacted(fields[k], sensitive)
      {
        if sensitive(k) {
          MaskedField(j, k, sensitive);
        } else {
          MaskedBelow(j, Key(k), sensitive);
          MaskedUnchanged(fields[k], sensitive);
        }
      }
      assert Redacted(j, sensitive).fields == fields;
  }

  /** Redaction leaves a tree as it is exactly when it is masked already; in
      particular when it contains no sensitive key. */
  lemma UnchangedIffMasked(j: Json, sensitive: KeyTest)
    ensures Redacted(j, sensitive) == j <==> Masked(j, sensitive)
    ensures !Contains(j, sensitive) ==> Redacted(j, sensitive) == j
  {
    if Redacted(j, sensitive) == j {
      forall path, k | SensitiveAt(j, path, k, sensitive) ensures See(j, path + [Key(k)]) == Some(Leaf(MASK)) {
        SeeInto(j, path, k);
        HiddenMasked(j, path, k, [], sensitive);
        assert path + [Key(k)] + [] == path + [Key(k)];
      }
    }
    if Masked(j, sensitive) {
      MaskedUnchanged(j, sensitive);
    }
    ContainsIffSeen(j, sensitive);
    if !Contains(j, sensitive) {
      MaskedUnchanged(j, sensitive);
    }
  }

  lemma {:induction false} SeeInto(j: Json, path: seq<Step>, k: string)
    requires See(j, path).Some? && See(j, path).value.Keys? && k in See(j, path).value.keys
    ensures See(j, path + [Key(k)]).Some?
    decreases |path|
  {
    if path == [] {
      assert path + [Key(k)] == [Key(k)];
    } else {
      assert (path + [Key(k)])[1..] == path[1..] + [Key(k)];
      SeeInto(Child(j, path[0]).value, path[1..], k);
    }
  }

  /** The keys themselves stay, so the test answers the same after redaction. */
  lemma ContainsAfter(j: Json, sensitive: KeyTest)
    ensures Contains(Redacted(j, sensitive), sensitive) <==> Contains(j, sensitive)
  {
    ContainsIffSeen(j, sensitive);
    ContainsIffSeen(Redacted(j, sensitive), sensitive);
    forall path, k ensures SensitiveAt(Redacted(j, sensitive), path, k, sensitive) <==>
        SensitiveAt(j, path, k, sensitive) {
      if Visible(path, sensitive) {
        VisibleKept(j, path, sensitive);
      }
    }
  }
}
