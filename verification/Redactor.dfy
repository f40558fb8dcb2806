/**
 Redaction in place (redact/json.go): decoded objects are maps on the heap that
 `redactValue` overwrites entry by entry, in whatever order each is iterated.
 Decoded arrays are never written, so they are values here.
 */
module Redactor {
  import opened Redact

  class MapObject {
    var entries: map<string, Value>

    constructor (entries: map<string, Value>)
      ensures this.entries == entries
    {
      this.entries := entries;
    }
  }

  datatype Value = Plain(scalar: Scalar) | List(elements: seq<Value>) | Ref(target: MapObject)

  /** The contents of some objects at one moment. */
  type Store = map<MapObject, map<string, Value>>

  ghost function Now(objects: set<MapObject>): Store
    reads objects
  {
    map o | o in objects :: o.entries
  }

  /** The value, read through the store, is the tree j. */
  ghost predicate Represents(v: Value, j: Json, store: Store)
    decreases j
  {
    match j
    case Atom(scalar) => v == Plain(scalar)
    case Arr(items) =>
      && v.List? && |v.elements| == |items|
      && forall i :: 0 <= i < |items| ==> Represents(v.elements[i], items[i], store)
    case Obj(fields) =>
      && v.Ref? && v.target in store && store[v.target].Keys == fields.Keys
      && forall k :: k in fields ==> Represents(store[v.target][k], fields[k], store)
  }

  /** The value is no larger than j: what is left after any masking of a value that
      represented j. It bounds the recursion. */
  ghost predicate Within(v: Value, j: Json, store: Store)
    decreases j
  {
    match v
    case Plain(_) => true
    case List(elements) =>
      && j.Arr? && |elements| == |j.items|
      && forall i :: 0 <= i < |elements| ==> Within(elements[i], j.items[i], store)
    case Ref(target) =>
      && j.Obj? && target in store && store[target].Keys == j.fields.Keys
      && forall k :: k in j.fields ==> Within(store[target][k], j.fields[k], store)
  }

  lemma {:induction false} RepresentsWithin(v: Value, j: Json, store: Store)
    requires Represents(v, j, store)
    ensures Within(v, j, store)
    decreases j
  {
    match j
    case Atom(_) =>
    case Arr(items) =>
      forall i | 0 <= i < |items| ensures Within(v.elements[i], items[i], store) {
        RepresentsWithin(v.elements[i], items[i], store);
      }
    case Obj(fields) =>
      forall k | k in fields ensures Within(store[v.target][k], fields[k], store) {
        RepresentsWithin(store[v.target][k], fields[k], store);
      }
  }

  /** Nothing sensitive is left under v, as deep as j goes. */
  ghost predicate Clean(v: Value, j: Json, store: Store, sensitive: KeyTest)
    requires Within(v, j, store)
    decreases j
  {
    match v
    case Plain(_) => true
    case List(elements) => forall i :: 0 <= i < |elements| ==> Clean(elements[i], j.items[i], store, sensitive)
    case Ref(target) =>
      forall k :: k in j.fields ==>
                    if sensitive(k) then store[target][k] == Plain(MASK)
                    else Clean(store[target][k], j.fields[k], store, sensitive)
  }

  /** From one moment to a later one entries were only masked, and only sensitive ones. */
  ghost predicate OnlyMasked(earlier: Store, later: Store, sensitive: KeyTest) {
    && earlier.Keys == later.Keys
    && forall o :: o in earlier ==> EntriesMasked(earlier[o], later[o], sensitive)
  }

  ghost predicate EntriesMasked(earlier: map<string, Value>, later: map<string, Value>, sensitive: KeyTest) {
    && earlier.Keys == later.Keys
    && forall k :: k in earlier ==> later[k] == earlier[k] || (sensitive(k) && later[k] == Plain(MASK))
  }

  lemma MaskedInTurn(a: Store, b: Store, c: Store, sensitive: KeyTest)
    requires OnlyMasked(a, b, sensitive) && OnlyMasked(b, c, sensitive)
    ensures OnlyMasked(a, c, sensitive)
  {
    forall o | o in a ensures EntriesMasked(a[o], c[o], sensitive) {
      assert EntriesMasked(a[o], b[o], sensitive) && EntriesMasked(b[o], c[o], sensitive);
    }
  }

  lemma {:induction false} WithinStays(v: Value, j: Json, earlier: Store, later: Store, sensitive: KeyTest)
    requires OnlyMasked(earlier, later, sensitive) && Within(v, j, earlier)
    ensures Within(v, j, later)
    decreases j
  {
    match v
    case Plain(_) =>
    case List(elements) =>
      forall i | 0 <= i < |elements| ensures Within(elements[i], j.items[i], later) {
        WithinStays(elements[i], j.items[i], earlier, later, sensitive);
      }
    case Ref(target) =>
      assert EntriesMasked(earlier[target], later[target], sensitive);
      forall k | k in j.fields ensures Within(later[target][k], j.fields[k], later) {
        WithinStays(earlier[target][k], j.fields[k], earlier, later, sensitive);
      }
  }

  lemma {:induction false} CleanStays(v: Value, j: Json, earlier: Store, later: Store, sensitive: KeyTest)
    requires OnlyMasked(earlier, later, sensitive)
    requires Within(v, j, earlier) && Clean(v, j, earlier, sensitive)
    ensures Within(v, j, later) && Clean(v, j, later, sensitive)
    decreases j
  {
    WithinStays(v, j, earlier, later, sensitive);
    match v
    case Plain(_) =>
    case List(elements) =>
      forall i | 0 <= i < |elements| ensures Clean(elements[i], j.items[i], later, sensitive) {
        CleanStays(elements[i], j.items[i], earlier, later, sensitive);
      }
    case Ref(target) =>
      assert EntriesMasked(earlier[target], later[target], sensitive);
      forall k | k in j.fields && !sensitive(k) ensures Clean(later[target][k], j.fields[k], later, sensitive) {
        CleanStays(earlier[target][k], j.fields[k], earlier, later, sensitive);
      }
  }

  /** A value that represented j and is clean after masking represents j redacted,
      even where objects are shared. */
  lemma {:induction false} CleanRepresentsRedacted(
    v: Value, j: Json, earlier: Store, later: Store, sensitive: KeyTest)
    requires OnlyMasked(earlier, later, sensitive) && Represents(v, j, earlier)
    requires Within(v, j, later) && Clean(v, j, later, sensitive)
    ensures Represents(v, Redacted(j, sensitive), later)
    decreases j
  {
    match j
    case Atom(_) =>
    case Arr(items) =>
      forall i | 0 <= i < |items| ensures Represents(v.elements[i], Redacted(items[i], sensitive), later) {
        CleanRepresentsRedacted(v.elements[i], items[i], earlier, later, sensitive);
      }
    case Obj(fields) =>
      var after := Redacted(j, sensitive).fields;
      assert after.Keys == fields.Keys;
      assert EntriesMasked(earlier[v.target], later[v.target], sensitive);
      forall k | k in after ensures Represents(later[v.target][k], after[k], later) {
        if !sensitive(k) {
          CleanRepresentsRedacted(earlier[v.target][k], fields[k], earlier, later, sensitive);
        }
      }
  }

  /** Masks every sensitive entry under the value and changes nothing else. */
  method RedactValue(v: Value, ghost j: Json, ghost objects: set<MapObject>, sensitive: KeyTest)
    requires Within(v, j, Now(objects))
    modifies objects
    ensures OnlyMasked(old(Now(objects)), Now(objects), sensitive)
    ensures Within(v, j, Now(objects)) && Clean(v, j, Now(objects), sensitive)
    decreases j
  {
    match v
    case Plain(_) =>
    case List(_) =>
      RedactElements(v, j, objects, sensitive);
    case Ref(target) =>
      RedactEntries(target, j, objects, sensitive);
  }

  method RedactElements(v: Value, ghost j: Json, ghost objects: set<MapObject>, sensitive: KeyTest)
    requires v.List? && Within(v, j, Now(objects))
    modifies objects
    ensures OnlyMasked(old(Now(objects)), Now(objects), sensitive)
    ensures Within(v, j, Now(objects)) && Clean(v, j, Now(objects), sensitive)
    decreases j, 0
  {
    for n := 0 to |v.elements|
      invariant OnlyMasked(old(Now(objects)), Now(objects), sensitive)
      invariant Within(v, j, Now(objects))
      invariant forall i :: 0 <= i < n ==> Clean(v.elements[i], j.items[i], Now(objects), sensitive)
    {
      ghost var before := Now(objects);
      RedactValue(v.elements[n], j.items[n], objects, sensitive);
      ghost var after := Now(objects);
      MaskedInTurn(old(Now(objects)), before, after, sensitive);
      WithinStays(v, j, before, after, sensitive);
      forall i | 0 <= i < n ensures Clean(v.elements[i], j.items[i], after, sensitive) {
        CleanStays(v.elements[i], j.items[i], before, after, sensitive);
      }
    }
  }

  method RedactEntries(target: MapObject, ghost j: Json, ghost objects: set<MapObject>, sensitive: KeyTest)
    requires Within(Ref(target), j, Now(objects))
    modifies objects
    ensures OnlyMasked(old(Now(objects)), Now(objects), sensitive)
    ensures Within(Ref(target), j, Now(objects)) && Clean(Ref(target), j, Now(objects), sensitive)
    decreases j, 1
  {
    var rest := target.entries.Keys;
    while rest != {}
      invariant rest <= j.fields.Keys
      invariant OnlyMasked(old(Now(objects)), Now(objects), sensitive)
      invariant Within(Ref(target), j, Now(objects))
      invariant CleanExcept(target, j, Now(objects), sensitive, rest)
      decreases rest
    {
      var key :| key in rest;
      ghost var before := Now(objects);
      RedactEntry(target, key, j, objects, sensitive);
      MaskedInTurn(old(Now(objects)), before, Now(objects), sensitive);
      CleanExceptStays(target, j, before, Now(objects), sensitive, rest, key);
      rest := rest - {key};
    }
  }

  /** One pass of the loop: a sensitive entry is masked, another is entered. */
  method RedactEntry(
    target: MapObject, key: string, ghost j: Json, ghost objects: set<MapObject>, sensitive: KeyTest)
    requires Within(Ref(target), j, Now(objects)) && key in j.fields
    modifies objects
    ensures OnlyMasked(old(Now(objects)), Now(objects), sensitive)
    ensures EntryClean(target, key, j, Now(objects), sensitive)
    decreases j, 0
  {
    if sensitive(key) {
      target.entries := target.entries[key := Plain(MASK)];
    } else {
      ghost var before := Now(objects);
      var child := target.entries[key];
      RedactValue(child, j.fields[key], objects, sensitive);
      assert EntriesMasked(before[target], Now(objects)[target], sensitive);
    }
  }

  ghost predicate EntryClean(target: MapObject, key: string, j: Json, store: Store, sensitive: KeyTest)
    requires j.Obj? && key in j.fields
  {
    && target in store && key in store[target]
    && if sensitive(key) then store[target][key] == Plain(MASK)
       else
         && Within(store[target][key], j.fields[key], store)
         && Clean(store[target][key], j.fields[key], store, sensitive)
  }

  /** The entries of an object that its loop has left behind are clean. */
  ghost predicate CleanExcept(target: MapObject, j: Json, store: Store, sensitive: KeyTest, rest: set<string>)
    requires Within(Ref(target), j, store)
  {
    forall k :: k in j.fields && k !in rest ==>
                  if sensitive(k) then store[target][k] == Plain(MASK)
                  else Clean(store[target][k], j.fields[k], store, sensitive)
  }

  lemma CleanExceptStays(
    target: MapObject, j: Json, before: Store, after: Store, sensitive: KeyTest, rest: set<string>, key: string)
    requires OnlyMasked(before, after, sensitive) && Within(Ref(target), j, before)
    requires CleanExcept(target, j, before, sensitive, rest)
    requires key in rest && rest <= j.fields.Keys
    requires EntryClean(target, key, j, after, sensitive)
    ensures Within(Ref(target), j, after) && CleanExcept(target, j, after, sensitive, rest - {key})
  {
    WithinStays(Ref(target), j, before, after, sensitive);
    assert EntriesMasked(before[target], after[target], sensitive);
    forall k | k in j.fields && k !in rest && !sensitive(k)
      ensures Clean(after[target][k], j.fields[k], after, sensitive)
    {
      CleanStays(before[target][k], j.fields[k], before, after, sensitive);
    }
  }

  /** Redaction in place is redaction of the tree. */
  method RedactInPlace(v: Value, ghost j: Json, ghost objects: set<MapObject>, sensitive: KeyTest)
    requires Represents(v, j, Now(objects))
    modifies objects
    ensures Represents(v, Redacted(j, sensitive), Now(objects))
    ensures OnlyMasked(old(Now(objects)), Now(objects), sensitive)
  {
    RepresentsWithin(v, j, Now(objects));
    RedactValue(v, j, objects, sensitive);
    CleanRepresentsRedacted(v, j, old(Now(objects)), Now(objects), sensitive);
  }

  /** Whether the tree contains a sensitive key. */
  method ContainsSensitive(v: Value, ghost j: Json, ghost objects: set<MapObject>, sensitive: KeyTest)
    returns (found: bool)
    requires Represents(v, j, Now(objects))
    ensures found <==> Contains(j, sensitive)
    decreases j
  {
    match v
    case Plain(_) =>
      found := false;
    case List(elements) =>
      for n := 0 to |elements|
        invariant forall i :: 0 <= i < n ==> !Contains(j.items[i], sensitive)
      {
        var inside := ContainsSensitive(elements[n], j.items[n], objects, sensitive);
        if inside {
          return true;
        }
      }
      found := false;
    case Ref(target) =>
      var rest := target.entries.Keys;
      while rest != {}
        invariant rest <= j.fields.Keys
        invariant forall k :: k in j.fields && k !in rest ==> !sensitive(k) && !Contains(j.fields[k], sensitive)
        decreases rest
      {
        var key :| key in rest;
        if sensitive(key) {
          return true;
        }
        var inside := ContainsSensitive(target.entries[key], j.fields[key], objects, sensitive);
        if inside {
          return true;
        }
        rest := rest - {key};
      }
      found := false;
  }
}
