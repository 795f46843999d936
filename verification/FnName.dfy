/**
 call_graph.go: findFnNameRecursive, the search for "fn_name" in decoded arguments.
 */
module FnName {
  import Text
  import Ordering

  /** A decoded ScVal: what ConvertScValToJSON returns. */
  datatype Json =
    | Text(s: string)
    | Scalar(n: int)
    | Object(fields: map<string, Json>)
    | Array(items: seq<Json>)

  const FN_NAME := "fn_name"

  const STRING_LEQ: (string, string) -> bool := (a, b) => Text.Leq(a, b)

  lemma StringLeqIsTotal()
    ensures Ordering.TotalOrder(STRING_LEQ)
  {
    forall a, b ensures STRING_LEQ(a, b) || STRING_LEQ(b, a) {
      Text.LeqTotal(a, b);
    }
    forall a, b | STRING_LEQ(a, b) && STRING_LEQ(b, a) ensures a == b {
      Text.LeqAntisymmetric(a, b);
    }
    forall a, b, c | STRING_LEQ(a, b) && STRING_LEQ(b, c) ensures STRING_LEQ(a, c) {
      Text.LeqTransitive(a, b, c);
    }
  }

  /** A map's keys in Go's string order. */
  ghost function SortedKeysOf<V>(m: map<string, V>): (keys: seq<string>)
    ensures forall k :: k in keys <==> k in m
    ensures forall i, j | 0 <= i < j < |keys| :: keys[i] != keys[j]
  {
    StringLeqIsTotal();
    var keys := Ordering.Ascending(STRING_LEQ, m.Keys);
    assert forall k :: k in keys <==> k in Ordering.Elements(keys);
    keys
  }

  /** The keys of an object in the order the search visits them. */
  ghost function SortedKeys(fields: map<string, Json>): (keys: seq<string>)
    ensures forall k :: k in keys <==> k in fields
  {
    SortedKeysOf(fields)
  }

  /** An object binds fn_name to a non-empty string. */
  predicate Binds(v: Json, name: string) {
    v.Object? && "fn_name" in v.fields && v.fields["fn_name"] == Json.Text(name) && name != ""
  }

  /** Every name the structure binds, an object before its fields, fields in key order. */
  ghost function Names(v: Json): seq<string>
    decreases v, 1
  {
    match v
    case Object(fields) =>
      (if FN_NAME in fields && fields[FN_NAME].Text? && fields[FN_NAME].s != ""
       then [fields[FN_NAME].s] else []) +
      FieldNames(v, SortedKeys(fields))
    case Array(items) => ItemNames(v, 0)
    case _ => []
  }

  ghost function FieldNames(v: Json, keys: seq<string>): seq<string>
    requires v.Object? && forall k | k in keys :: k in v.fields
    decreases v, 0, |keys|
  {
    if keys == [] then [] else Names(v.fields[keys[0]]) + FieldNames(v, keys[1..])
  }

  ghost function ItemNames(v: Json, i: nat): seq<string>
    requires v.Array? && i <= |v.items|
    decreases v, 0, |v.items| - i
  {
    if i == |v.items| then [] else Names(v.items[i]) + ItemNames(v, i + 1)
  }

  ghost function First(names: seq<string>): string {
    if names == [] then "" else names[0]
  }

  /** `w` is `v` or sits anywhere inside it. */
  ghost predicate Within(w: Json, v: Json)
    decreases v
  {
    || w == v
    || (v.Object? && exists k | k in v.fields :: Within(w, v.fields[k]))
    || (v.Array? && exists i | 0 <= i < |v.items| :: Within(w, v.items[i]))
  }

  lemma {:induction false} FieldNamesMembers(v: Json, keys: seq<string>, name: string)
    requires v.Object? && forall k | k in keys :: k in v.fields
    ensures name in FieldNames(v, keys) <==> exists k :: k in keys && name in Names(v.fields[k])
  {
    if keys != [] {
      FieldNamesMembers(v, keys[1..], name);
      assert forall k :: k in keys <==> k == keys[0] || k in keys[1..];
    }
  }

  lemma {:induction false} ItemNamesMembers(v: Json, i: nat, name: string)
    requires v.Array? && i <= |v.items|
    ensures name in ItemNames(v, i) <==> exists j :: i <= j < |v.items| && name in Names(v.items[j])
    decreases |v.items| - i
  {
    if i < |v.items| {
      ItemNamesMembers(v, i + 1, name);
    }
  }

  /** The names listed are exactly those bound by some object anywhere in the structure. */
  lemma {:induction false} NamesAreBindings(v: Json, name: string)
    ensures name in Names(v) <==> exists w :: Within(w, v) && Binds(w, name)
    decreases v
  {
    match v
    case Object(fields) =>
      FieldNamesMembers(v, SortedKeys(fields), name);
      forall k | k in fields
        ensures name in Names(fields[k]) <==> exists w :: Within(w, fields[k]) && Binds(w, name)
      {
        NamesAreBindings(fields[k], name);
      }
      if Binds(v, name) {
        assert Within(v, v);
      }
    case Array(items) =>
      ItemNamesMembers(v, 0, name);
      forall i | 0 <= i < |items|
        ensures name in Names(items[i]) <==> exists w :: Within(w, items[i]) && Binds(w, name)
      {
        NamesAreBindings(items[i], name);
      }
    case _ =>
  }

  lemma {:induction false} NamesAreNonEmpty(v: Json)
    ensures "" !in Names(v)
  {
    NamesAreBindings(v, "");
  }

  /** The answer of the search; a function of the structure, so independent of map iteration. */
  ghost function Find(v: Json): string {
    First(Names(v))
  }

  /** A name is found exactly when some object anywhere binds fn_name to a non-empty string. */
  lemma FindsIffBound(v: Json)
    ensures Find(v) != "" <==> exists w, name :: Within(w, v) && Binds(w, name)
    ensures Find(v) != "" ==> exists w :: Within(w, v) && Binds(w, Find(v))
  {
    NamesAreNonEmpty(v);
    if Names(v) != [] {
      NamesAreBindings(v, Names(v)[0]);
    }
    forall w, name | Within(w, v) && Binds(w, name) ensures Names(v) != [] {
      NamesAreBindings(v, name);
    }
  }

  /** Keys strictly before one another in Go's string order. */
  ghost predicate KeyBefore(a: string, b: string) {
    Text.Leq(a, b) && a != b
  }

  lemma SortedKeysAscend<V>(m: map<string, V>, i: nat, j: nat)
    requires i < j < |SortedKeysOf(m)|
    ensures KeyBefore(SortedKeysOf(m)[i], SortedKeysOf(m)[j])
  {
    StringLeqIsTotal();
    assert STRING_LEQ(SortedKeysOf(m)[i], SortedKeysOf(m)[j]);
  }

  /** The first key at which the search finds something. */
  lemma {:induction false} FirstField(v: Json, keys: seq<string>) returns (i: nat)
    requires v.Object? && (forall k | k in keys :: k in v.fields) && First(FieldNames(v, keys)) != ""
    ensures i < |keys| && Find(v.fields[keys[i]]) == First(FieldNames(v, keys))
    ensures forall j | 0 <= j < i :: Find(v.fields[keys[j]]) == ""
  {
    NamesAreNonEmpty(v.fields[keys[0]]);
    FirstOfConcat(Names(v.fields[keys[0]]), FieldNames(v, keys[1..]));
    if Find(v.fields[keys[0]]) != "" {
      return 0;
    }
    var k := FirstField(v, keys[1..]);
    i := k + 1;
    forall j | 0 <= j < i ensures Find(v.fields[keys[j]]) == "" {
      assert j > 0 ==> keys[j] == keys[1..][j - 1];
    }
  }

  lemma {:induction false} FirstItem(v: Json, from: nat) returns (i: nat)
    requires v.Array? && from <= |v.items| && First(ItemNames(v, from)) != ""
    ensures from <= i < |v.items| && Find(v.items[i]) == First(ItemNames(v, from))
    ensures forall j | from <= j < i :: Find(v.items[j]) == ""
    decreases |v.items| - from
  {
    NamesAreNonEmpty(v.items[from]);
    FirstOfConcat(Names(v.items[from]), ItemNames(v, from + 1));
    if Find(v.items[from]) != "" {
      return from;
    }
    i := FirstItem(v, from + 1);
  }

  /**
   Which name is found: an object's own binding; else what its least key with an answer gives;
   an array's first item with one.
   */
  lemma FindsFirst(v: Json)
    ensures forall name :: Binds(v, name) ==> Find(v) == name
    ensures v.Object? && (forall name :: !Binds(v, name)) && Find(v) != "" ==>
              exists k :: k in v.fields && Find(v.fields[k]) == Find(v) &&
                          forall k' | k' in v.fields && KeyBefore(k', k) :: Find(v.fields[k']) == ""
    ensures v.Array? && Find(v) != "" ==>
              exists i :: 0 <= i < |v.items| && Find(v.items[i]) == Find(v) && forall j | 0 <= j < i :: Find(v.items[j]) == ""
  {
    if v.Object? && Find(v) != "" && forall name :: !Binds(v, name) {
      assert !(FN_NAME in v.fields && v.fields[FN_NAME].Text? && v.fields[FN_NAME].s != "") by {
        if FN_NAME in v.fields && v.fields[FN_NAME].Text? {
          assert Binds(v, v.fields[FN_NAME].s) || v.fields[FN_NAME].s == "";
        }
      }
      var keys := SortedKeys(v.fields);
      assert Names(v) == [] + FieldNames(v, keys) == FieldNames(v, keys);
      var i := FirstField(v, keys);
      forall k | k in v.fields && KeyBefore(k, keys[i]) ensures Find(v.fields[k]) == "" {
        assert k in keys;
        var j :| 0 <= j < |keys| && keys[j] == k;
        if j > i {
          SortedKeysAscend(v.fields, i, j);
          Text.LeqAntisymmetric(keys[i], keys[j]);
        }
      }
    }
    if v.Array? && Find(v) != "" {
      var i := FirstItem(v, 0);
    }
  }

  lemma FirstOfConcat(a: seq<string>, b: seq<string>)
    ensures "" !in a ==> First(a + b) == if First(a) != "" then First(a) else First(b)
  {
    if a == [] {
      assert a + b == b;
    }
  }

  /** findFnNameRecursive. */
  method FindFnNameRecursive(v: Json) returns (found: string)
    ensures found == Find(v)
    decreases v, 1
  {
    match v {
      case Object(fields) =>
        if FN_NAME in fields && fields[FN_NAME].Text? && fields[FN_NAME].s != "" {
          return fields[FN_NAME].s;
        }
        found := FindInFields(v);
      case Array(items) =>
        found := FindInItems(v);
      case _ =>
        found := "";
    }
  }

  method FindInFields(v: Json) returns (found: string)
    requires v.Object?
    ensures found == First(FieldNames(v, SortedKeys(v.fields)))
    decreases v, 0
  {
    StringLeqIsTotal();
    var keys := Ordering.SortedSetKeys(STRING_LEQ, v.fields.Keys);
    ghost var all := SortedKeys(v.fields);
    assert keys[0..] == all;
    for i := 0 to |keys|
      invariant First(FieldNames(v, all)) == First(FieldNames(v, keys[i..]))
    {
      assert keys[i..][0] == keys[i] && keys[i..][1..] == keys[i + 1..];
      assert keys[i] in all;
      var sub := v.fields[keys[i]];
      NamesAreNonEmpty(sub);
      FirstOfConcat(Names(sub), FieldNames(v, keys[i + 1..]));
      found := FindFnNameRecursive(sub);
      if found != "" {
        return;
      }
    }
    found := "";
  }

  method FindInItems(v: Json) returns (found: string)
    requires v.Array?
    ensures found == First(ItemNames(v, 0))
    decreases v, 0
  {
    for i := 0 to |v.items|
      invariant First(ItemNames(v, 0)) == First(ItemNames(v, i))
    {
      NamesAreNonEmpty(v.items[i]);
      FirstOfConcat(Names(v.items[i]), ItemNames(v, i + 1));
      found := FindFnNameRecursive(v.items[i]);
      if found != "" {
        return;
      }
    }
    found := "";
  }
}
