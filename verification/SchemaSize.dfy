/** The size of an inferred schema does not depend on the size of the example. */
module SchemaSize {
  import opened Text
  import opened Json
  import opened Inference
  import opened Acceptance

  /** Schema nodes of a document: itself, its properties, items and variants. */
  ghost function Nodes(schema: Json): nat
    decreases schema
  {
    if !schema.Obj? then 0
    else
      var m := schema.fields;
      1
      + (if "properties" in m && m["properties"].Obj? then
           FieldNodes(m["properties"], Sorted(m["properties"].fields.Keys)) else 0)
      + (if "items" in m then Nodes(m["items"]) else 0)
      + (if "oneOf" in m && m["oneOf"].Arr? then VariantNodes(m["oneOf"].items) else 0)
  }

  ghost function FieldNodes(v: Json, keys: seq<string>): nat
    requires v.Obj? && forall k :: k in keys ==> k in v.fields
    decreases v, 0
  {
    Sum(seq(|keys|, i requires 0 <= i < |keys| => Nodes(v.fields[keys[i]])))
  }

  ghost function VariantNodes(variants: seq<Json>): nat
    decreases variants, 0
  {
    Sum(seq(|variants|, i requires 0 <= i < |variants| => Nodes(variants[i])))
  }

  function Sum(ns: seq<nat>): nat {
    if ns == [] then 0 else ns[0] + Sum(ns[1..])
  }

  lemma {:induction false} SumBound(ns: seq<nat>, bound: nat, limit: nat)
    requires forall i :: 0 <= i < |ns| ==> ns[i] <= bound
    requires |ns| <= limit
    ensures Sum(ns) <= limit * bound
  {
    if ns == [] {
    } else {
      SumBound(ns[1..], bound, limit - 1);
      assert limit * bound == (limit - 1) * bound + bound;
    }
  }

  function NodeBound(depth: nat): nat
    decreases MAX_DEPTH - depth
  {
    if depth >= MAX_DEPTH then 1 else 1 + MAX_PROPERTIES * NodeBound(depth + 1)
  }

  lemma {:induction false} InferredNodes(v: Json, depth: nat)
    ensures 1 <= Nodes(Infer(v, depth)) <= NodeBound(depth)
    decreases MAX_DEPTH - depth, 0
  {
    hide Nodes, Infer, FieldNodes, ObjectSchema, ArraySchema, Typed;
    if depth >= MAX_DEPTH {
      LimitNodes(v, depth);
    } else if v.Obj? {
      InferObject(v.fields, depth);
      ObjectFieldNodes(v.fields, depth + 1);
      ObjectNodes(Properties(v.fields, ListedKeys(v.fields), depth + 1));
    } else if v.Arr? {
      InferArray(v.items, depth);
      ItemsNodes(v.items, depth + 1);
      ArrayNodes(ItemsSchema(Examined(v.items, depth + 1)));
    } else {
      InferScalar(v, depth);
      TypedNodes(TypeName(v));
    }
  }

  lemma {:induction false} ObjectFieldNodes(m: Object, depth: nat)
    ensures var p := Properties(m, ListedKeys(m), depth);
            FieldNodes(Obj(p), Sorted(p.Keys)) <= MAX_PROPERTIES * NodeBound(depth)
    decreases MAX_DEPTH - depth, 1
  {
    var p := Properties(m, ListedKeys(m), depth);
    PropertyKeys(m, depth);
    KeptAtMost(m);
    forall k | k in p ensures Nodes(p[k]) <= NodeBound(depth) {
      InferredNodes(m[k], depth);
    }
    FieldNodesBound(Obj(p), Sorted(p.Keys), NodeBound(depth), MAX_PROPERTIES);
  }

  lemma LimitNodes(v: Json, depth: nat)
    requires depth >= MAX_DEPTH
    ensures Nodes(Infer(v, depth)) == 1
  {
  }

  lemma TypedNodes(name: string)
    ensures Nodes(Typed(name)) == 1 && Nodes(ANY) == 1
  {
  }

  lemma ObjectNodes(p: Object)
    ensures Nodes(ObjectSchema(p)) == 1 + FieldNodes(Obj(p), Sorted(p.Keys))
  {
    assert ObjectSchema(p).fields["properties"] == Obj(p);
  }

  lemma ArrayNodes(items: Json)
    ensures Nodes(ArraySchema(items)) == 1 + Nodes(items)
  {
    assert ArraySchema(items).fields["items"] == items;
  }

  lemma OneOfNodes(variants: seq<Json>)
    ensures Nodes(OneOf(variants)) == 1 + VariantNodes(variants)
  {
    assert OneOf(variants).fields["oneOf"].items == variants;
  }

  lemma KeptAtMost(m: Object)
    ensures |KeptKeys(m)| <= MAX_PROPERTIES
  {
    var keys := ListedKeys(m);
    ElementsAtMost(keys);
    var all := set k | k in keys;
    assert KeptKeys(m) <= all;
    SubsetAtMost(KeptKeys(m), all);
  }

  lemma {:induction false} ElementsAtMost<T>(q: seq<T>)
    ensures |set k | k in q| <= |q|
  {
    if q == [] {
    } else {
      ElementsAtMost(q[1..]);
      assert (set k | k in q) == {q[0]} + set k | k in q[1..];
    }
  }

  lemma FieldNodesBound(v: Json, keys: seq<string>, bound: nat, limit: nat)
    requires v.Obj? && forall k :: k in keys ==> k in v.fields && Nodes(v.fields[k]) <= bound
    requires |keys| <= limit
    ensures FieldNodes(v, keys) <= limit * bound
  {
    SumBound(seq(|keys|, i requires 0 <= i < |keys| => Nodes(v.fields[keys[i]])), bound, limit);
  }

  lemma VariantNodesBound(variants: seq<Json>, bound: nat, limit: nat)
    requires forall s :: s in variants ==> Nodes(s) <= bound
    requires |variants| <= limit
    ensures VariantNodes(variants) <= limit * bound
  {
    SumBound(seq(|variants|, i requires 0 <= i < |variants| => Nodes(variants[i])), bound, limit);
  }

  lemma {:induction false} ItemsNodes(items: seq<Json>, depth: nat)
    ensures 1 <= Nodes(ItemsSchema(Examined(items, depth))) <= 1 + MAX_ITEMS * NodeBound(depth)
    decreases MAX_DEPTH - depth, 1
  {
    var schemas := Examined(items, depth);
    ItemsOf(items, depth);
    forall s | s in schemas ensures 1 <= Nodes(s) <= NodeBound(depth) {
      var i :| 0 <= i < |FirstItems(items)| && s == Infer(FirstItems(items)[i], depth);
      InferredNodes(FirstItems(items)[i], depth);
    }
    ExaminedAtMost(items, depth);
    SetNodes(schemas, NodeBound(depth));
  }

  lemma ExaminedAtMost(items: seq<Json>, depth: nat)
    ensures |Examined(items, depth)| <= MAX_ITEMS
  {
    hide Infer;
    var a := FirstItems(items);
    var q := seq(|a|, i requires 0 <= i < |a| => Infer(a[i], depth));
    ItemsOf(items, depth);
    ElementsAtMost(q);
    forall s ensures s in Examined(items, depth) <==> s in q {
      if s in Examined(items, depth) {
        var i :| 0 <= i < |a| && s == Infer(a[i], depth);
        assert q[i] == s;
      }
    }
    assert Examined(items, depth) == set s | s in q;
  }

  lemma SetNodes(schemas: set<Json>, bound: nat)
    requires |schemas| <= MAX_ITEMS && bound >= 1
    requires forall s :: s in schemas ==> 1 <= Nodes(s) <= bound
    ensures 1 <= Nodes(ItemsSchema(schemas)) <= 1 + MAX_ITEMS * bound
  {
    if schemas == {} {
      TypedNodes("");
    } else if |schemas| == 1 {
      var s :| s in schemas;
      OnlyElement(schemas, s);
    } else {
      var q := Ordered(schemas);
      OrderedLists(schemas);
      SeveralItems(schemas);
      OneOfNodes(q);
      OrderedLength(schemas);
      VariantNodesBound(q, bound, MAX_ITEMS);
    }
  }

  lemma OrderedLength(schemas: set<Json>)
    ensures |Ordered(schemas)| <= |schemas|
  {
    var table := map code | code in Codes(schemas) :: WithCode(schemas, code);
    VariantCount(schemas, table);
    assert table.Keys == Codes(schemas);
  }

  /** Whatever the example, its schema has at most (64^7 - 1) / 63 nodes. */
  lemma SchemaSizeIsBounded(v: Json)
    ensures Nodes(Infer(v, 0)) <= NodeBound(0)
    ensures 63 * NodeBound(0) == 64 * 64 * 64 * 64 * 64 * 64 * 64 - 1
  {
    InferredNodes(v, 0);
    assert NodeBound(6) == 1 && NodeBound(5) == 65 && NodeBound(4) == 4161 && NodeBound(3) == 266305;
    assert NodeBound(2) == 17043521 && NodeBound(1) == 1090785345 && NodeBound(0) == 69810262081;
  }
}
