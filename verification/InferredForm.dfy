/** Inferred schemas spelled out keyword by keyword, and that what they say is concrete. */
module InferredForm {
  import opened Text
  import opened Json
  import opened Inference
  import opened References
  import opened Concreteness

  // ------------------------------------------------------------------- scalars

  /** The schema of a number by its literal, whatever its sign: "integer" without a
      fraction and an exponent, "number" with either. */
  lemma NumbersByTheirLiterals(n: Literal, depth: nat)
    requires depth < 6
    ensures Infer(Num(n), depth) ==
            if PartsOf(n).fraction.None? && PartsOf(n).exponent.None? then Obj(map["type" := Str("integer")])
            else Obj(map["type" := Str("number")])
    ensures Infer(Num(n), depth) == Obj(map["type" := Str("integer")]) <==> '.' !in n && 'e' !in n && 'E' !in n
  {
    hide PartsOf, Plain, IsNumberLiteral;
    PlainIffNoParts(n);
    TypesDiffer();
  }

  lemma TypesDiffer()
    ensures Obj(map["type" := Str("integer")]) != Obj(map["type" := Str("number")])
  {
    assert "integer"[0] != "number"[0];
    assert map["type" := Str("integer")]["type"] != map["type" := Str("number")]["type"];
  }

  lemma ScalarsByTheirKinds(s: string, b: bool, depth: nat)
    requires depth < 6
    ensures Infer(Str(s), depth) == Obj(map["type" := Str("string")])
    ensures Infer(Bool(b), depth) == Obj(map["type" := Str("boolean")])
    ensures Infer(Null, depth) == Obj(map["type" := Str("null")])
  {
  }

  /** Below the sixth level nothing is said. */
  lemma NothingBelowSix(v: Json, depth: nat)
    requires depth >= 6
    ensures Infer(v, depth) == Obj(map[])
  {
  }

  // ------------------------------------------------------------------- objects

  function Before(keys: set<string>, k: string): set<string> {
    set j | j in keys && Less(j, k)
  }

  /** In an ascending listing an element's place is the number of smaller ones. */
  lemma {:induction false} RankIs(keys: set<string>, q: seq<string>, n: nat)
    requires Ascending(q) && n < |q| && forall k :: k in q <==> k in keys
    ensures |Before(keys, q[n])| == n
  {
    hide Less;
    LessTrichotomy(q[n], q[n]);
    if n == 0 {
      forall k | k in keys ensures !Less(k, q[0]) {
        var i :| 0 <= i < |q| && q[i] == k;
        if i > 0 { LessTrichotomy(q[0], q[i]); }
      }
      assert Before(keys, q[0]) == {};
    } else {
      var last := q[n - 1];
      RankIs(keys, q, n - 1);
      LessTrichotomy(last, last);
      forall k | k in keys ensures Less(k, q[n]) <==> Less(k, last) || k == last {
        var i :| 0 <= i < |q| && q[i] == k;
        LessTrichotomy(q[i], q[n]);
        LessTrichotomy(q[i], last);
        assert Less(last, q[n]);
      }
      assert last in keys && last !in Before(keys, last);
      assert Before(keys, q[n]) == Before(keys, last) + {last};
    }
  }

  /** A key is kept iff fewer than 64 keys of its object come before it and it takes at
      most 128 bytes; overlong keys count among the 64. */
  lemma KeptExactly(m: Object, k: string)
    ensures k in KeptKeys(m) <==> k in m && Utf8Length(k) <= 128 && |Before(m.Keys, k)| < 64
  {
    hide Less, Utf8Length, Before;
    if k in m {
      var q := Sorted(m.Keys);
      SortedAscending(m.Keys);
      var n :| 0 <= n < |q| && q[n] == k;
      RankIs(m.Keys, q, n);
      ListedByRank(m, n);
    }
  }

  lemma ListedByRank(m: Object, n: nat)
    requires n < |Sorted(m.Keys)|
    ensures Sorted(m.Keys)[n] in ListedKeys(m) <==> n < 64
  {
    hide Less;
    var q := Sorted(m.Keys);
    SortedAscending(m.Keys);
    if n < 64 {
      assert ListedKeys(m)[n] == q[n];
    } else {
      forall i | 0 <= i < |ListedKeys(m)| ensures ListedKeys(m)[i] != q[n] {
        assert Less(q[i], q[n]);
        LessTrichotomy(q[n], q[n]);
      }
    }
  }

  /** The schema of an object: its kept keys, each with the schema of its value one level
      down, and no others. */
  lemma ObjectsByTheirKeys(m: Object, depth: nat)
    requires depth < 6
    ensures Infer(Obj(m), depth) ==
            Obj(map["type" := Str("object"),
                    "properties" := Obj(map k | k in KeptKeys(m) :: Infer(m[k], depth + 1)),
                    "additionalProperties" := Bool(false)])
  {
    hide Infer, KeptKeys;
    InferIsObjectSchema(m, depth);
    KeptProperties(m, depth + 1);
  }

  lemma InferIsObjectSchema(m: Object, depth: nat)
    requires depth < 6
    ensures Infer(Obj(m), depth) == ObjectSchema(Properties(m, ListedKeys(m), depth + 1))
  {
  }

  lemma KeptProperties(m: Object, depth: nat)
    ensures Properties(m, ListedKeys(m), depth) == map k | k in KeptKeys(m) :: Infer(m[k], depth)
  {
    hide Infer;
  }

  // -------------------------------------------------------------------- arrays

  /** The schemas of the first 16 items. */
  ghost function Shown(items: seq<Json>, depth: nat): set<Json> {
    set i | 0 <= i < |items| && i < 16 :: Infer(items[i], depth)
  }

  /** The schema of an array: nothing about the items of an empty one; the one schema its
      first 16 items show, or all they show as variants, once each, in the order of their
      encodings. */
  lemma ArraysByTheirItems(items: seq<Json>, depth: nat) returns (said: Json)
    requires depth < 6
    ensures Infer(Arr(items), depth) == Obj(map["type" := Str("array"), "items" := said])
    ensures items == [] ==> said == Obj(map[])
    ensures |Shown(items, depth + 1)| == 1 ==> said in Shown(items, depth + 1)
    ensures |Shown(items, depth + 1)| > 1 ==>
              && said.Obj? && said.fields.Keys == {"oneOf"} && said.fields["oneOf"].Arr?
              && (forall s :: s in said.fields["oneOf"].items <==> s in Shown(items, depth + 1))
              && var q := said.fields["oneOf"].items;
                 forall i, j :: 0 <= i < j < |q| ==> Less(Marshal(q[i]), Marshal(q[j]))
  {
    hide Infer, Marshal, Less;
    InferIsArraySchema(items, depth);
    var schemas := Examined(items, depth + 1);
    ShownIsExamined(items, depth + 1);
    said := ItemsSchema(schemas);
    if |schemas| == 1 {
      var s :| s in schemas;
      OnlyElement(schemas, s);
    } else if |schemas| > 1 {
      SeveralItems(schemas);
      OrderedLists(schemas);
      OrderedAscends(schemas);
    } else {
      assert schemas == {};
    }
  }

  lemma InferIsArraySchema(items: seq<Json>, depth: nat)
    requires depth < 6
    ensures Infer(Arr(items), depth) == ArraySchema(ItemsSchema(Examined(items, depth + 1)))
  {
  }

  lemma ShownIsExamined(items: seq<Json>, depth: nat)
    ensures Shown(items, depth) == Examined(items, depth)
  {
    hide Infer;
  }

  lemma OrderedAscends(schemas: set<Json>)
    ensures var q := Ordered(schemas); forall i, j :: 0 <= i < j < |q| ==> Less(Marshal(q[i]), Marshal(q[j]))
  {
    hide Marshal, Less;
    SortedAscending(Codes(schemas));
    var codes, q := Sorted(Codes(schemas)), Ordered(schemas);
    forall i | 0 <= i < |q| ensures Marshal(q[i]) == codes[i] {
      assert codes[i] in Codes(schemas);
    }
  }

  // ------------------------------------------------- what is inferred is concrete

  /** Above the depth limit every scalar's schema passes the review's own test, in every
      document and at every depth the test reaches. */
  lemma ScalarSchemasAreConcrete(doc: Object, v: Json, level: nat, depth: nat)
    requires !v.Obj? && !v.Arr? && level < 6 && depth <= 8
    ensures Infer(v, level).Obj? && IsConcrete(doc, Some(Infer(v, level).fields), depth)
  {
    var o := Infer(v, level).fields;
    assert "$ref" !in o && "oneOf" !in o && "anyOf" !in o && "allOf" !in o;
    LeavesExactly(doc, o, depth);
  }

  /** An object's schema passes iff some key of it is kept. */
  lemma ObjectSchemasAreConcrete(doc: Object, m: Object, level: nat, depth: nat)
    requires level < 6 && depth <= 8
    ensures Infer(Obj(m), level).Obj?
    ensures IsConcrete(doc, Some(Infer(Obj(m), level).fields), depth) <==> KeptKeys(m) != {}
  {
    hide KeptKeys, Infer, IsConcrete;
    ObjectsByTheirKeys(m, level);
    var properties := map k | k in KeptKeys(m) :: Infer(m[k], level + 1);
    assert properties.Keys == KeptKeys(m);
    var o := Infer(Obj(m), level).fields;
    assert o["type"] == Str("object") && o["properties"] == Obj(properties);
    LeavesExactly(doc, o, depth);
  }
}
