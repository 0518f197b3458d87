/** The bounded test for concrete schemas against its unbounded meaning. */
module Concreteness {
  import opened Text
  import opened Json
  import opened References

  // ------------------------------------------------------------ the bounded test

  function Variants(o: Object, keyword: string): seq<Json> {
    if keyword in o && o[keyword].Arr? then o[keyword].items else []
  }

  predicate IsScalarType(name: string) {
    name == "string" || name == "number" || name == "integer" || name == "boolean" || name == "null"
  }

  predicate IsConcrete(doc: Object, schema: Option<Object>, depth: nat)
    decreases MAX_HOPS + 1 - depth, 1
  {
    if schema.None? || depth > MAX_HOPS then false
    else
      match Resolve(doc, Obj(schema.value), depth)
      case None => false
      case Some(resolved) =>
        if AnyConcrete(doc, Variants(resolved, "oneOf"), depth)
           || AnyConcrete(doc, Variants(resolved, "anyOf"), depth)
           || AnyConcrete(doc, Variants(resolved, "allOf"), depth) then true
        else
          var typeName := StringField(resolved, "type");
          if typeName == "object" then
            var properties := ObjectField(resolved, "properties");
            properties.Some? && |properties.value| > 0
          else if typeName == "array" then
            "items" in resolved && IsConcrete(doc, Resolve(doc, resolved["items"], depth + 1), depth + 1)
          else if IsScalarType(typeName) then true
          else "enum" in resolved || "const" in resolved
  }

  predicate AnyConcrete(doc: Object, variants: seq<Json>, depth: nat)
    requires depth <= MAX_HOPS
    decreases MAX_HOPS + 1 - depth, 0
  {
    exists c :: c in variants && IsConcrete(doc, Resolve(doc, c, depth + 1), depth + 1)
  }

  // ------------------------------------------------------- the unbounded meaning

  /** A schema that is concrete by itself. */
  predicate Leaf(o: Object) {
    var typeName := StringField(o, "type");
    if typeName == "object" then ObjectField(o, "properties").Some? && |ObjectField(o, "properties").value| > 0
    else if typeName == "array" then false
    else IsScalarType(typeName) || "enum" in o || "const" in o
  }

  /** The schemas one of which may make o concrete: variants, and items of an array. */
  function Children(o: Object): seq<Json> {
    Variants(o, "oneOf") + Variants(o, "anyOf") + Variants(o, "allOf")
    + (if StringField(o, "type") == "array" && "items" in o then [o["items"]] else [])
  }

  /** Why a schema is concrete: after so many hops it is the object o, which is a leaf
      or has a child that is concrete. */
  datatype Derivation =
    | ByItself(hops: nat, o: Object)
    | ByChild(hops: nat, o: Object, child: Json, rest: Derivation)

  predicate Derives(doc: Object, raw: Json, d: Derivation)
    decreases d
  {
    && EndsAfter(doc, raw, d.hops, d.o)
    && match d
       case ByItself(_, o) => Leaf(o)
       case ByChild(_, o, child, rest) => child in Children(o) && Derives(doc, child, rest)
  }

  ghost predicate Concrete(doc: Object, raw: Json) {
    exists d :: Derives(doc, raw, d)
  }

  /** The derivation stays within the fuel left at a depth: one unit a nesting level,
      and at every level no more hops than fuel. */
  predicate Within(d: Derivation, depth: nat) {
    depth + d.hops <= MAX_HOPS && (d.ByChild? ==> Within(d.rest, depth + 1))
  }

  function Levels(d: Derivation): nat {
    match d
    case ByItself(_, _) => 0
    case ByChild(_, _, _, rest) => 1 + Levels(rest)
  }

  // ----------------------------------------------------- Concrete is the least one

  /** One unfolding: concrete iff it leads to a leaf or to an object with a concrete child. */
  lemma ConcreteUnfolds(doc: Object, raw: Json)
    ensures Concrete(doc, raw) <==>
            exists n: nat, o :: EndsAfter(doc, raw, n, o)
              && (Leaf(o) || exists c :: c in Children(o) && Concrete(doc, c))
  {
    if Concrete(doc, raw) {
      var d :| Derives(doc, raw, d);
      assert EndsAfter(doc, raw, d.hops, d.o);
      if d.ByChild? { assert Derives(doc, d.child, d.rest) && Concrete(doc, d.child); }
    }
    forall n: nat, o | EndsAfter(doc, raw, n, o) && (Leaf(o) || exists c :: c in Children(o) && Concrete(doc, c))
      ensures Concrete(doc, raw)
    {
      if Leaf(o) {
        assert Derives(doc, raw, ByItself(n, o));
      } else {
        var c :| c in Children(o) && Concrete(doc, c);
        var rest :| Derives(doc, c, rest);
        assert Derives(doc, raw, ByChild(n, o, c, rest));
      }
    }
  }

  /** Every predicate closed under that unfolding contains Concrete. */
  lemma {:induction false} ConcreteIsLeast(doc: Object, closed: Json -> bool, raw: Json, d: Derivation)
    requires forall r, n: nat, o ::
               EndsAfter(doc, r, n, o) && (Leaf(o) || exists c :: c in Children(o) && closed(c)) ==> closed(r)
    requires Derives(doc, raw, d)
    ensures closed(raw)
    decreases d
  {
    if d.ByChild? {
      ConcreteIsLeast(doc, closed, d.child, d.rest);
    }
  }

  // ------------------------------------------------------------- the exact match

  ghost predicate ChildConcrete(doc: Object, o: Object, depth: nat) {
    exists c :: c in Children(o) && IsConcrete(doc, Resolve(doc, c, depth + 1), depth + 1)
  }

  lemma IsConcreteStep(doc: Object, o: Object, depth: nat)
    requires depth <= MAX_HOPS && Target(doc, o).None?
    ensures IsConcrete(doc, Some(o), depth) <==> Leaf(o) || ChildConcrete(doc, o, depth)
  {
    assert Resolve(doc, Obj(o), depth) == Some(o);
    var items := StringField(o, "type") == "array" && "items" in o
                 && IsConcrete(doc, Resolve(doc, o["items"], depth + 1), depth + 1);
    assert IsConcrete(doc, Some(o), depth) <==>
           AnyConcrete(doc, Variants(o, "oneOf"), depth) || AnyConcrete(doc, Variants(o, "anyOf"), depth)
           || AnyConcrete(doc, Variants(o, "allOf"), depth) || Leaf(o) || items;
    ChildKinds(doc, o, depth, items);
  }

  lemma ChildKinds(doc: Object, o: Object, depth: nat, items: bool)
    requires depth <= MAX_HOPS
    requires items <==> StringField(o, "type") == "array" && "items" in o
                        && IsConcrete(doc, Resolve(doc, o["items"], depth + 1), depth + 1)
    ensures ChildConcrete(doc, o, depth) <==>
            AnyConcrete(doc, Variants(o, "oneOf"), depth) || AnyConcrete(doc, Variants(o, "anyOf"), depth)
            || AnyConcrete(doc, Variants(o, "allOf"), depth) || items
  {
    hide Resolve;
    if ChildConcrete(doc, o, depth) {
      var c :| c in Children(o) && IsConcrete(doc, Resolve(doc, c, depth + 1), depth + 1);
      ChildIn(o, c);
    }
    AnyConcreteChild(doc, o, "oneOf", depth);
    AnyConcreteChild(doc, o, "anyOf", depth);
    AnyConcreteChild(doc, o, "allOf", depth);
    if items { ChildIn(o, o["items"]); }
  }

  lemma AnyConcreteChild(doc: Object, o: Object, keyword: string, depth: nat)
    requires depth <= MAX_HOPS && (keyword == "oneOf" || keyword == "anyOf" || keyword == "allOf")
    ensures AnyConcrete(doc, Variants(o, keyword), depth) ==> ChildConcrete(doc, o, depth)
  {
    if AnyConcrete(doc, Variants(o, keyword), depth) {
      var c :| c in Variants(o, keyword) && IsConcrete(doc, Resolve(doc, c, depth + 1), depth + 1);
      ChildIn(o, c);
    }
  }

  lemma ChildIn(o: Object, c: Json)
    ensures c in Children(o) <==>
            c in Variants(o, "oneOf") || c in Variants(o, "anyOf") || c in Variants(o, "allOf")
            || (StringField(o, "type") == "array" && "items" in o && c == o["items"])
  {
    hide Variants;
  }

  ghost predicate ConcreteWithin(doc: Object, raw: Json, depth: nat) {
    exists d :: Derives(doc, raw, d) && Within(d, depth)
  }

  /** The test is true exactly when there is a derivation within its fuel. */
  lemma {:induction false} TestIsExact(doc: Object, raw: Json, depth: nat)
    ensures IsConcrete(doc, Resolve(doc, raw, depth), depth) <==> ConcreteWithin(doc, raw, depth)
    decreases MAX_HOPS + 1 - depth
  {
    hide IsConcrete, Leaf, Children;
    var resolved := Resolve(doc, raw, depth);
    if resolved.None? {
      OutOfFuel(doc, None, depth);
      forall d | Derives(doc, raw, d) ensures !Within(d, depth) {
        FuelIsExact(doc, raw, depth, d.hops, d.o);
      }
    } else {
      var o := resolved.value;
      ResolveFollows(doc, raw, depth, o);
      var n :| 0 <= n <= MAX_HOPS - depth && EndsAfter(doc, raw, n, o);
      IsConcreteStep(doc, o, depth);
      forall c | c in Children(o)
        ensures IsConcrete(doc, Resolve(doc, c, depth + 1), depth + 1) <==> ConcreteWithin(doc, c, depth + 1)
      {
        TestIsExact(doc, c, depth + 1);
      }
      WithinUnfolds(doc, raw, n, o, depth);
    }
  }

  lemma WithinUnfolds(doc: Object, raw: Json, n: nat, o: Object, depth: nat)
    requires EndsAfter(doc, raw, n, o) && depth + n <= MAX_HOPS
    ensures ConcreteWithin(doc, raw, depth) <==>
            Leaf(o) || exists c :: c in Children(o) && ConcreteWithin(doc, c, depth + 1)
  {
    hide Leaf, Children;
    if ConcreteWithin(doc, raw, depth) {
      var d :| Derives(doc, raw, d) && Within(d, depth);
      EndUnique(doc, raw, n, d.hops, o, d.o);
      if d.ByChild? {
        assert Derives(doc, d.child, d.rest) && Within(d.rest, depth + 1);
        assert ConcreteWithin(doc, d.child, depth + 1);
      }
    }
    if Leaf(o) {
      var d := ByItself(n, o);
      assert Derives(doc, raw, d) && Within(d, depth);
    } else if c :| c in Children(o) && ConcreteWithin(doc, c, depth + 1) {
      var rest :| Derives(doc, c, rest) && Within(rest, depth + 1);
      var d := ByChild(n, o, c, rest);
      assert Derives(doc, raw, d) && Within(d, depth);
    }
  }

  /** The test applied to an object, as analyzeOpenAPI applies it. */
  lemma ObjectTestIsExact(doc: Object, o: Object, depth: nat)
    ensures IsConcrete(doc, Some(o), depth) <==> ConcreteWithin(doc, Obj(o), depth)
  {
    TestIsExact(doc, Obj(o), depth);
    if Resolve(doc, Obj(o), depth).Some? {
      ResolveIsIdempotent(doc, Obj(o), depth, depth);
    }
  }

  /** A true answer is never wrong, whatever the document: cycles included. */
  lemma TestIsSound(doc: Object, o: Object, depth: nat)
    requires IsConcrete(doc, Some(o), depth)
    ensures Concrete(doc, Obj(o))
  {
    ObjectTestIsExact(doc, o, depth);
  }

  lemma {:induction false} WithinAntitone(d: Derivation, depth: nat)
    requires Within(d, depth + 1)
    ensures Within(d, depth)
  {
    if d.ByChild? { WithinAntitone(d.rest, depth + 1); }
  }

  /** More fuel never turns a true answer into a false one. */
  lemma MoreFuelKeepsTrue(doc: Object, o: Object, depth: nat)
    requires IsConcrete(doc, Some(o), depth + 1)
    ensures IsConcrete(doc, Some(o), depth)
  {
    ObjectTestIsExact(doc, o, depth + 1);
    ObjectTestIsExact(doc, o, depth);
    var d :| Derives(doc, Obj(o), d) && Within(d, depth + 1);
    WithinAntitone(d, depth);
  }

  // ------------------------------------------------------- schemas without references

  predicate RefFree(v: Json) {
    match v
    case Obj(m) => !HasPrefix(StringField(m, "$ref"), "#/") && forall k :: k in m ==> RefFree(m[k])
    case Arr(items) => forall i :: 0 <= i < |items| ==> RefFree(items[i])
    case _ => true
  }

  /** No chain of variants and items under v is longer than n. */
  predicate NestingAtMost(v: Json, n: nat) {
    v.Obj? ==> forall c :: c in Children(v.fields) ==> n > 0 && NestingAtMost(c, n - 1)
  }

  lemma RefFreeVariants(o: Object, keyword: string)
    requires RefFree(Obj(o))
    ensures forall c :: c in Variants(o, keyword) ==> RefFree(c)
  {
    if keyword in o { assert RefFree(o[keyword]); }
  }

  lemma RefFreeChildren(o: Object)
    requires RefFree(Obj(o))
    ensures forall c :: c in Children(o) ==> RefFree(c)
  {
    hide RefFree;
    RefFreeVariants(o, "oneOf");
    RefFreeVariants(o, "anyOf");
    RefFreeVariants(o, "allOf");
    RefFreeItems(o);
  }

  lemma RefFreeItems(o: Object)
    requires RefFree(Obj(o))
    ensures "items" in o ==> RefFree(o["items"])
  {
  }

  lemma {:induction false} RefFreeTakesNoHops(doc: Object, raw: Json, d: Derivation)
    requires RefFree(raw) && Derives(doc, raw, d)
    ensures forall depth: nat :: Within(d, depth) <==> depth + Levels(d) <= MAX_HOPS
    decreases d
  {
    assert raw.Obj? && Target(doc, raw.fields).None?;
    assert d.hops == 0 && d.o == raw.fields;
    if d.ByChild? {
      RefFreeChildren(raw.fields);
      RefFreeTakesNoHops(doc, d.child, d.rest);
    }
  }

  lemma {:induction false} LevelsBounded(doc: Object, raw: Json, d: Derivation, n: nat)
    requires RefFree(raw) && Derives(doc, raw, d) && NestingAtMost(raw, n)
    ensures Levels(d) <= n
    decreases d
  {
    assert raw.Obj? && Target(doc, raw.fields).None?;
    assert d.hops == 0 && d.o == raw.fields;
    if d.ByChild? {
      RefFreeChildren(raw.fields);
      LevelsBounded(doc, d.child, d.rest, n - 1);
    }
  }

  ghost predicate ConcreteInLevels(doc: Object, raw: Json, levels: int) {
    exists d :: Derives(doc, raw, d) && Levels(d) <= levels
  }

  /** Without references the only limit is nesting: the test holds iff some concrete
      leaf lies at most 8 - depth levels down. */
  lemma RefFreeDecision(doc: Object, o: Object, depth: nat)
    requires RefFree(Obj(o))
    ensures IsConcrete(doc, Some(o), depth) <==> ConcreteInLevels(doc, Obj(o), 8 - depth)
  {
    hide IsConcrete, RefFree;
    ObjectTestIsExact(doc, o, depth);
    if ConcreteWithin(doc, Obj(o), depth) {
      var d :| Derives(doc, Obj(o), d) && Within(d, depth);
      RefFreeTakesNoHops(doc, Obj(o), d);
      assert ConcreteInLevels(doc, Obj(o), MAX_HOPS - depth);
    }
    if ConcreteInLevels(doc, Obj(o), MAX_HOPS - depth) {
      var d :| Derives(doc, Obj(o), d) && Levels(d) <= MAX_HOPS - depth;
      RefFreeTakesNoHops(doc, Obj(o), d);
      assert ConcreteWithin(doc, Obj(o), depth);
    }
  }

  /** So it decides every reference-free schema nested at most 8 levels. */
  lemma ShallowSchemasAreDecided(doc: Object, o: Object)
    requires RefFree(Obj(o)) && NestingAtMost(Obj(o), 8)
    ensures IsConcrete(doc, Some(o), 0) <==> Concrete(doc, Obj(o))
  {
    hide IsConcrete, RefFree, NestingAtMost;
    RefFreeDecision(doc, o, 0);
    if Concrete(doc, Obj(o)) {
      var d :| Derives(doc, Obj(o), d);
      LevelsBounded(doc, Obj(o), d, MAX_HOPS);
      assert ConcreteInLevels(doc, Obj(o), MAX_HOPS - 0);
    }
  }

  // ----------------------------------------------------- the test spelled out

  predicate WithoutVariants(o: Object) {
    "$ref" !in o && "oneOf" !in o && "anyOf" !in o && "allOf" !in o
  }

  /** A schema without references and variants passes the test by its type: an object if
      it has properties, an array if its items pass one level down, the five scalar types
      always, and any other iff it lists or fixes its values. */
  lemma LeavesExactly(doc: Object, o: Object, depth: nat)
    requires WithoutVariants(o) && depth <= 8
    ensures var typeName := if "type" in o && o["type"].Str? then o["type"].text else "";
            IsConcrete(doc, Some(o), depth) <==>
            if typeName == "object" then
              "properties" in o && o["properties"].Obj? && o["properties"].fields != map[]
            else if typeName == "array" then
              "items" in o && IsConcrete(doc, Resolve(doc, o["items"], depth + 1), depth + 1)
            else
              typeName in {"string", "number", "integer", "boolean", "null"} || "enum" in o || "const" in o
  {
    assert Resolve(doc, Obj(o), depth) == Some(o);
    assert Variants(o, "oneOf") == [] && Variants(o, "anyOf") == [] && Variants(o, "allOf") == [];
    if "properties" in o && o["properties"].Obj? {
      assert |o["properties"].fields| == 0 <==> o["properties"].fields == map[];
    }
  }

  /** A concrete variant under any of the three keywords is enough. */
  lemma VariantsSuffice(doc: Object, o: Object, keyword: string, i: nat, depth: nat)
    requires "$ref" !in o && keyword in {"oneOf", "anyOf", "allOf"} && keyword in o && o[keyword].Arr?
    requires depth < 8 && i < |o[keyword].items|
    requires IsConcrete(doc, Resolve(doc, o[keyword].items[i], depth + 1), depth + 1)
    ensures IsConcrete(doc, Some(o), depth)
  {
    assert Resolve(doc, Obj(o), depth) == Some(o);
    assert o[keyword].items[i] in Variants(o, keyword);
    assert AnyConcrete(doc, Variants(o, keyword), depth);
  }

  /** Only reaching for a reference costs a hop; past the eighth level nothing passes. */
  lemma NothingPastEight(doc: Object, schema: Option<Object>, depth: nat)
    requires depth > 8
    ensures !IsConcrete(doc, schema, depth)
  {
  }

  /** An array of arrays ... of strings. */
  function NestedArray(n: nat): Object {
    if n == 0 then map["type" := Str("string")]
    else map["type" := Str("array"), "items" := Obj(NestedArray(n - 1))]
  }

  lemma NestedArrayShape(doc: Object, n: nat)
    ensures var o := NestedArray(n);
            && Target(doc, o).None?
            && (Leaf(o) <==> n == 0)
            && Children(o) == if n == 0 then [] else [Obj(NestedArray(n - 1))]
  {
    var o := NestedArray(n);
    assert Variants(o, "oneOf") == [] && Variants(o, "anyOf") == [] && Variants(o, "allOf") == [];
  }

  lemma {:induction false} NestedArrayIsConcrete(doc: Object, n: nat) returns (d: Derivation)
    ensures Derives(doc, Obj(NestedArray(n)), d)
  {
    hide NestedArray, Target, Leaf, Children;
    NestedArrayShape(doc, n);
    var o := NestedArray(n);
    assert EndsAfter(doc, Obj(o), 0, o);
    if n == 0 {
      d := ByItself(0, o);
    } else {
      var rest := NestedArrayIsConcrete(doc, n - 1);
      d := ByChild(0, o, Obj(NestedArray(n - 1)), rest);
    }
  }

  lemma {:induction false} NestedArrayTest(doc: Object, n: nat, depth: nat)
    ensures IsConcrete(doc, Some(NestedArray(n)), depth) <==> depth + n <= MAX_HOPS
    decreases n
  {
    hide NestedArray, Target, Leaf, Children, IsConcrete;
    NestedArrayShape(doc, n);
    assert n > 0 ==> Obj(NestedArray(n - 1)) in Children(NestedArray(n));
    if depth > MAX_HOPS {
      OutOfFuel(doc, Some(NestedArray(n)), depth);
    } else {
      IsConcreteStep(doc, NestedArray(n), depth);
      if n > 0 {
        NestedArrayShape(doc, n - 1);
        NestedArrayTest(doc, n - 1, depth + 1);
        OutOfFuel(doc, None, depth + 1);
      }
    }
  }

  lemma OutOfFuel(doc: Object, schema: Option<Object>, depth: nat)
    requires schema.None? || depth > MAX_HOPS
    ensures !IsConcrete(doc, schema, depth)
  {
  }

  /** And no deeper: arrays of every nesting are concrete, those beyond 8 are missed. */
  lemma DeepSchemasAreMissed(doc: Object, n: nat)
    ensures Concrete(doc, Obj(NestedArray(n)))
    ensures IsConcrete(doc, Some(NestedArray(n)), 0) <==> n <= 8
  {
    var d := NestedArrayIsConcrete(doc, n);
    NestedArrayTest(doc, n, 0);
  }
}
