/** Schema inference from one example value, and what the inferred schema accepts. */
module Inference {
  import opened Text
  import opened Json

  const MAX_DEPTH := 6
  const MAX_PROPERTIES := 64
  const MAX_ITEMS := 16
  const MAX_KEY_BYTES := 128

  // ------------------------------------------------------ schemas as documents

  const ANY := Obj(map[])

  function Typed(name: string): Json {
    Obj(map["type" := Str(name)])
  }

  function ObjectSchema(properties: Object): Json {
    Obj(map["type" := Str("object"), "properties" := Obj(properties), "additionalProperties" := Bool(false)])
  }

  function ArraySchema(items: Json): Json {
    Obj(map["type" := Str("array"), "items" := items])
  }

  function OneOf(variants: seq<Json>): Json {
    Obj(map["oneOf" := Arr(variants)])
  }

  // ------------------------------------------------------------- what is inferred

  function AtMost(n: nat, limit: nat): nat {
    if n > limit then limit else n
  }

  function ListedKeys(m: Object): (keys: seq<string>)
    ensures forall k :: k in keys ==> k in m
  {
    var keys := Sorted(m.Keys);
    keys[..AtMost(|keys|, MAX_PROPERTIES)]
  }

  /** The keys that survive the 64-key and 128-byte limits. */
  function KeptKeys(m: Object): (kept: set<string>)
    ensures kept <= m.Keys
  {
    set k | k in ListedKeys(m) && Utf8Length(k) <= MAX_KEY_BYTES
  }

  ghost function Codes(schemas: set<Json>): set<string> {
    set s | s in schemas :: Marshal(s)
  }

  ghost function WithCode(schemas: set<Json>, code: string): Json
    requires code in Codes(schemas)
  {
    var s :| s in schemas && Marshal(s) == code;
    s
  }

  /** A set of schemas listed by ascending encoding. */
  ghost function Ordered(schemas: set<Json>): seq<Json> {
    var codes := Sorted(Codes(schemas));
    seq(|codes|, i requires 0 <= i < |codes| => WithCode(schemas, codes[i]))
  }

  /** The "items" schema: a function of the set of item schemas, nothing else. */
  ghost function ItemsSchema(schemas: set<Json>): Json {
    if schemas == {} then ANY
    else if |schemas| == 1 then var s :| s in schemas; s
    else OneOf(Ordered(schemas))
  }

  ghost function Infer(v: Json, depth: nat): Json
    decreases MAX_DEPTH - depth, 0
  {
    if depth >= MAX_DEPTH then ANY
    else
      match v
      case Obj(m) => ObjectSchema(Properties(m, ListedKeys(m), depth + 1))
      case Arr(items) => ArraySchema(ItemsSchema(Examined(items, depth + 1)))
      case Num(n) => Typed(if Plain(n) then "integer" else "number")
      case Str(_) => Typed("string")
      case Bool(_) => Typed("boolean")
      case Null => Typed("null")
  }

  /** The schemas of the listed keys, except the overlong ones. */
  ghost function Properties(m: Object, keys: seq<string>, depth: nat): Object
    requires forall k :: k in keys ==> k in m
    decreases MAX_DEPTH - depth, 1
  {
    map k | k in keys && Utf8Length(k) <= MAX_KEY_BYTES :: Infer(m[k], depth)
  }

  /** The schemas of the items that are looked at. */
  ghost function Examined(items: seq<Json>, depth: nat): set<Json>
    decreases MAX_DEPTH - depth, 2
  {
    ItemSchemas(items, AtMost(|items|, MAX_ITEMS), depth)
  }

  /** The schemas of the first n items. */
  ghost function ItemSchemas(items: seq<Json>, n: nat, depth: nat): set<Json>
    requires n <= |items|
    decreases MAX_DEPTH - depth, 1
  {
    set i | 0 <= i < n :: Infer(items[i], depth)
  }

  ghost predicate Lists(q: seq<Json>, schemas: set<Json>) {
    && (forall s :: s in q <==> s in schemas)
    && forall i, j :: 0 <= i < j < |q| ==> q[i] != q[j]
  }

  /** Because distinct schemas have distinct encodings, none is lost. */
  lemma OrderedLists(schemas: set<Json>)
    ensures Lists(Ordered(schemas), schemas)
  {
    hide Marshal, Less;
    var codes, q := Sorted(Codes(schemas)), Ordered(schemas);
    forall s | s in schemas ensures s in q {
      assert Marshal(s) in codes;
      var i :| 0 <= i < |codes| && codes[i] == Marshal(s);
      MarshalInjective(s, q[i]);
    }
    forall i | 0 <= i < |q| ensures q[i] in schemas && Marshal(q[i]) == codes[i] {
      assert codes[i] in Codes(schemas);
    }
    SortedAscending(Codes(schemas));
    forall i, j | 0 <= i < j < |q| ensures q[i] != q[j] {
      LessTrichotomy(codes[i], codes[j]);
    }
  }

  // -------------------------------------------------- the source's own procedure

  method SchemaForValue(value: Json, depth: nat) returns (schema: Json)
    ensures schema == Infer(value, depth)
    decreases MAX_DEPTH - depth, 0
  {
    if depth >= MAX_DEPTH {
      return ANY;
    }
    match value {
      case Obj(m) => schema := SchemaForObject(m, depth);
      case Arr(items) => schema := SchemaForArray(items, depth);
      case Num(n) =>
        if Plain(n) {
          return Typed("integer");
        }
        schema := Typed("number");
      case Str(_) => schema := Typed("string");
      case Bool(_) => schema := Typed("boolean");
      case Null => schema := Typed("null");
    }
  }

  /** Keys are walked in sorted order. */
  method SchemaForObject(m: Object, depth: nat) returns (schema: Json)
    requires depth < MAX_DEPTH
    ensures schema == Infer(Obj(m), depth)
    decreases MAX_DEPTH - depth - 1, 2
  {
    var keys := Sorted(m.Keys);
    if |keys| > MAX_PROPERTIES {
      keys := keys[..MAX_PROPERTIES];
    }
    assert keys == ListedKeys(m);
    var properties := SchemasForKeys(m, keys, depth + 1);
    schema := ObjectSchema(properties);
  }

  method SchemasForKeys(m: Object, keys: seq<string>, depth: nat) returns (properties: Object)
    requires forall k :: k in keys ==> k in m
    ensures properties == Properties(m, keys, depth)
    decreases MAX_DEPTH - depth, 1
  {
    properties := map[];
    for n := 0 to |keys|
      invariant properties == Properties(m, keys[..n], depth)
    {
      var key := keys[n];
      PropertiesStep(m, keys, n, depth);
      if Utf8Length(key) > MAX_KEY_BYTES {
        continue;
      }
      var property := SchemaForValue(m[key], depth);
      properties := properties[key := property];
    }
    assert keys[..|keys|] == keys;
  }

  lemma PropertiesStep(m: Object, keys: seq<string>, n: nat, depth: nat)
    requires n < |keys| && forall k :: k in keys ==> k in m
    ensures Properties(m, keys[..n + 1], depth) ==
            if Utf8Length(keys[n]) > MAX_KEY_BYTES then Properties(m, keys[..n], depth)
            else Properties(m, keys[..n], depth)[keys[n] := Infer(m[keys[n]], depth)]
  {
    assert keys[..n + 1] == keys[..n] + [keys[n]];
  }

  /** Array variants are deduplicated by encoding and listed by sorted encoding. */
  method SchemaForArray(items: seq<Json>, depth: nat) returns (schema: Json)
    requires depth < MAX_DEPTH
    ensures schema == Infer(Arr(items), depth)
    decreases MAX_DEPTH - depth - 1, 1
  {
    var limit := AtMost(|items|, MAX_ITEMS);
    var variants: map<string, Json> := map[];
    for n := 0 to limit
      invariant Table(ItemSchemas(items, n, depth + 1), variants)
    {
      var variant := SchemaForValue(items[n], depth + 1);
      TableStep(ItemSchemas(items, n, depth + 1), variants, variant);
      ItemSchemasStep(items, n, depth + 1);
      variants := variants[Marshal(variant) := variant];
    }
    ghost var schemas := Examined(items, depth + 1);
    var itemSchema := SchemaForVariants(schemas, variants);
    schema := ArraySchema(itemSchema);
  }

  method SchemaForVariants(ghost schemas: set<Json>, variants: map<string, Json>) returns (items: Json)
    requires Table(schemas, variants)
    ensures items == ItemsSchema(schemas)
  {
    VariantCount(schemas, variants);
    items := ANY;
    if |variants| == 1 {
      var code :| code in variants;
      items := variants[code];
      OnlyElement(schemas, items);
    } else if |variants| > 1 {
      var oneOf := ListVariants(schemas, variants);
      SeveralItems(schemas);
      items := OneOf(oneOf);
    }
  }

  method ListVariants(ghost schemas: set<Json>, variants: map<string, Json>) returns (oneOf: seq<Json>)
    requires Table(schemas, variants)
    ensures oneOf == Ordered(schemas)
  {
    hide Marshal;
    var keys := Sorted(variants.Keys);
    oneOf := [];
    for n := 0 to |keys|
      invariant |oneOf| == n
      invariant forall i :: 0 <= i < n ==> oneOf[i] == variants[keys[i]]
    {
      oneOf := oneOf + [variants[keys[n]]];
    }
    VariantsAreOrdered(schemas, variants, oneOf);
  }

  lemma SeveralItems(schemas: set<Json>)
    requires schemas != {} && |schemas| != 1
    ensures ItemsSchema(schemas) == OneOf(Ordered(schemas))
  {
  }

  lemma ItemSchemasStep(items: seq<Json>, n: nat, depth: nat)
    requires n < |items|
    ensures ItemSchemas(items, n + 1, depth) == ItemSchemas(items, n, depth) + {Infer(items[n], depth)}
  {
    hide Infer;
  }

  /** A table from encodings to the schemas they encode. */
  ghost predicate Table(schemas: set<Json>, variants: map<string, Json>) {
    && variants.Keys == Codes(schemas)
    && forall code :: code in variants ==> variants[code] in schemas && Marshal(variants[code]) == code
  }

  lemma TableStep(schemas: set<Json>, variants: map<string, Json>, s: Json)
    requires Table(schemas, variants)
    ensures Table(schemas + {s}, variants[Marshal(s) := s])
  {
    hide Marshal;
    var more := variants[Marshal(s) := s];
    forall code ensures code in more <==> code in Codes(schemas + {s}) {
    }
  }

  /** Deduplicating by encoding keeps exactly the distinct schemas. */
  lemma {:induction false} VariantCount(schemas: set<Json>, variants: map<string, Json>)
    requires Table(schemas, variants)
    ensures |variants| == |schemas|
    decreases |schemas|
  {
    hide Marshal;
    if schemas == {} {
    } else {
      var s :| s in schemas;
      var code := Marshal(s);
      assert code in variants;
      MarshalInjective(s, variants[code]);
      var fewer := variants - {code};
      forall c ensures c in fewer <==> c in Codes(schemas - {s}) {
        if c in fewer {
          assert variants[c] in schemas - {s};
        }
        if c in Codes(schemas - {s}) {
          var t :| t in schemas - {s} && Marshal(t) == c;
          if c == code { MarshalInjective(s, t); }
        }
      }
      VariantCount(schemas - {s}, fewer);
      assert variants.Keys == fewer.Keys + {code};
    }
  }

  lemma OnlyElement(schemas: set<Json>, s: Json)
    requires |schemas| == 1 && s in schemas
    ensures schemas == {s} && ItemsSchema(schemas) == s
  {
    assert |schemas - {s}| == 0;
    assert schemas == {s};
  }

  lemma VariantsAreOrdered(schemas: set<Json>, variants: map<string, Json>, oneOf: seq<Json>)
    requires Table(schemas, variants)
    requires var keys := Sorted(variants.Keys);
             |oneOf| == |keys| && forall i :: 0 <= i < |keys| ==> oneOf[i] == variants[keys[i]]
    ensures oneOf == Ordered(schemas)
  {
    hide Marshal;
    var codes := Sorted(Codes(schemas));
    forall i | 0 <= i < |codes| ensures oneOf[i] == Ordered(schemas)[i] {
      assert codes[i] in Codes(schemas);
      MarshalInjective(oneOf[i], Ordered(schemas)[i]);
    }
  }
}
