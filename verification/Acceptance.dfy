/** What an inferred schema accepts, judged by a JSON Schema validator written
    independently of the inference, and what inference forgets. */
module Acceptance {
  import opened Text
  import opened Json
  import opened Inference

  // ------------------------------------------------------------- the validator

  /** How "oneOf" is read: section 10.2.1.3 of JSON Schema Core (2020-12) wants
      exactly one variant; anyOf would be satisfied by at least one. */
  datatype Reading = AtLeastOne | ExactlyOne

  predicate HasType(name: string, v: Json) {
    match v
    case Null => name == "null"
    case Bool(_) => name == "boolean"
    case Str(_) => name == "string"
    case Num(n) => name == "number" || (name == "integer" && Integral(n))
    case Arr(_) => name == "array"
    case Obj(_) => name == "object"
  }

  /** The keywords type, properties, additionalProperties, items and oneOf. */
  predicate Validates(reading: Reading, schema: Json, v: Json)
    decreases schema
  {
    match schema
    case Bool(b) => b
    case Obj(m) =>
      && ("type" in m && m["type"].Str? ==> HasType(m["type"].text, v))
      && (v.Obj? ==> forall k :: k in v.fields ==> PropertyValidates(reading, schema, k, v.fields[k]))
      && (v.Arr? && "items" in m ==> forall i :: 0 <= i < |v.items| ==> Validates(reading, m["items"], v.items[i]))
      && ("oneOf" in m && m["oneOf"].Arr? ==> OneValidates(reading, m["oneOf"].items, v))
    case _ => false
  }

  predicate PropertyValidates(reading: Reading, schema: Json, k: string, v: Json)
    requires schema.Obj?
    decreases schema, 0
  {
    var m := schema.fields;
    if "properties" in m && m["properties"].Obj? && k in m["properties"].fields then
      Validates(reading, m["properties"].fields[k], v)
    else
      "additionalProperties" in m ==> Validates(reading, m["additionalProperties"], v)
  }

  predicate OneValidates(reading: Reading, variants: seq<Json>, v: Json)
    decreases variants, 1
  {
    exists i :: 0 <= i < |variants| && Validates(reading, variants[i], v)
      && (reading.ExactlyOne? ==> NoOtherValidates(reading, variants, i, v))
  }

  predicate NoOtherValidates(reading: Reading, variants: seq<Json>, i: nat, v: Json)
    decreases variants, 0
  {
    forall j :: 0 <= j < |variants| && j != i ==> !Validates(reading, variants[j], v)
  }

  // --------------------------------------------------- judging values by values

  function FirstItems(items: seq<Json>): seq<Json> {
    items[..AtMost(|items|, MAX_ITEMS)]
  }

  /** The values have the same outline down to the depth limit: the same kept keys,
      the same kinds of scalars, and arrays whose examined items show the same
      outlines, in whatever order and however often. */
  ghost predicate SameOutline(x: Json, y: Json, depth: nat)
    decreases MAX_DEPTH - depth, 0
  {
    depth >= MAX_DEPTH ||
    match x
    case Obj(m) =>
      y.Obj? && SameFields(m, y.fields, depth + 1)
    case Arr(xs) =>
      y.Arr? && SameItemOutlines(xs, y.items, depth + 1)
    case Num(n) => y.Num? && Plain(n) == Plain(y.literal)
    case Str(_) => y.Str?
    case Bool(_) => y.Bool?
    case Null => y.Null?
  }

  ghost predicate SameFields(m: Object, n: Object, depth: nat)
    decreases MAX_DEPTH - depth, 1
  {
    KeptKeys(m) == KeptKeys(n) && forall k :: k in KeptKeys(m) ==> SameOutline(m[k], n[k], depth)
  }

  ghost predicate SameItemOutlines(xs: seq<Json>, ys: seq<Json>, depth: nat)
    decreases MAX_DEPTH - depth, 3
  {
    var a, b := FirstItems(xs), FirstItems(ys);
    depth >= MAX_DEPTH || (Covers(a, b, depth) && Covers(b, a, depth))
  }

  ghost predicate Covers(a: seq<Json>, b: seq<Json>, depth: nat)
    decreases MAX_DEPTH - depth, 2
  {
    forall i :: 0 <= i < |a| ==> Covered(a[i], b, depth)
  }

  ghost predicate Covered(x: Json, b: seq<Json>, depth: nat)
    decreases MAX_DEPTH - depth, 1
  {
    exists j :: 0 <= j < |b| && SameOutline(x, b[j], depth)
  }

  /** x fits the outline of the example y. */
  ghost predicate Fits(reading: Reading, x: Json, y: Json, depth: nat)
    decreases MAX_DEPTH - depth, 0
  {
    depth >= MAX_DEPTH ||
    match y
    case Obj(m) =>
      x.Obj? && FieldsFit(reading, x.fields, m, depth + 1)
    case Arr(ys) =>
      x.Arr? && forall i :: 0 <= i < |x.items| ==> FitsSome(reading, x.items[i], FirstItems(ys), depth + 1)
    case Num(n) => x.Num? && (Plain(n) ==> Integral(x.literal))
    case Str(_) => x.Str?
    case Bool(_) => x.Bool?
    case Null => x.Null?
  }

  ghost predicate FieldsFit(reading: Reading, f: Object, m: Object, depth: nat)
    decreases MAX_DEPTH - depth, 1
  {
    forall k :: k in f ==> k in KeptKeys(m) && Fits(reading, f[k], m[k], depth)
  }

  /** x fits one of the examples and, under the exact reading, only examples of one
      outline. Without examples anything goes. */
  ghost predicate FitsSome(reading: Reading, x: Json, ys: seq<Json>, depth: nat)
    decreases MAX_DEPTH - depth, 2
  {
    ys == [] || exists j :: 0 <= j < |ys| && FitsAt(reading, x, ys, j, depth)
  }

  ghost predicate FitsAt(reading: Reading, x: Json, ys: seq<Json>, j: nat, depth: nat)
    requires j < |ys|
    decreases MAX_DEPTH - depth, 1
  {
    Fits(reading, x, ys[j], depth)
    && (reading.ExactlyOne? ==>
          forall i :: 0 <= i < |ys| && Fits(reading, x, ys[i], depth) ==> SameOutline(ys[i], ys[j], depth))
  }

  // ------------------------------------------------- reading the document forms

  lemma AnyValidates(reading: Reading, v: Json)
    ensures Validates(reading, ANY, v)
  {
  }

  lemma TypedValidates(reading: Reading, name: string, v: Json)
    ensures Validates(reading, Typed(name), v) <==> HasType(name, v)
  {
  }

  ghost predicate FieldsValidate(reading: Reading, properties: Object, f: Object) {
    forall k :: k in f ==> k in properties && Validates(reading, properties[k], f[k])
  }

  lemma ObjectValidates(reading: Reading, properties: Object, v: Json)
    ensures Validates(reading, ObjectSchema(properties), v) <==>
            v.Obj? && FieldsValidate(reading, properties, v.fields)
  {
    var schema := ObjectSchema(properties);
    if v.Obj? {
      forall k | k in v.fields
        ensures PropertyValidates(reading, schema, k, v.fields[k]) <==>
                k in properties && Validates(reading, properties[k], v.fields[k])
      {
        assert schema.fields["properties"].fields == properties;
        assert !Validates(reading, Bool(false), v.fields[k]);
      }
    }
  }

  lemma ArrayValidates(reading: Reading, items: Json, v: Json)
    ensures Validates(reading, ArraySchema(items), v) <==>
            v.Arr? && forall i :: 0 <= i < |v.items| ==> Validates(reading, items, v.items[i])
  {
    assert ArraySchema(items).fields["items"] == items;
  }

  lemma OneOfValidates(reading: Reading, variants: seq<Json>, v: Json)
    ensures Validates(reading, OneOf(variants), v) <==> OneValidates(reading, variants, v)
  {
    var schema := OneOf(variants);
    assert schema.fields["oneOf"].items == variants;
    if v.Obj? {
      forall k | k in v.fields ensures PropertyValidates(reading, schema, k, v.fields[k]) {
      }
    }
  }

  ghost predicate MemberValidates(reading: Reading, schemas: set<Json>, v: Json) {
    exists s :: s in schemas && MemberChosen(reading, schemas, s, v)
  }

  ghost predicate MemberChosen(reading: Reading, schemas: set<Json>, s: Json, v: Json) {
    Validates(reading, s, v)
    && (reading.ExactlyOne? ==> forall t :: t in schemas && Validates(reading, t, v) ==> t == s)
  }

  ghost predicate VariantChosen(reading: Reading, variants: seq<Json>, i: nat, v: Json)
    requires i < |variants|
  {
    Validates(reading, variants[i], v) && (reading.ExactlyOne? ==> NoOtherValidates(reading, variants, i, v))
  }

  lemma ListedChosen(reading: Reading, q: seq<Json>, schemas: set<Json>, i: nat, v: Json)
    requires Lists(q, schemas) && i < |q|
    ensures VariantChosen(reading, q, i, v) <==> MemberChosen(reading, schemas, q[i], v)
  {
    hide Validates;
    forall j | 0 <= j < |q| ensures q[j] in schemas && (j != i ==> q[j] != q[i]) {
    }
    if VariantChosen(reading, q, i, v) {
      forall t | reading.ExactlyOne? && t in schemas && Validates(reading, t, v) ensures t == q[i] {
        var j :| 0 <= j < |q| && q[j] == t;
      }
    }
  }

  lemma Position<T>(q: seq<T>, x: T) returns (i: nat)
    requires x in q
    ensures i < |q| && q[i] == x
  {
    i :| 0 <= i < |q| && q[i] == x;
  }

  lemma ListedValidates(reading: Reading, q: seq<Json>, schemas: set<Json>, v: Json)
    requires Lists(q, schemas)
    ensures OneValidates(reading, q, v) <==> MemberValidates(reading, schemas, v)
  {
    hide Validates, MemberChosen;
    forall i | 0 <= i < |q|
      ensures VariantChosen(reading, q, i, v) <==> MemberChosen(reading, schemas, q[i], v)
      ensures q[i] in schemas
    {
      ListedChosen(reading, q, schemas, i, v);
    }
    if MemberValidates(reading, schemas, v) {
      var s :| s in schemas && MemberChosen(reading, schemas, s, v);
      var i := Position(q, s);
      assert VariantChosen(reading, q, i, v);
    }
    if OneValidates(reading, q, v) {
      var i :| 0 <= i < |q| && VariantChosen(reading, q, i, v);
    }
  }

  lemma OrderedValidate(reading: Reading, schemas: set<Json>, v: Json)
    ensures Validates(reading, OneOf(Ordered(schemas)), v) <==> MemberValidates(reading, schemas, v)
  {
    var q := Ordered(schemas);
    OrderedLists(schemas);
    OneOfValidates(reading, q, v);
    ListedValidates(reading, q, schemas, v);
  }

  /** The items schema of a set accepts v iff a member does; the only one, if read exactly. */
  lemma ItemsValidate(reading: Reading, schemas: set<Json>, v: Json)
    requires schemas != {}
    ensures Validates(reading, ItemsSchema(schemas), v) <==> MemberValidates(reading, schemas, v)
  {
    if |schemas| == 1 {
      var s :| s in schemas;
      OnlyElement(schemas, s);
    } else {
      SeveralItems(schemas);
      OrderedValidate(reading, schemas, v);
    }
  }

  // -------------------------------------------------------------- main results

  lemma TypedOrAny(v: Json, depth: nat)
    ensures Infer(v, depth).Obj?
    ensures depth < MAX_DEPTH ==> "type" in Infer(v, depth).fields && "oneOf" !in Infer(v, depth).fields
    ensures depth >= MAX_DEPTH ==> Infer(v, depth) == ANY
  {
  }

  ghost predicate AllTyped(s: set<Json>) {
    forall x :: x in s ==> x.Obj? && "type" in x.fields && "oneOf" !in x.fields
  }

  /** The three forms of an items schema are told apart by their keywords. */
  lemma ItemsForm(s: set<Json>)
    requires AllTyped(s)
    ensures var x := ItemsSchema(s);
            && x.Obj?
            && ("type" in x.fields <==> |s| == 1)
            && ("oneOf" in x.fields <==> |s| > 1)
            && (|s| == 1 ==> s == {x})
            && (|s| > 1 ==> x.fields["oneOf"].Arr? && Lists(x.fields["oneOf"].items, s))
  {
    if |s| == 1 {
      var x :| x in s;
      OnlyElement(s, x);
    } else if |s| > 1 {
      OrderedLists(s);
      assert OneOf(Ordered(s)).fields["oneOf"].items == Ordered(s);
    } else {
      assert s == {};
    }
  }

  /** Item schemas can be recovered from the items schema, above the depth limit. */
  lemma ItemsSchemaInjective(s: set<Json>, t: set<Json>)
    requires AllTyped(s) && AllTyped(t)
    requires ItemsSchema(s) == ItemsSchema(t)
    ensures s == t
  {
    ItemsForm(s);
    ItemsForm(t);
    hide ItemsSchema;
    if |s| > 1 {
      var q := ItemsSchema(s).fields["oneOf"].items;
      assert forall x :: x in s <==> x in q;
      assert forall x :: x in t <==> x in q;
    }
  }

  lemma ItemsOf(items: seq<Json>, depth: nat)
    ensures var a := FirstItems(items);
            Examined(items, depth) == set i | 0 <= i < |a| :: Infer(a[i], depth)
  {
  }

  function TypeName(v: Json): string {
    match v
    case Null => "null"
    case Bool(_) => "boolean"
    case Str(_) => "string"
    case Num(n) => if Plain(n) then "integer" else "number"
    case Arr(_) => "array"
    case Obj(_) => "object"
  }

  lemma TypeNames()
    ensures "null"[0] == 'n' && |"null"| == 4 && "boolean"[0] == 'b' && "string"[0] == 's'
    ensures "integer"[0] == 'i' && "number"[0] == 'n' && |"number"| == 6 && "array"[0] == 'a' && "object"[0] == 'o'
  {
  }

  lemma SameTypeName(x: Json, y: Json)
    ensures TypeName(x) == TypeName(y) <==>
            match x
            case Null => y.Null?
            case Bool(_) => y.Bool?
            case Str(_) => y.Str?
            case Num(n) => y.Num? && Plain(n) == Plain(y.literal)
            case Arr(_) => y.Arr?
            case Obj(_) => y.Obj?
  {
    TypeNames();
  }

  lemma InferObject(m: Object, depth: nat)
    requires depth < MAX_DEPTH
    ensures Infer(Obj(m), depth) == ObjectSchema(Properties(m, ListedKeys(m), depth + 1))
  {
  }

  lemma InferArray(items: seq<Json>, depth: nat)
    requires depth < MAX_DEPTH
    ensures Infer(Arr(items), depth) == ArraySchema(ItemsSchema(Examined(items, depth + 1)))
  {
  }

  lemma InferScalar(v: Json, depth: nat)
    requires depth < MAX_DEPTH && !v.Obj? && !v.Arr?
    ensures Infer(v, depth) == Typed(TypeName(v))
  {
  }

  lemma InferredType(v: Json, depth: nat)
    requires depth < MAX_DEPTH
    ensures Infer(v, depth).Obj? && "type" in Infer(v, depth).fields
    ensures Infer(v, depth).fields["type"] == Str(TypeName(v))
  {
  }

  /** Inference forgets everything but the outline, and nothing of the outline. */
  lemma {:induction false} SameSchemaIffSameOutline(x: Json, y: Json, depth: nat)
    ensures Infer(x, depth) == Infer(y, depth) <==> SameOutline(x, y, depth)
    decreases MAX_DEPTH - depth, 0
  {
    if depth < MAX_DEPTH {
      InferredType(x, depth);
      InferredType(y, depth);
      SameTypeName(x, y);
      if TypeName(x) != TypeName(y) {
        assert !SameOutline(x, y, depth);
      } else if x.Obj? {
        SameObject(x.fields, y.fields, depth);
      } else if x.Arr? {
        SameArray(x.items, y.items, depth);
      } else {
        assert Infer(x, depth) == Typed(TypeName(x)) && Infer(y, depth) == Typed(TypeName(y));
      }
    }
  }

  lemma {:induction false} SameObject(m: Object, n: Object, depth: nat)
    requires depth < MAX_DEPTH
    ensures Infer(Obj(m), depth) == Infer(Obj(n), depth) <==> SameOutline(Obj(m), Obj(n), depth)
    decreases MAX_DEPTH - depth - 1, 3
  {
    hide Infer, SameOutline, SameFields, Properties, ObjectSchema;
    var p, q := Properties(m, ListedKeys(m), depth + 1), Properties(n, ListedKeys(n), depth + 1);
    SameProperties(m, n, depth + 1);
    ObjectSchemaInjective(p, q);
    InferObject(m, depth);
    InferObject(n, depth);
    ObjectOutline(m, n, depth);
  }

  lemma ObjectOutline(m: Object, n: Object, depth: nat)
    requires depth < MAX_DEPTH
    ensures SameOutline(Obj(m), Obj(n), depth) <==> SameFields(m, n, depth + 1)
  {
    hide SameFields;
  }

  lemma {:induction false} SameArray(xs: seq<Json>, ys: seq<Json>, depth: nat)
    requires depth < MAX_DEPTH
    ensures Infer(Arr(xs), depth) == Infer(Arr(ys), depth) <==> SameOutline(Arr(xs), Arr(ys), depth)
    decreases MAX_DEPTH - depth - 1, 3
  {
    hide Infer, SameOutline, SameItemOutlines, ItemsSchema, Examined, ArraySchema;
    var s, t := ItemsSchema(Examined(xs, depth + 1)), ItemsSchema(Examined(ys, depth + 1));
    SameItems(xs, ys, depth + 1);
    ArraySchemaInjective(s, t);
    InferArray(xs, depth);
    InferArray(ys, depth);
    ArrayOutline(xs, ys, depth);
  }

  lemma ArrayOutline(xs: seq<Json>, ys: seq<Json>, depth: nat)
    requires depth < MAX_DEPTH
    ensures SameOutline(Arr(xs), Arr(ys), depth) <==> SameItemOutlines(xs, ys, depth + 1)
  {
    hide SameItemOutlines;
  }

  lemma ObjectSchemaInjective(p: Object, q: Object)
    ensures ObjectSchema(p) == ObjectSchema(q) <==> p == q
  {
    assert ObjectSchema(p).fields["properties"].fields == p && ObjectSchema(q).fields["properties"].fields == q;
  }

  lemma ArraySchemaInjective(x: Json, y: Json)
    ensures ArraySchema(x) == ArraySchema(y) <==> x == y
  {
    assert ArraySchema(x).fields["items"] == x && ArraySchema(y).fields["items"] == y;
  }

  lemma {:induction false} SameProperties(m: Object, n: Object, depth: nat)
    ensures Properties(m, ListedKeys(m), depth) == Properties(n, ListedKeys(n), depth) <==> SameFields(m, n, depth)
    decreases MAX_DEPTH - depth, 1
  {
    hide Infer, SameOutline, SameFields;
    var p, q := Properties(m, ListedKeys(m), depth), Properties(n, ListedKeys(n), depth);
    PropertyKeys(m, depth);
    PropertyKeys(n, depth);
    forall k | k in KeptKeys(m) && k in KeptKeys(n)
      ensures p[k] == q[k] <==> SameOutline(m[k], n[k], depth)
    {
      SameSchemaIffSameOutline(m[k], n[k], depth);
    }
    PropertiesAgree(p, q, m, n, depth);
  }

  lemma PropertiesAgree(p: Object, q: Object, m: Object, n: Object, depth: nat)
    requires p.Keys == KeptKeys(m) && q.Keys == KeptKeys(n)
    requires forall k :: k in KeptKeys(m) && k in KeptKeys(n) ==> (p[k] == q[k] <==> SameOutline(m[k], n[k], depth))
    ensures p == q <==> SameFields(m, n, depth)
  {
    hide KeptKeys, SameOutline;
    if SameFields(m, n, depth) {
      assert p == q;
    }
  }

  lemma PropertyKeys(m: Object, depth: nat)
    ensures Properties(m, ListedKeys(m), depth).Keys == KeptKeys(m)
  {
  }

  lemma {:induction false} SameItems(xs: seq<Json>, ys: seq<Json>, depth: nat)
    ensures ItemsSchema(Examined(xs, depth)) == ItemsSchema(Examined(ys, depth)) <==> SameItemOutlines(xs, ys, depth)
    decreases MAX_DEPTH - depth, 2
  {
    if depth >= MAX_DEPTH {
      AnyAtLimit(xs, depth);
      AnyAtLimit(ys, depth);
    } else {
      TypedItems(xs, depth);
      TypedItems(ys, depth);
      ItemSchemasCovered(xs, ys, depth);
      ItemSchemasCovered(ys, xs, depth);
      SameSetSameItems(Examined(xs, depth), Examined(ys, depth));
    }
  }

  lemma SameSetSameItems(s: set<Json>, t: set<Json>)
    requires AllTyped(s) && AllTyped(t)
    ensures ItemsSchema(s) == ItemsSchema(t) <==> s <= t && t <= s
  {
    if s <= t && t <= s {
      assert s == t;
    } else if ItemsSchema(s) == ItemsSchema(t) {
      ItemsSchemaInjective(s, t);
    }
  }

  lemma AnyAtLimit(items: seq<Json>, depth: nat)
    requires depth >= MAX_DEPTH
    ensures ItemsSchema(Examined(items, depth)) == ANY
  {
    ItemsOf(items, depth);
    assert forall i :: 0 <= i < |items| ==> Infer(items[i], depth) == ANY;
    AnyItems(Examined(items, depth));
  }

  lemma {:induction false} ItemSchemasCovered(xs: seq<Json>, ys: seq<Json>, depth: nat)
    ensures Examined(xs, depth) <= Examined(ys, depth)
            <==> Covers(FirstItems(xs), FirstItems(ys), depth)
    decreases MAX_DEPTH - depth, 1
  {
    var a, b := FirstItems(xs), FirstItems(ys);
    var s := Examined(xs, depth);
    var t := Examined(ys, depth);
    ItemsOf(xs, depth);
    ItemsOf(ys, depth);
    forall i, j | 0 <= i < |a| && 0 <= j < |b|
      ensures Infer(a[i], depth) == Infer(b[j], depth) <==> SameOutline(a[i], b[j], depth)
    {
      SameSchemaIffSameOutline(a[i], b[j], depth);
    }
    if s <= t {
      forall i | 0 <= i < |a| ensures Covered(a[i], b, depth) {
        assert Infer(a[i], depth) in s;
        var j :| 0 <= j < |b| && Infer(a[i], depth) == Infer(b[j], depth);
        assert SameOutline(a[i], b[j], depth);
      }
      assert Covers(a, b, depth);
    }
    if Covers(a, b, depth) {
      forall x | x in s ensures x in t {
        var i :| 0 <= i < |a| && x == Infer(a[i], depth);
        assert Covered(a[i], b, depth);
        var j :| 0 <= j < |b| && SameOutline(a[i], b[j], depth);
      }
      assert s <= t;
    }
  }

  lemma TypedItems(items: seq<Json>, depth: nat)
    requires depth < MAX_DEPTH
    ensures AllTyped(Examined(items, depth))
  {
    forall i | 0 <= i < |items| ensures Infer(items[i], depth).Obj? {
      TypedOrAny(items[i], depth);
    }
  }

  lemma AnyItems(s: set<Json>)
    requires forall x :: x in s ==> x == ANY
    ensures ItemsSchema(s) == ANY
  {
    if s != {} { assert s == {ANY}; }
  }

  /** The schema inferred from y accepts exactly the values that fit the outline of y. */
  lemma {:induction false} AcceptsIffFits(reading: Reading, x: Json, y: Json, depth: nat)
    ensures Validates(reading, Infer(y, depth), x) <==> Fits(reading, x, y, depth)
    decreases MAX_DEPTH - depth, 0, 0
  {
    if depth >= MAX_DEPTH {
      AnyValidates(reading, x);
    } else if y.Obj? {
      ObjectAccepts(reading, x, y.fields, depth);
    } else if y.Arr? {
      ArrayAccepts(reading, x, y.items, depth);
    } else {
      TypedValidates(reading, TypeName(y), x);
      TypeNames();
    }
  }

  lemma {:induction false} ObjectAccepts(reading: Reading, x: Json, m: Object, depth: nat)
    requires depth < MAX_DEPTH
    ensures Validates(reading, Infer(Obj(m), depth), x) <==> Fits(reading, x, Obj(m), depth)
    decreases MAX_DEPTH - depth - 1, 2
  {
    var properties := Properties(m, ListedKeys(m), depth + 1);
    assert Infer(Obj(m), depth) == ObjectSchema(properties);
    ObjectValidates(reading, properties, x);
    if x.Obj? { FieldsAccepted(reading, x.fields, m, depth + 1); }
  }

  lemma {:induction false} FieldsAccepted(reading: Reading, f: Object, m: Object, depth: nat)
    ensures FieldsValidate(reading, Properties(m, ListedKeys(m), depth), f) <==> FieldsFit(reading, f, m, depth)
    decreases MAX_DEPTH - depth, 1
  {
    var p := Properties(m, ListedKeys(m), depth);
    PropertyKeys(m, depth);
    forall k | k in f && k in KeptKeys(m)
      ensures Validates(reading, p[k], f[k]) <==> Fits(reading, f[k], m[k], depth)
    {
      assert p[k] == Infer(m[k], depth);
      AcceptsIffFits(reading, f[k], m[k], depth);
    }
    FieldsAgree(reading, p, f, m, depth);
  }

  lemma FieldsAgree(reading: Reading, p: Object, f: Object, m: Object, depth: nat)
    requires p.Keys == KeptKeys(m)
    requires forall k :: k in f && k in KeptKeys(m) ==>
                           (Validates(reading, p[k], f[k]) <==> Fits(reading, f[k], m[k], depth))
    ensures FieldsValidate(reading, p, f) <==> FieldsFit(reading, f, m, depth)
  {
  }

  lemma {:induction false} ArrayAccepts(reading: Reading, x: Json, ys: seq<Json>, depth: nat)
    requires depth < MAX_DEPTH
    ensures Validates(reading, Infer(Arr(ys), depth), x) <==> Fits(reading, x, Arr(ys), depth)
    decreases MAX_DEPTH - depth - 1, 2
  {
    var items := ItemsSchema(Examined(ys, depth + 1));
    ArrayValidates(reading, items, x);
    if x.Arr? {
      forall i | 0 <= i < |x.items|
        ensures Validates(reading, items, x.items[i]) <==> FitsSome(reading, x.items[i], FirstItems(ys), depth + 1)
      {
        ItemAcceptedIffFitsSome(reading, x.items[i], ys, depth + 1);
      }
    }
  }

  lemma {:induction false} ItemAcceptedIffFitsSome(reading: Reading, x: Json, ys: seq<Json>, depth: nat)
    ensures Validates(reading, ItemsSchema(Examined(ys, depth)), x)
            <==> FitsSome(reading, x, FirstItems(ys), depth)
    decreases MAX_DEPTH - depth, 1
  {
    var schemas := Examined(ys, depth);
    ItemsOf(ys, depth);
    if FirstItems(ys) == [] {
      assert schemas == {};
      AnyValidates(reading, x);
    } else {
      assert Infer(FirstItems(ys)[0], depth) in schemas;
      ItemsValidate(reading, schemas, x);
      MemberFits(reading, x, ys, depth);
    }
  }

  /** The same statement about indices instead of members. */
  ghost predicate IndexValidates(reading: Reading, schemas: seq<Json>, v: Json) {
    exists j :: 0 <= j < |schemas| && IndexChosen(reading, schemas, j, v)
  }

  ghost predicate IndexChosen(reading: Reading, schemas: seq<Json>, j: nat, v: Json)
    requires j < |schemas|
  {
    Validates(reading, schemas[j], v)
    && (reading.ExactlyOne? ==>
          forall i :: 0 <= i < |schemas| && Validates(reading, schemas[i], v) ==> schemas[i] == schemas[j])
  }

  lemma MemberAtIndex(reading: Reading, schemas: seq<Json>, members: set<Json>, v: Json)
    requires members == set i | 0 <= i < |schemas| :: schemas[i]
    ensures MemberValidates(reading, members, v) <==> IndexValidates(reading, schemas, v)
  {
    hide Validates;
    forall j | 0 <= j < |schemas|
      ensures schemas[j] in members
      ensures MemberChosen(reading, members, schemas[j], v) <==> IndexChosen(reading, schemas, j, v)
    {
      forall i | 0 <= i < |schemas| ensures schemas[i] in members { }
    }
    if MemberValidates(reading, members, v) {
      var s :| s in members && MemberChosen(reading, members, s, v);
      var j :| 0 <= j < |schemas| && schemas[j] == s;
      assert IndexChosen(reading, schemas, j, v);
    }
    if IndexValidates(reading, schemas, v) {
      var j :| 0 <= j < |schemas| && IndexChosen(reading, schemas, j, v);
      assert MemberChosen(reading, members, schemas[j], v);
    }
  }

  lemma IndexFits(reading: Reading, schemas: seq<Json>, a: seq<Json>, v: Json, depth: nat)
    requires |schemas| == |a| && a != []
    requires forall i :: 0 <= i < |a| ==> (Validates(reading, schemas[i], v) <==> Fits(reading, v, a[i], depth))
    requires forall i, j :: 0 <= i < |a| && 0 <= j < |a| ==>
                              (schemas[i] == schemas[j] <==> SameOutline(a[i], a[j], depth))
    ensures IndexValidates(reading, schemas, v) <==> FitsSome(reading, v, a, depth)
  {
    hide Validates, Fits, SameOutline;
    forall j | 0 <= j < |a| ensures IndexChosen(reading, schemas, j, v) <==> FitsAt(reading, v, a, j, depth) {
      forall i | 0 <= i < |a|
        ensures Validates(reading, schemas[i], v) <==> Fits(reading, v, a[i], depth)
        ensures schemas[i] == schemas[j] <==> SameOutline(a[i], a[j], depth)
      {
      }
    }
  }

  lemma {:induction false} MemberFits(reading: Reading, x: Json, ys: seq<Json>, depth: nat)
    requires ys != []
    ensures MemberValidates(reading, Examined(ys, depth), x)
            <==> FitsSome(reading, x, FirstItems(ys), depth)
    decreases MAX_DEPTH - depth, 0, 1
  {
    var a := FirstItems(ys);
    var schemas := seq(|a|, i requires 0 <= i < |a| => Infer(a[i], depth));
    forall i | 0 <= i < |a|
      ensures Validates(reading, schemas[i], x) <==> Fits(reading, x, a[i], depth)
    {
      AcceptsIffFits(reading, x, a[i], depth);
    }
    forall i, j | 0 <= i < |a| && 0 <= j < |a|
      ensures schemas[i] == schemas[j] <==> SameOutline(a[i], a[j], depth)
    {
      SameSchemaIffSameOutline(a[i], a[j], depth);
    }
    IndexFits(reading, schemas, a, x, depth);
    ItemsOf(ys, depth);
    MemberAtIndex(reading, schemas, Examined(ys, depth), x);
  }

  // ------------------------------------------- an example under its own schema

  /** Nothing is cut off above the depth limit. */
  ghost predicate WithinLimits(v: Json, depth: nat)
    decreases MAX_DEPTH - depth
  {
    depth >= MAX_DEPTH ||
    match v
    case Obj(m) =>
      |m| <= MAX_PROPERTIES
      && forall k :: k in m ==> Utf8Length(k) <= MAX_KEY_BYTES && WithinLimits(m[k], depth + 1)
    case Arr(items) =>
      |items| <= MAX_ITEMS && forall i :: 0 <= i < |items| ==> WithinLimits(items[i], depth + 1)
    case _ => true
  }

  lemma AllKeysKept(m: Object)
    requires |m| <= MAX_PROPERTIES
    requires forall k :: k in m ==> Utf8Length(k) <= MAX_KEY_BYTES
    ensures KeptKeys(m) == m.Keys
  {
    assert |m.Keys| == |m|;
    assert ListedKeys(m) == Sorted(m.Keys);
  }

  /** At most one object outline, one array outline and one kind of number beside each
      other in any array. */
  ghost predicate Unmixed(v: Json, depth: nat)
    decreases MAX_DEPTH - depth
  {
    depth >= MAX_DEPTH ||
    match v
    case Obj(m) => forall k :: k in m ==> Unmixed(m[k], depth + 1)
    case Arr(items) =>
      (forall i :: 0 <= i < |items| ==> Unmixed(items[i], depth + 1))
      && forall i, j :: 0 <= i < |items| && 0 <= j < |items| ==> NoOverlap(items[i], items[j], depth + 1)
    case _ => true
  }

  ghost predicate NoOverlap(x: Json, y: Json, depth: nat) {
    (x.Obj? && y.Obj?) || (x.Arr? && y.Arr?) || (x.Num? && y.Num?) ==> SameOutline(x, y, depth)
  }

  lemma {:induction false} FitsItself(reading: Reading, v: Json, depth: nat)
    requires WithinLimits(v, depth)
    requires reading.ExactlyOne? ==> Unmixed(v, depth)
    ensures Fits(reading, v, v, depth)
    decreases MAX_DEPTH - depth, 0
  {
    if depth < MAX_DEPTH {
      match v
      case Obj(m) => ObjectFitsItself(reading, m, depth);
      case Arr(items) => ArrayFitsItself(reading, items, depth);
      case Num(n) => if Plain(n) { PlainIsIntegral(n); }
      case _ =>
    }
  }

  lemma {:induction false} ObjectFitsItself(reading: Reading, m: Object, depth: nat)
    requires depth < MAX_DEPTH && WithinLimits(Obj(m), depth)
    requires reading.ExactlyOne? ==> Unmixed(Obj(m), depth)
    ensures FieldsFit(reading, m, m, depth + 1)
    decreases MAX_DEPTH - depth - 1, 1
  {
    AllKeysKept(m);
    forall k | k in m ensures Fits(reading, m[k], m[k], depth + 1) {
      FitsItself(reading, m[k], depth + 1);
    }
  }

  lemma {:induction false} ArrayFitsItself(reading: Reading, items: seq<Json>, depth: nat)
    requires depth < MAX_DEPTH && WithinLimits(Arr(items), depth)
    requires reading.ExactlyOne? ==> Unmixed(Arr(items), depth)
    ensures Fits(reading, Arr(items), Arr(items), depth)
    decreases MAX_DEPTH - depth - 1, 1
  {
    assert FirstItems(items) == items;
    forall i | 0 <= i < |items| ensures FitsSome(reading, items[i], items, depth + 1) {
      FitsItself(reading, items[i], depth + 1);
      forall j | 0 <= j < |items| && reading.ExactlyOne? && Fits(reading, items[i], items[j], depth + 1)
        ensures SameOutline(items[j], items[i], depth + 1)
      {
        assert NoOverlap(items[j], items[i], depth + 1);
        FitsNoOverlap(reading, items[i], items[j], depth + 1);
      }
      SameSchemaIffSameOutline(items[i], items[i], depth + 1);
      assert FitsAt(reading, items[i], items, i, depth + 1);
    }
  }

  lemma FitsNoOverlap(reading: Reading, x: Json, y: Json, depth: nat)
    requires Fits(reading, x, y, depth) && NoOverlap(y, x, depth)
    ensures SameOutline(y, x, depth)
  {
  }

  /** An example within the limits satisfies its own schema, if "oneOf" is read as at
      least one; also as exactly one, if no array mixes overlapping outlines. */
  lemma InferredSchemaIsSound(reading: Reading, v: Json)
    requires WithinLimits(v, 0)
    requires reading.ExactlyOne? ==> Unmixed(v, 0)
    ensures Validates(reading, Infer(v, 0), v)
  {
    FitsItself(reading, v, 0);
    AcceptsIffFits(reading, v, v, 0);
  }

  /** Above the depth limit the property limits matter: an object with a key that is not
      kept fails its own schema under both readings. */
  lemma DroppedKeysAreRefused(reading: Reading, m: Object, key: string, depth: nat)
    requires depth < MAX_DEPTH && key in m && key !in KeptKeys(m)
    ensures !Validates(reading, Infer(Obj(m), depth), Obj(m))
  {
    assert !Fits(reading, Obj(m), Obj(m), depth);
    AcceptsIffFits(reading, Obj(m), Obj(m), depth);
  }

  /** And so do the item limits: what lies beyond the first 16 need only fit one of them. */
  lemma LongArraysExactly(reading: Reading, items: seq<Json>, depth: nat)
    requires depth < MAX_DEPTH
    ensures Validates(reading, Infer(Arr(items), depth), Arr(items)) <==>
            forall i :: 0 <= i < |items| ==> FitsSome(reading, items[i], FirstItems(items), depth + 1)
  {
    hide Validates, Infer, FitsSome;
    AcceptsIffFits(reading, Arr(items), Arr(items), depth);
  }

  /** An item that fits itself and an item of another outline breaks the exact reading. */
  lemma OverlapNeverExact(items: seq<Json>, i: nat, j: nat, depth: nat)
    requires depth < MAX_DEPTH && i < |items| && i < MAX_ITEMS && j < |items| && j < MAX_ITEMS
    requires Fits(ExactlyOne, items[i], items[i], depth + 1) && Fits(ExactlyOne, items[i], items[j], depth + 1)
    requires !SameOutline(items[i], items[j], depth + 1)
    ensures !Validates(ExactlyOne, Infer(Arr(items), depth), Arr(items))
  {
    var a := FirstItems(items);
    assert a[i] == items[i] && a[j] == items[j];
    TwoOutlinesNeverExact(items[i], a, i, j, depth + 1);
    ItemRefused(ExactlyOne, items, i, depth);
  }

  lemma ItemRefused(reading: Reading, items: seq<Json>, i: nat, depth: nat)
    requires depth < MAX_DEPTH && i < |items| && !FitsSome(reading, items[i], FirstItems(items), depth + 1)
    ensures !Validates(reading, Infer(Arr(items), depth), Arr(items))
  {
    var v := Arr(items);
    assert !Fits(reading, v, v, depth);
    AcceptsIffFits(reading, v, v, depth);
  }

  lemma TwoOutlinesNeverExact(x: Json, a: seq<Json>, i: nat, j: nat, depth: nat)
    requires i < |a| && j < |a| && Fits(ExactlyOne, x, a[i], depth) && Fits(ExactlyOne, x, a[j], depth)
    requires !SameOutline(a[i], a[j], depth)
    ensures !FitsSome(ExactlyOne, x, a, depth)
  {
    forall k | 0 <= k < |a| ensures !(SameOutline(a[i], a[k], depth) && SameOutline(a[j], a[k], depth)) {
      SameSchemaIffSameOutline(a[i], a[k], depth);
      SameSchemaIffSameOutline(a[j], a[k], depth);
      SameSchemaIffSameOutline(a[i], a[j], depth);
    }
  }

  /** The exact reading fails on every array that shows an integer literal beside a
      fractional or exponent literal, [1, 1.5] for one: the integer is both. */
  lemma IntegerBesideNumberNeverExact(items: seq<Json>, i: nat, j: nat, depth: nat)
    requires depth + 1 < MAX_DEPTH
    requires i < |items| && i < MAX_ITEMS && items[i].Num? && Plain(items[i].literal)
    requires j < |items| && j < MAX_ITEMS && items[j].Num? && !Plain(items[j].literal)
    ensures !Validates(ExactlyOne, Infer(Arr(items), depth), Arr(items))
  {
    PlainIsIntegral(items[i].literal);
    OverlapNeverExact(items, i, j, depth);
  }

  /** So does an empty object beside an object that shows a key. */
  lemma EmptyObjectBesideObjectNeverExact(items: seq<Json>, i: nat, j: nat, depth: nat)
    requires depth + 1 < MAX_DEPTH
    requires i < |items| && i < MAX_ITEMS && items[i] == Obj(map[])
    requires j < |items| && j < MAX_ITEMS && items[j].Obj? && KeptKeys(items[j].fields) != {}
    ensures !Validates(ExactlyOne, Infer(Arr(items), depth), Arr(items))
  {
    assert KeptKeys(map[]) == {};
    OverlapNeverExact(items, i, j, depth);
  }

  /** One step of the exact reading, both ways: an array whose items satisfy their own
      schemas satisfies its own iff no item fits an item of another outline. */
  lemma ExactIffNoOverlap(items: seq<Json>, depth: nat)
    requires depth < MAX_DEPTH && |items| <= MAX_ITEMS
    requires forall x :: x in items ==> Fits(ExactlyOne, x, x, depth + 1)
    ensures Validates(ExactlyOne, Infer(Arr(items), depth), Arr(items)) <==>
            forall x, y ::
              x in items && y in items && Fits(ExactlyOne, x, y, depth + 1) ==> SameOutline(x, y, depth + 1)
  {
    hide Validates, Infer, SameOutline;
    if x, y :| x in items && y in items && Fits(ExactlyOne, x, y, depth + 1) && !SameOutline(x, y, depth + 1) {
      var i :| 0 <= i < |items| && items[i] == x;
      var j :| 0 <= j < |items| && items[j] == y;
      OverlapNeverExact(items, i, j, depth);
    } else {
      forall i | 0 <= i < |items| ensures FitsSome(ExactlyOne, items[i], items, depth + 1) {
        forall j | 0 <= j < |items| && Fits(ExactlyOne, items[i], items[j], depth + 1)
          ensures SameOutline(items[j], items[i], depth + 1)
        {
          assert items[i] in items && items[j] in items;
          SameSchemaIffSameOutline(items[i], items[j], depth + 1);
          SameSchemaIffSameOutline(items[j], items[i], depth + 1);
        }
        assert items[i] in items;
        SameSchemaIffSameOutline(items[i], items[i], depth + 1);
        assert FitsAt(ExactlyOne, items[i], items, i, depth + 1);
      }
      assert FirstItems(items) == items;
      AcceptsIffFits(ExactlyOne, Arr(items), Arr(items), depth);
    }
  }

  predicate Scalar(v: Json) { !v.Obj? && !v.Arr? }

  /** For arrays of scalars the condition is plain to see: no integer literal beside a
      fractional or exponent literal of any value. */
  lemma ScalarArraysExactly(items: seq<Json>, depth: nat)
    requires depth + 1 < MAX_DEPTH && |items| <= MAX_ITEMS
    requires forall x :: x in items ==> Scalar(x)
    ensures Validates(ExactlyOne, Infer(Arr(items), depth), Arr(items)) <==>
            !exists x, y :: x in items && y in items && x.Num? && y.Num? && Plain(x.literal) && !Plain(y.literal)
  {
    hide Validates, Infer, Plain, Integral;
    forall x | x in items ensures Fits(ExactlyOne, x, x, depth + 1) {
      if x.Num? && Plain(x.literal) { PlainIsIntegral(x.literal); }
    }
    ExactIffNoOverlap(items, depth);
    if x, y :| x in items && y in items && x.Num? && y.Num? && Plain(x.literal) && !Plain(y.literal) {
      PlainIsIntegral(x.literal);
      assert Fits(ExactlyOne, x, y, depth + 1) && !SameOutline(x, y, depth + 1);
    }
  }

  lemma TwoLiterals()
    ensures IsNumberLiteral("1") && IsNumberLiteral("1.5")
  {
    assert Until("1", c => c == 'e' || c == 'E') == 1;
    assert "1"[..1] == "1";
    assert Until("1", c => c == '.') == 1;
    assert Until("1.5", c => c == 'e' || c == 'E') == 3;
    assert "1.5"[..3] == "1.5";
    assert Until("1.5", c => c == '.') == 1;
    assert "1.5"[..1] == "1" && "1.5"[2..] == "5";
  }

  /** [1, 1.5] satisfies its own schema only if "oneOf" is read as at least one. */
  lemma OneAndOneAndAHalf()
    ensures IsNumberLiteral("1") && IsNumberLiteral("1.5")
    ensures var v := Arr([Num("1"), Num("1.5")]);
            Validates(AtLeastOne, Infer(v, 0), v) && !Validates(ExactlyOne, Infer(v, 0), v)
  {
    hide Validates, Infer, IsNumberLiteral, WithinLimits;
    TwoLiterals();
    var items := [Num("1"), Num("1.5")];
    assert items[0] == Num("1") && items[1] == Num("1.5");
    assert "1.5"[1] == '.';
    assert Plain("1") && !Plain("1.5");
    ScalarArraysExactly(items, 0);
    assert items[0] in items && items[1] in items;
    assert WithinLimits(Arr(items), 0) by { ScalarsWithin(items); }
    InferredSchemaIsSound(AtLeastOne, Arr(items));
  }

  lemma ScalarsWithin(items: seq<Json>)
    requires |items| <= MAX_ITEMS && forall x :: x in items ==> Scalar(x)
    ensures WithinLimits(Arr(items), 0)
  {
    forall i | 0 <= i < |items| ensures WithinLimits(items[i], 1) {
      assert items[i] in items;
    }
  }

  /** Beside a string, any number has only the fractional literal to fit. */
  lemma NumberBesideString(x: Json, t: string, q: Literal, depth: nat)
    requires x.Num? && !Plain(q) && depth < MAX_DEPTH
    ensures FitsSome(ExactlyOne, x, [Str(t), Num(q)], depth)
  {
    var b := [Str(t), Num(q)];
    assert b[0] == Str(t) && b[1] == Num(q);
    forall i | 0 <= i < |b| && Fits(ExactlyOne, x, b[i], depth) ensures SameOutline(b[i], b[1], depth) {
      assert i == 0 || i == 1;
    }
    assert FitsAt(ExactlyOne, x, b, 1, depth);
  }

  lemma StringBesideNumber(t: string, q: Literal, depth: nat)
    requires depth < MAX_DEPTH
    ensures FitsSome(ExactlyOne, Str(t), [Str(t), Num(q)], depth)
  {
    var b := [Str(t), Num(q)];
    assert b[0] == Str(t) && b[1] == Num(q);
    forall i | 0 <= i < |b| && Fits(ExactlyOne, Str(t), b[i], depth) ensures SameOutline(b[i], b[0], depth) {
      assert i == 0 || i == 1;
    }
    assert FitsAt(ExactlyOne, Str(t), b, 0, depth);
  }

  lemma FitsStringAndNumber(x: Json, t: string, q: Literal)
    requires !Plain(q) && (x.Num? || x == Str(t))
    ensures Fits(ExactlyOne, Arr([x, Num(q)]), Arr([Str(t), Num(q)]), 1)
  {
    hide FitsSome, Plain;
    var a, b := [x, Num(q)], [Str(t), Num(q)];
    assert FirstItems(b) == b;
    forall i | 0 <= i < |a| ensures FitsSome(ExactlyOne, a[i], b, 2) {
      if a[i].Num? { NumberBesideString(a[i], t, q, 2); } else { StringBesideNumber(t, q, 2); }
    }
  }

  lemma StringAmongNumbers(t: string, p: Literal, q: Literal)
    ensures !Fits(ExactlyOne, Arr([Str(t), Num(q)]), Arr([Num(p), Num(q)]), 1)
  {
    var a, b := [Num(p), Num(q)], [Str(t), Num(q)];
    assert FirstItems(a) == a && b[0] == Str(t);
    forall j | 0 <= j < |a| ensures !FitsAt(ExactlyOne, b[0], a, j, 2) {
      assert a[j].Num?;
    }
    assert !FitsSome(ExactlyOne, b[0], a, 2);
  }

  lemma NumbersRefuseThemselves(p: Literal, q: Literal)
    requires Plain(p) && !Plain(q)
    ensures !Validates(ExactlyOne, Infer(Arr([Num(p), Num(q)]), 1), Arr([Num(p), Num(q)]))
    ensures !Fits(ExactlyOne, Arr([Num(p), Num(q)]), Arr([Num(p), Num(q)]), 1)
  {
    hide Validates, Infer, Fits, Plain;
    var a := [Num(p), Num(q)];
    assert a[0] in a && a[1] in a && a[0] == Num(p) && a[1] == Num(q);
    ScalarArraysExactly(a, 1);
    AcceptsIffFits(ExactlyOne, Arr(a), Arr(a), 1);
  }

  /** An item can satisfy a sibling's schema and not its own, and the array that holds
      both still satisfies its own, strictly. */
  lemma SiblingsCanStandIn(p: Literal, q: Literal, t: string)
    requires Plain(p) && !Plain(q)
    ensures var first, second := Arr([Num(p), Num(q)]), Arr([Str(t), Num(q)]);
            && Validates(ExactlyOne, Infer(Arr([first, second]), 0), Arr([first, second]))
            && Validates(ExactlyOne, Infer(second, 1), first)
            && !Validates(ExactlyOne, Infer(first, 1), first)
  {
    hide Validates, Infer, Fits, SameOutline, Plain;
    var first, second := Arr([Num(p), Num(q)]), Arr([Str(t), Num(q)]);
    var items := [first, second];
    assert items[0] == first && items[1] == second;
    NumbersRefuseThemselves(p, q);
    FitsStringAndNumber(Num(p), t, q);
    FitsStringAndNumber(Str(t), t, q);
    StringAmongNumbers(t, p, q);
    AcceptsIffFits(ExactlyOne, first, second, 1);
    SameSchemaIffSameOutline(second, second, 1);
    forall i | 0 <= i < |items| ensures FitsSome(ExactlyOne, items[i], items, 1) {
      forall j | 0 <= j < |items| && Fits(ExactlyOne, items[i], items[j], 1)
        ensures SameOutline(items[j], items[1], 1)
      {
        assert j == 1;
      }
      assert FitsAt(ExactlyOne, items[i], items, 1, 1);
    }
    assert FirstItems(items) == items;
    LongArraysExactly(ExactlyOne, items, 0);
  }

  /** [[1, 1.5], ["a", 1.5]] for one. */
  lemma SiblingStandsInForOne()
    ensures IsNumberLiteral("1") && IsNumberLiteral("1.5")
    ensures var first := Arr([Num("1"), Num("1.5")]);
            var v := Arr([first, Arr([Str("a"), Num("1.5")])]);
            Validates(ExactlyOne, Infer(v, 0), v) && !Validates(ExactlyOne, Infer(first, 1), first)
  {
    hide Validates, Infer, IsNumberLiteral;
    TwoLiterals();
    assert "1.5"[1] == '.';
    assert Plain("1") && !Plain("1.5");
    SiblingsCanStandIn("1", "1.5", "a");
  }

  // ------------------------------------------------------------ what is forgotten

  /** The same document up to its strings, booleans and numbers of the same kind. */
  ghost predicate SameSkeleton(v: Json, w: Json) {
    match v
    case Obj(m) => w.Obj? && m.Keys == w.fields.Keys && forall k :: k in m ==> SameSkeleton(m[k], w.fields[k])
    case Arr(xs) => w.Arr? && |xs| == |w.items| && forall i :: 0 <= i < |xs| ==> SameSkeleton(xs[i], w.items[i])
    case Num(n) => w.Num? && Plain(n) == Plain(w.literal)
    case Str(_) => w.Str?
    case Bool(_) => w.Bool?
    case Null => w.Null?
  }

  lemma {:induction false} SkeletonFixesOutline(v: Json, w: Json, depth: nat)
    requires SameSkeleton(v, w)
    ensures SameOutline(v, w, depth)
    decreases MAX_DEPTH - depth, 0
  {
    if depth < MAX_DEPTH {
      match v
      case Obj(m) => SkeletonFixesFields(m, w.fields, depth + 1);
      case Arr(xs) =>
        assert SameItemOutlines(xs, w.items, depth + 1) by {
          SkeletonCovers(xs, w.items, depth + 1);
        }
      case _ =>
    }
  }

  lemma {:induction false} SkeletonFixesFields(m: Object, n: Object, depth: nat)
    requires m.Keys == n.Keys && forall k :: k in m ==> SameSkeleton(m[k], n[k])
    ensures SameFields(m, n, depth)
    decreases MAX_DEPTH - depth, 1
  {
    assert ListedKeys(m) == ListedKeys(n);
    forall k | k in m ensures SameOutline(m[k], n[k], depth) {
      SkeletonFixesOutline(m[k], n[k], depth);
    }
  }

  lemma {:induction false} SkeletonCovers(xs: seq<Json>, ys: seq<Json>, depth: nat)
    requires |xs| == |ys| && forall i :: 0 <= i < |xs| ==> SameSkeleton(xs[i], ys[i])
    ensures Covers(FirstItems(xs), FirstItems(ys), depth) && Covers(FirstItems(ys), FirstItems(xs), depth)
    decreases MAX_DEPTH - depth, 1
  {
    var a, b := FirstItems(xs), FirstItems(ys);
    forall i | 0 <= i < |a| ensures SameOutline(a[i], b[i], depth) && SameOutline(b[i], a[i], depth) {
      SkeletonFixesOutline(xs[i], ys[i], depth);
      SameSchemaIffSameOutline(a[i], b[i], depth);
      SameSchemaIffSameOutline(b[i], a[i], depth);
    }
    forall i | 0 <= i < |a| ensures Covered(a[i], b, depth) && Covered(b[i], a, depth) {
      assert SameOutline(a[i], b[i], depth) && SameOutline(b[i], a[i], depth);
    }
  }

  /** No scalar value of the example reaches the schema. */
  lemma ScalarsDoNotReachTheSchema(v: Json, w: Json, depth: nat)
    requires SameSkeleton(v, w)
    ensures Infer(v, depth) == Infer(w, depth)
  {
    SkeletonFixesOutline(v, w, depth);
    SameSchemaIffSameOutline(v, w, depth);
  }

  /** Order and repetition of the examined items are irrelevant. */
  lemma ItemOrderIsIrrelevant(xs: seq<Json>, ys: seq<Json>, depth: nat)
    requires forall x :: x in FirstItems(xs) <==> x in FirstItems(ys)
    ensures Infer(Arr(xs), depth) == Infer(Arr(ys), depth)
  {
    ItemsCovered(FirstItems(xs), FirstItems(ys), depth + 1);
    ItemsCovered(FirstItems(ys), FirstItems(xs), depth + 1);
    SameSchemaIffSameOutline(Arr(xs), Arr(ys), depth);
  }

  lemma ItemsCovered(a: seq<Json>, b: seq<Json>, depth: nat)
    requires forall x :: x in a ==> x in b
    ensures Covers(a, b, depth)
  {
    forall i | 0 <= i < |a| ensures Covered(a[i], b, depth) {
      assert a[i] in a;
      var j :| 0 <= j < |b| && b[j] == a[i];
      SameSchemaIffSameOutline(a[i], b[j], depth);
    }
  }
}
