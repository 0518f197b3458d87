/** The bounded search for a key anywhere inside a value. */
module KeySearch {
  import opened Text
  import opened Json

  const MAX_STEPS := 6
  const MAX_INDEX := 64

  predicate ContainsNestedKey(v: Json, wanted: string, depth: nat)
    decreases MAX_STEPS + 1 - depth
  {
    if depth > MAX_STEPS then false
    else
      match v
      case Obj(m) => exists k :: k in m && (k == wanted || ContainsNestedKey(m[k], wanted, depth + 1))
      case Arr(items) =>
        var limit := if |items| > MAX_INDEX then MAX_INDEX else |items|;
        exists i :: 0 <= i < limit && ContainsNestedKey(items[i], wanted, depth + 1)
      case _ => false
  }

  /** A step to a child: through a key, or to one of the first 64 items. */
  datatype Step = Key(k: string) | Item(i: nat)

  function Child(v: Json, step: Step): Option<Json> {
    match step
    case Key(k) => if v.Obj? && k in v.fields then Some(v.fields[k]) else None
    case Item(i) => if v.Arr? && i < |v.items| && i < MAX_INDEX then Some(v.items[i]) else None
  }

  /** Walking the steps from v ends at an object that has the key. */
  predicate LeadsToKey(v: Json, path: seq<Step>, wanted: string)
    decreases |path|
  {
    if path == [] then v.Obj? && wanted in v.fields
    else Child(v, path[0]).Some? && LeadsToKey(Child(v, path[0]).value, path[1..], wanted)
  }

  ghost predicate Reachable(v: Json, wanted: string, steps: int) {
    exists path :: |path| <= steps && LeadsToKey(v, path, wanted)
  }

  lemma ReachableThrough(v: Json, wanted: string, steps: int, step: Step)
    requires Child(v, step).Some? && Reachable(Child(v, step).value, wanted, steps - 1)
    ensures Reachable(v, wanted, steps)
  {
    var path :| |path| <= steps - 1 && LeadsToKey(Child(v, step).value, path, wanted);
    assert ([step] + path)[1..] == path;
    assert LeadsToKey(v, [step] + path, wanted);
  }

  /** The search finds the key iff it occurs in an object at most six steps away. */
  lemma {:induction false} SearchIsExact(v: Json, wanted: string, depth: nat)
    ensures ContainsNestedKey(v, wanted, depth) <==> Reachable(v, wanted, 6 - depth)
    decreases MAX_STEPS + 1 - depth
  {
    if depth <= MAX_STEPS {
      if ContainsNestedKey(v, wanted, depth) { FoundIsReachable(v, wanted, depth); }
      if Reachable(v, wanted, MAX_STEPS - depth) { ReachableIsFound(v, wanted, depth); }
    }
  }

  lemma {:induction false} FoundIsReachable(v: Json, wanted: string, depth: nat)
    requires depth <= MAX_STEPS && ContainsNestedKey(v, wanted, depth)
    ensures Reachable(v, wanted, MAX_STEPS - depth)
    decreases MAX_STEPS + 1 - depth, 0
  {
    if v.Obj? && wanted in v.fields {
      assert LeadsToKey(v, [], wanted);
    } else if v.Obj? {
      var k :| k in v.fields && (k == wanted || ContainsNestedKey(v.fields[k], wanted, depth + 1));
      SearchIsExact(v.fields[k], wanted, depth + 1);
      ReachableThrough(v, wanted, MAX_STEPS - depth, Key(k));
    } else {
      var i :| 0 <= i < |v.items| && i < MAX_INDEX && ContainsNestedKey(v.items[i], wanted, depth + 1);
      SearchIsExact(v.items[i], wanted, depth + 1);
      ReachableThrough(v, wanted, MAX_STEPS - depth, Item(i));
    }
  }

  lemma {:induction false} ReachableIsFound(v: Json, wanted: string, depth: nat)
    requires depth <= MAX_STEPS && Reachable(v, wanted, MAX_STEPS - depth)
    ensures ContainsNestedKey(v, wanted, depth)
    decreases MAX_STEPS + 1 - depth, 0
  {
    var path :| |path| <= MAX_STEPS - depth && LeadsToKey(v, path, wanted);
    if path == [] {
    } else {
      var child := Child(v, path[0]).value;
      assert LeadsToKey(child, path[1..], wanted);
      assert Reachable(child, wanted, MAX_STEPS - (depth + 1));
      SearchIsExact(child, wanted, depth + 1);
    }
  }

  /** In an array the search looks at the first 64 items, one step down, and no further. */
  lemma OnlySixtyFourItems(items: seq<Json>, wanted: string, depth: nat)
    requires depth <= 6
    ensures ContainsNestedKey(Arr(items), wanted, depth) <==>
            exists i :: 0 <= i < |items| && i < 64 && ContainsNestedKey(items[i], wanted, depth + 1)
  {
  }

  /** In an object it looks at the keys themselves and then one step down each. */
  lemma EveryKeyIsSeen(m: Object, wanted: string, depth: nat)
    requires depth <= 6
    ensures ContainsNestedKey(Obj(m), wanted, depth) <==>
            wanted in m || exists k :: k in m && ContainsNestedKey(m[k], wanted, depth + 1)
  {
  }

  lemma ScalarsHoldNoKey(v: Json, wanted: string, depth: nat)
    requires (!v.Obj? && !v.Arr?) || depth > 6
    ensures !ContainsNestedKey(v, wanted, depth)
  {
  }
}
