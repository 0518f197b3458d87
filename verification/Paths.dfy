/** OpenAPI path templates and the choice of the path item for a request. */
module Paths {
  import opened Text
  import opened Json

  predicate IsSlash(c: char) { c == '/' }

  function TrimSlashes(s: string): string {
    TrimRight(TrimLeft(s, IsSlash), IsSlash)
  }

  function Segments(path: string): (parts: seq<string>)
    ensures |parts| >= 1
    ensures forall i :: 0 <= i < |parts| ==> '/' !in parts[i]
  {
    Split(TrimSlashes(path), '/')
  }

  /** A {name} segment; "{}" is a literal. */
  predicate IsSlot(part: string) {
    HasPrefix(part, "{") && HasSuffix(part, "}") && |part| > 2
  }

  predicate SegmentMatches(part: string, actual: string) {
    if IsSlot(part) then actual != "" else part == actual
  }

  predicate Matches(template: string, actual: string) {
    var t, a := Segments(template), Segments(actual);
    |t| == |a| && forall i :: 0 <= i < |t| ==> SegmentMatches(t[i], a[i])
  }

  /** The equality shortcut of the source changes nothing. */
  lemma MatchesItself(path: string)
    ensures Matches(path, path)
  {
  }

  method PathTemplateMatches(template: string, actual: string) returns (matches: bool)
    ensures matches == Matches(template, actual)
  {
    if template == actual {
      return true;
    }
    var templateParts, actualParts := Segments(template), Segments(actual);
    if |templateParts| != |actualParts| {
      return false;
    }
    for index := 0 to |templateParts|
      invariant forall i :: 0 <= i < index ==> SegmentMatches(templateParts[i], actualParts[i])
    {
      var part := templateParts[index];
      if IsSlot(part) {
        if actualParts[index] == "" {
          return false;
        }
        continue;
      }
      if part != actualParts[index] {
        return false;
      }
    }
    return true;
  }

  // ------------------------------------------------- matching is substitution

  /** One non-empty, slash-free value for every slot, by position. */
  predicate Assigns(template: seq<string>, values: seq<string>) {
    |values| == |template|
    && forall i :: 0 <= i < |template| && IsSlot(template[i]) ==> values[i] != "" && '/' !in values[i]
  }

  function Substitute(template: seq<string>, values: seq<string>): (path: seq<string>)
    requires |values| == |template|
    ensures |path| == |template|
    ensures forall i :: 0 <= i < |path| ==> path[i] == if IsSlot(template[i]) then values[i] else template[i]
  {
    seq(|template|, i requires 0 <= i < |template| => if IsSlot(template[i]) then values[i] else template[i])
  }

  lemma MatchesIffSubstitutes(template: string, actual: string)
    ensures Matches(template, actual) <==>
            exists values :: Assigns(Segments(template), values)
              && Join(Substitute(Segments(template), values), '/') == TrimSlashes(actual)
  {
    var t, a := Segments(template), Segments(actual);
    if Matches(template, actual) {
      assert Assigns(t, a);
      assert Substitute(t, a) == a;
      JoinSplit(TrimSlashes(actual), '/');
    }
    if values :| Assigns(t, values) && Join(Substitute(t, values), '/') == TrimSlashes(actual) {
      SplitJoin(Substitute(t, values), '/');
      assert a == Substitute(t, values);
    }
  }

  // ------------------------------------------------------------ choosing an item

  datatype Route = Route(path: string, item: Object)

  function Requested(targetPath: string): string {
    if targetPath == "" then "/" else targetPath
  }

  /** The keys that match the path and hold an object. */
  function Candidates(paths: Object, path: string): set<string> {
    set k | k in paths && paths[k].Obj? && Matches(k, path)
  }

  /** The exact key if it holds an object, otherwise the least candidate. */
  ghost function FindPath(paths: Object, targetPath: string): Option<Route> {
    var path := Requested(targetPath);
    if path in paths && paths[path].Obj? then Some(Route(path, paths[path].fields))
    else if Candidates(paths, path) == {} then None
    else
      LeastExists(Candidates(paths, path));
      var k :| IsLeast(k, Candidates(paths, path));
      Some(Route(k, paths[k].fields))
  }

  lemma FindPathIs(paths: Object, targetPath: string, k: string)
    requires var path := Requested(targetPath); !(path in paths && paths[path].Obj?)
    requires IsLeast(k, Candidates(paths, Requested(targetPath)))
    ensures FindPath(paths, targetPath) == Some(Route(k, paths[k].fields))
  {
    var candidates := Candidates(paths, Requested(targetPath));
    forall j | IsLeast(j, candidates) ensures j == k { LeastUnique(j, k, candidates); }
  }

  lemma FirstIsLeast(keys: seq<string>, n: nat, candidates: set<string>)
    requires Ascending(keys) && n < |keys| && keys[n] in candidates
    requires forall k :: k in candidates ==> k in keys
    requires forall i :: 0 <= i < n ==> keys[i] !in candidates
    ensures IsLeast(keys[n], candidates)
  {
    hide Less;
    forall k | k in candidates && k != keys[n] ensures Less(keys[n], k) {
      assert k in keys;
      var j :| 0 <= j < |keys| && keys[j] == k;
    }
  }

  method FindOpenAPIPath(paths: Object, targetPath: string) returns (route: Option<Route>)
    ensures route == FindPath(paths, targetPath)
    ensures var path, candidates := Requested(targetPath), Candidates(paths, Requested(targetPath));
            && (route.None? <==> candidates == {})
            && (route.Some? ==> route.value.path in candidates && paths[route.value.path] == Obj(route.value.item))
            && (route.Some? && path in candidates ==> route.value.path == path)
            && (route.Some? && path !in candidates ==> IsLeast(route.value.path, candidates))
  {
    hide Less, Matches;
    if FindPath(paths, targetPath).Some? { FoundPathIsBest(paths, targetPath); }
    var path := Requested(targetPath);
    if path in paths && paths[path].Obj? {
      MatchesItself(path);
      assert path in Candidates(paths, path);
      return Some(Route(path, paths[path].fields));
    }
    var keys := Sorted(paths.Keys);
    SortedAscending(paths.Keys);
    for n := 0 to |keys|
      invariant forall i :: 0 <= i < n ==> keys[i] !in Candidates(paths, path)
    {
      var key := keys[n];
      var matches := PathTemplateMatches(key, path);
      if matches {
        if paths[key].Obj? {
          FirstIsLeast(keys, n, Candidates(paths, path));
          FindPathIs(paths, targetPath, key);
          return Some(Route(key, paths[key].fields));
        }
      }
    }
    forall k | k in paths ensures k !in Candidates(paths, path) {
      assert k in keys;
    }
    assert Candidates(paths, path) == {};
    return None;
  }

  /** The choice is a documented item for the path, and the least unless exact. */
  lemma FoundPathIsBest(paths: Object, targetPath: string)
    requires FindPath(paths, targetPath).Some?
    ensures var path, route := Requested(targetPath), FindPath(paths, targetPath).value;
            && route.path in Candidates(paths, path) && paths[route.path] == Obj(route.item)
            && (route.path == path
                || (path !in Candidates(paths, path) && IsLeast(route.path, Candidates(paths, path))))
  {
    var path := Requested(targetPath);
    if !(path in paths && paths[path].Obj?) {
      LeastExists(Candidates(paths, path));
      var k :| IsLeast(k, Candidates(paths, path));
      FindPathIs(paths, targetPath, k);
    }
  }

  // -------------------------------------------------------- what a segment matches

  /** A name in braces matches every non-empty segment. */
  lemma BracedNamesMatch(name: string, actual: string)
    requires name != ""
    ensures SegmentMatches("{" + name + "}", actual) <==> actual != ""
  {
    var part := "{" + name + "}";
    assert part[..1] == "{" && part[|part| - 1..] == "}";
  }

  /** Any other segment, "{}" included, matches only itself. */
  lemma OthersMatchThemselves(part: string, actual: string)
    requires !exists name :: name != "" && part == "{" + name + "}"
    ensures SegmentMatches(part, actual) <==> part == actual
  {
    if IsSlot(part) { SlotShape(part); }
  }

  lemma SlotShape(part: string)
    requires IsSlot(part)
    ensures part[1..|part| - 1] != "" && part == "{" + part[1..|part| - 1] + "}"
  {
    assert part[..1] == "{" && part[|part| - 1..] == "}";
  }

  /** The path that is matched has neither slashes in front nor behind; inner ones stay. */
  lemma SlashesAreTrimmed(path: string) returns (before: nat, after: nat)
    ensures before <= after <= |path| && TrimSlashes(path) == path[before..after]
    ensures forall i :: 0 <= i < before || after <= i < |path| ==> path[i] == '/'
    ensures before < after ==> path[before] != '/' && path[after - 1] != '/'
  {
    hide TrimLeft, TrimRight;
    TrimLeftMeans(path, IsSlash);
    var t := TrimLeft(path, IsSlash);
    before := |path| - |t|;
    TrimRightMeans(t, IsSlash);
    after := before + |TrimRight(t, IsSlash)|;
    assert path[before..after] == t[..after - before];
    assert forall i :: 0 <= i < |t| ==> t[i] == path[before + i];
    assert forall i :: after <= i < |path| ==> path[i] == t[i - before];
  }

  /** A key is a candidate iff it holds an object and its trimmed segments match those of
      the request, an empty request path being "/". */
  lemma CandidatesAre(paths: Object, targetPath: string, k: string)
    ensures k in Candidates(paths, Requested(targetPath)) <==>
            && k in paths && paths[k].Obj?
            && var t, a := Split(TrimSlashes(k), '/'), Split(TrimSlashes(targetPath), '/');
               |t| == |a| && forall i :: 0 <= i < |t| ==> SegmentMatches(t[i], a[i])
  {
    assert TrimSlashes("/") == TrimSlashes("") by {
      assert "/"[1..] == "";
    }
  }

  /** The requested path itself, "/" if it is empty, is preferred to every template. */
  lemma ExactKeyWins(paths: Object, targetPath: string)
    ensures targetPath != "" && targetPath in paths && paths[targetPath].Obj? ==>
              FindPath(paths, targetPath) == Some(Route(targetPath, paths[targetPath].fields))
    ensures "/" in paths && paths["/"].Obj? ==> FindPath(paths, "") == Some(Route("/", paths["/"].fields))
  {
  }
}
