/** Local references (JSON Pointer, RFC 6901), their bounded resolution, and the
    bounded test that a schema is concrete. */
module References {
  import opened Text
  import opened Json

  const MAX_HOPS := 8

  // ----------------------------------------------------------- pointer tokens

  /** strings.ReplaceAll for a two-character pattern and a one-character result. */
  function ReplaceAll(s: string, a: char, b: char, to: char): string {
    if s == "" then ""
    else if |s| >= 2 && s[0] == a && s[1] == b then [to] + ReplaceAll(s[2..], a, b, to)
    else [s[0]] + ReplaceAll(s[1..], a, b, to)
  }

  /** The two passes of the source: "~1" first, then "~0". */
  function Unescape(token: string): string {
    ReplaceAll(ReplaceAll(token, '~', '1', '/'), '~', '0', '~')
  }

  /** A single left-to-right decoder. */
  function Decode(s: string): string {
    if s == "" then ""
    else if |s| >= 2 && s[0] == '~' && s[1] == '1' then ['/'] + Decode(s[2..])
    else if |s| >= 2 && s[0] == '~' && s[1] == '0' then ['~'] + Decode(s[2..])
    else [s[0]] + Decode(s[1..])
  }

  /** Section 4 of RFC 6901, read backwards. */
  function EscapeToken(key: string): (token: string)
    ensures '/' !in token
  {
    if key == "" then ""
    else if key[0] == '~' then "~0" + EscapeToken(key[1..])
    else if key[0] == '/' then "~1" + EscapeToken(key[1..])
    else [key[0]] + EscapeToken(key[1..])
  }

  lemma ReplaceFirst(s: string)
    ensures var t := ReplaceAll(s, '~', '1', '/');
            (t == "" <==> s == "") && (s != "" && t[0] == '0' ==> s[0] == '0')
  {
  }

  lemma ReplaceCons(c: char, s: string, a: char, b: char, to: char)
    requires c != a || s == "" || s[0] != b
    ensures ReplaceAll([c] + s, a, b, to) == [c] + ReplaceAll(s, a, b, to)
  {
    assert ([c] + s)[1..] == s;
  }

  lemma ReplacePair(s: string, a: char, b: char, to: char)
    ensures ReplaceAll([a, b] + s, a, b, to) == [to] + ReplaceAll(s, a, b, to)
  {
    assert ([a, b] + s)[2..] == s;
  }

  /** The two passes never interfere: together they are the single decoder. */
  lemma {:induction false} TwoPassesDecode(s: string)
    ensures Unescape(s) == Decode(s)
  {
    if s == "" {
    } else {
      var one := ReplaceAll(s[1..], '~', '1', '/');
      ReplaceFirst(s[1..]);
      if |s| >= 2 && s[0] == '~' && s[1] == '1' {
        ReplaceCons('/', ReplaceAll(s[2..], '~', '1', '/'), '~', '0', '~');
        TwoPassesDecode(s[2..]);
      } else if |s| >= 2 && s[0] == '~' && s[1] == '0' {
        var two := ReplaceAll(s[2..], '~', '1', '/');
        assert s[1..][1..] == s[2..];
        assert one == ['0'] + two;
        assert ['~'] + one == ['~', '0'] + two;
        ReplacePair(two, '~', '0', '~');
        TwoPassesDecode(s[2..]);
      } else {
        ReplaceCons(s[0], one, '~', '0', '~');
        TwoPassesDecode(s[1..]);
      }
    }
  }

  lemma {:induction false} DecodeEscape(key: string)
    ensures Decode(EscapeToken(key)) == key
  {
    if key == "" {
    } else {
      var rest := EscapeToken(key[1..]);
      DecodeEscape(key[1..]);
      var token := EscapeToken(key);
      if key[0] == '~' || key[0] == '/' {
        assert token[2..] == rest;
      } else {
        assert token[1..] == rest;
      }
      assert key == [key[0]] + key[1..];
    }
  }

  // ---------------------------------------------------------------- resolution

  /** Descend from a value along object keys. */
  function At(v: Json, path: seq<string>): Option<Json>
    decreases |path|
  {
    if path == [] then Some(v)
    else if !v.Obj? || path[0] !in v.fields then None
    else At(v.fields[path[0]], path[1..])
  }

  function Tokens(s: string): seq<string> {
    var raw := Split(s, '/');
    seq(|raw|, i requires 0 <= i < |raw| => Unescape(raw[i]))
  }

  /** Where a local reference leads. None: the object has none, or it dangles, and
      the object stands for itself. */
  function Target(doc: Object, o: Object): Option<Json> {
    var ref := StringField(o, "$ref");
    if ref == "" || !HasPrefix(ref, "#/") then None
    else At(Obj(doc), Tokens(ref[2..]))
  }

  /** Follow local references, eight hops at most from depth 0. */
  function Resolve(doc: Object, raw: Json, depth: nat): Option<Object>
    decreases MAX_HOPS + 1 - depth
  {
    if !raw.Obj? || depth > MAX_HOPS then None
    else
      match Target(doc, raw.fields)
      case None => Some(raw.fields)
      case Some(target) => Resolve(doc, target, depth + 1)
  }

  /** The reference that spells a path of object keys. */
  function Pointer(path: seq<string>): string
    requires path != []
  {
    "#/" + Join(Tokenized(path), '/')
  }

  function Tokenized(path: seq<string>): (tokens: seq<string>)
    ensures |tokens| == |path|
    ensures forall i :: 0 <= i < |path| ==> tokens[i] == EscapeToken(path[i])
  {
    seq(|path|, i requires 0 <= i < |path| => EscapeToken(path[i]))
  }

  lemma TokensOfPointer(path: seq<string>)
    requires path != []
    ensures HasPrefix(Pointer(path), "#/") && Tokens(Pointer(path)[2..]) == path
  {
    var tokens := Tokenized(path);
    assert Pointer(path)[..2] == "#/" && Pointer(path)[2..] == Join(tokens, '/');
    SplitJoin(tokens, '/');
    forall i | 0 <= i < |path| ensures Unescape(tokens[i]) == path[i] {
      TwoPassesDecode(tokens[i]);
      DecodeEscape(path[i]);
    }
  }

  /** A printed reference leads to what is at its path: that object, if it carries no
      live reference of its own; the next one, if it does; nothing, if the path ends
      at anything but an object; and the referring object itself, if the path dangles. */
  lemma PointerLeadsToItsPath(doc: Object, path: seq<string>, o: Object, depth: nat)
    requires path != [] && depth < 8
    requires "$ref" in o && o["$ref"] == Str(Pointer(path))
    ensures Resolve(doc, Obj(o), depth) ==
            match At(Obj(doc), path)
            case None => Some(o)
            case Some(v) =>
              if !v.Obj? then None
              else if Target(doc, v.fields).None? then Some(v.fields)
              else Resolve(doc, v, depth + 1)
  {
    TokensOfPointer(path);
    assert Target(doc, o) == At(Obj(doc), path);
  }

  // ------------------------------------------------------------- chains of hops

  /** The value reached after exactly n hops from raw; None once the chain has ended. */
  function After(doc: Object, raw: Json, n: nat): Option<Json>
    decreases n
  {
    if n == 0 then Some(raw)
    else if !raw.Obj? then None
    else match Target(doc, raw.fields)
      case None => None
      case Some(target) => After(doc, target, n - 1)
  }

  /** The chain from raw ends at the object o after exactly n hops. */
  predicate EndsAfter(doc: Object, raw: Json, n: nat, o: Object) {
    After(doc, raw, n) == Some(Obj(o)) && Target(doc, o).None?
  }

  lemma {:induction false} ResolveFollows(doc: Object, raw: Json, depth: nat, o: Object)
    requires depth <= MAX_HOPS
    ensures Resolve(doc, raw, depth) == Some(o) <==>
            exists n :: 0 <= n <= MAX_HOPS - depth && EndsAfter(doc, raw, n, o)
    decreases MAX_HOPS - depth
  {
    if raw.Obj? && Target(doc, raw.fields).Some? {
      var target := Target(doc, raw.fields).value;
      if depth < MAX_HOPS {
        ResolveFollows(doc, target, depth + 1, o);
      }
      forall n | 1 <= n ensures EndsAfter(doc, raw, n, o) <==> EndsAfter(doc, target, n - 1, o) {
      }
      if depth < MAX_HOPS && Resolve(doc, raw, depth) == Some(o) {
        var n :| 0 <= n <= MAX_HOPS - depth - 1 && EndsAfter(doc, target, n, o);
        assert EndsAfter(doc, raw, n + 1, o);
      }
    } else {
      assert EndsAfter(doc, raw, 0, o) <==> raw == Obj(o);
      forall n | 1 <= n ensures !EndsAfter(doc, raw, n, o) {
      }
    }
  }

  lemma {:induction false} AfterStep(doc: Object, raw: Json, m: nat, n: nat)
    requires After(doc, raw, m).Some?
    ensures After(doc, raw, m + n) == After(doc, After(doc, raw, m).value, n)
    decreases m
  {
    if m > 0 {
      AfterStep(doc, Target(doc, raw.fields).value, m - 1, n);
    }
  }

  lemma NothingAfterTheEnd(doc: Object, o: Object, n: nat)
    requires Target(doc, o).None? && n > 0
    ensures After(doc, Obj(o), n) == None
  {
  }

  /** The end of a chain is unique. */
  lemma EndUnique(doc: Object, raw: Json, m: nat, n: nat, o: Object, p: Object)
    requires EndsAfter(doc, raw, m, o) && EndsAfter(doc, raw, n, p)
    ensures m == n && o == p
  {
    if m < n {
      NothingAfterTheEnd(doc, o, n - m);
      AfterStep(doc, raw, m, n - m);
    } else if n < m {
      NothingAfterTheEnd(doc, p, m - n);
      AfterStep(doc, raw, n, m - n);
    }
  }

  /** A chain that ends in n hops is resolved from a depth iff n hops are left there;
      the answer is where it ends. */
  lemma FuelIsExact(doc: Object, raw: Json, depth: nat, n: nat, o: Object)
    requires EndsAfter(doc, raw, n, o)
    ensures Resolve(doc, raw, depth) == if depth + n <= 8 then Some(o) else None
  {
    if depth <= MAX_HOPS {
      ResolveFollows(doc, raw, depth, o);
      if depth + n > MAX_HOPS && Resolve(doc, raw, depth).Some? {
        var p := Resolve(doc, raw, depth).value;
        ResolveFollows(doc, raw, depth, p);
        var k :| 0 <= k <= MAX_HOPS - depth && EndsAfter(doc, raw, k, p);
        EndUnique(doc, raw, n, k, o, p);
      }
    }
  }

  /** A chain that comes back to a value it has left never resolves. */
  lemma CyclesNeverResolve(doc: Object, raw: Json, i: nat, j: nat, depth: nat)
    requires i < j && After(doc, raw, i).Some? && After(doc, raw, i) == After(doc, raw, j)
    ensures Resolve(doc, raw, depth) == None
  {
    if depth <= MAX_HOPS && Resolve(doc, raw, depth).Some? {
      var o := Resolve(doc, raw, depth).value;
      ResolveFollows(doc, raw, depth, o);
      var n :| 0 <= n <= MAX_HOPS - depth && EndsAfter(doc, raw, n, o);
      NoCycleBeforeEnd(doc, raw, i, j, n, o);
    }
  }

  lemma {:induction false} NoCycleBeforeEnd(doc: Object, raw: Json, i: nat, j: nat, n: nat, o: Object)
    requires i < j && After(doc, raw, i).Some? && After(doc, raw, i) == After(doc, raw, j)
    ensures !EndsAfter(doc, raw, n, o)
    decreases n
  {
    if EndsAfter(doc, raw, n, o) {
      if n < j {
        NothingAfterTheEnd(doc, o, j - n);
        AfterStep(doc, raw, n, j - n);
      } else {
        AfterStep(doc, raw, i, n - j);
        AfterStep(doc, raw, j, n - j);
        assert EndsAfter(doc, raw, i + (n - j), o);
        NoCycleBeforeEnd(doc, raw, i, j, i + (n - j), o);
      }
    }
  }

  /** Resolving a resolved object gives it back, from any depth that resolves at all. */
  lemma ResolveIsIdempotent(doc: Object, raw: Json, depth: nat, again: nat)
    requires Resolve(doc, raw, depth).Some? && again <= 8
    ensures Resolve(doc, Obj(Resolve(doc, raw, depth).value), again) == Resolve(doc, raw, depth)
  {
    var o := Resolve(doc, raw, depth).value;
    ResolveFollows(doc, raw, depth, o);
  }

  /** An object without a reference into the document stands for itself: no "$ref", one
      that is no string, or one that does not begin with "#/". */
  lemma NotLocalStays(doc: Object, o: Object, depth: nat)
    requires depth <= 8
    requires "$ref" in o && o["$ref"].Str? ==> !HasPrefix(o["$ref"].text, "#/")
    ensures Resolve(doc, Obj(o), depth) == Some(o)
  {
  }

  lemma OnlyObjectsResolve(doc: Object, raw: Json, depth: nat)
    requires !raw.Obj? || depth > 8
    ensures Resolve(doc, raw, depth) == None
  {
  }
}
