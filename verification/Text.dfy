/** Strings as the service sees them: sequences of Unicode code points.
    JSON text decoded by Go is valid UTF-8, and on valid UTF-8 the bytewise order
    of sort.Strings is the code-point order used here. */
module Text {

  datatype Option<+T> = None | Some(value: T)

  datatype Result<+T, +E> = Ok(value: T) | Err(error: E)

  // ---------------------------------------------------------------- ordering

  predicate Less(a: string, b: string) {
    if b == "" then false
    else if a == "" then true
    else if a[0] != b[0] then a[0] < b[0]
    else Less(a[1..], b[1..])
  }

  lemma {:induction false} LessTrichotomy(a: string, b: string)
    ensures Less(a, b) || a == b || Less(b, a)
    ensures !(Less(a, b) && Less(b, a))
    ensures a == b ==> !Less(a, b)
  {
    if a != "" && b != "" && a[0] == b[0] {
      LessTrichotomy(a[1..], b[1..]);
      assert a == [a[0]] + a[1..] && b == [b[0]] + b[1..];
    }
  }

  lemma {:induction false} LessTransitive(a: string, b: string, c: string)
    requires Less(a, b) && Less(b, c)
    ensures Less(a, c)
  {
    if a != "" && a[0] == b[0] && b[0] == c[0] {
      LessTransitive(a[1..], b[1..], c[1..]);
    }
  }

  /** A proper prefix comes first; otherwise the first difference decides. */
  lemma {:induction false} LessByFirstDifference(a: string, b: string)
    ensures Less(a, b) <==>
            (|a| < |b| && a == b[..|a|])
            || exists i :: 0 <= i < |a| && i < |b| && a[..i] == b[..i] && a[i] < b[i]
  {
    if a != "" && b != "" && a[0] == b[0] {
      var x, y := a[1..], b[1..];
      LessByFirstDifference(x, y);
      assert a == [a[0]] + x && b == [a[0]] + y;
      assert (|a| < |b| && a == b[..|a|]) <==> (|x| < |y| && x == y[..|x|]) by {
        if |a| <= |b| { assert b[..|a|] == [a[0]] + y[..|x|]; }
      }
      if i :| 0 <= i < |x| && i < |y| && x[..i] == y[..i] && x[i] < y[i] {
        assert a[..i + 1] == [a[0]] + x[..i] && b[..i + 1] == [a[0]] + y[..i];
        assert a[i + 1] < b[i + 1];
      }
      if i :| 0 <= i < |a| && i < |b| && a[..i] == b[..i] && a[i] < b[i] {
        assert x[..i - 1] == a[..i][1..] && y[..i - 1] == b[..i][1..];
        assert x[i - 1] < y[i - 1];
      }
    } else if a != "" && b != "" {
      assert a[..0] == b[..0];
      forall i | 0 < i <= |a| && i <= |b| ensures a[..i] != b[..i] {
        assert a[..i][0] == a[0] && b[..i][0] == b[0];
      }
      assert a == a[..|a|];
    }
  }

  predicate Ascending(s: seq<string>) {
    forall i, j :: 0 <= i < j < |s| ==> Less(s[i], s[j])
  }

  predicate IsLeast(x: string, s: set<string>) {
    x in s && forall y :: y in s && y != x ==> Less(x, y)
  }

  lemma LeastExists(s: set<string>)
    requires s != {}
    ensures exists x :: IsLeast(x, s)
  {
    var x :| x in s;
    if s == {x} {
      assert IsLeast(x, s);
    } else {
      LeastExists(s - {x});
      var y :| IsLeast(y, s - {x});
      LessTrichotomy(x, y);
      if Less(x, y) {
        forall z | z in s && z != x ensures Less(x, z) {
          if z != y { LessTransitive(x, y, z); }
        }
        assert IsLeast(x, s);
      } else {
        assert IsLeast(y, s);
      }
    }
  }

  lemma LeastUnique(x: string, y: string, s: set<string>)
    requires IsLeast(x, s) && IsLeast(y, s)
    ensures x == y
  {
    LessTrichotomy(x, y);
  }

  /** The elements of a set in ascending order: what collecting the keys of a map
      and sorting them yields, whatever order the map is walked in. */
  function Sorted(s: set<string>): (r: seq<string>)
    ensures forall x :: x in r <==> x in s
    ensures |r| == |s|
  {
    if s == {} then []
    else
      LeastExists(s);
      assert forall x, y :: IsLeast(x, s) && IsLeast(y, s) ==> x == y by {
        forall x, y | IsLeast(x, s) && IsLeast(y, s) ensures x == y { LeastUnique(x, y, s); }
      }
      var x :| IsLeast(x, s);
      [x] + Sorted(s - {x})
  }

  lemma {:induction false} SortedAscending(s: set<string>)
    ensures Ascending(Sorted(s))
  {
    if s == {} {
    } else {
      LeastExists(s);
      var r := Sorted(s);
      assert IsLeast(r[0], s) by {
        var x :| IsLeast(x, s) && r == [x] + Sorted(s - {x});
      }
      var rest := Sorted(s - {r[0]});
      assert r == [r[0]] + rest by {
        var x :| IsLeast(x, s) && r == [x] + Sorted(s - {x});
      }
      SortedAscending(s - {r[0]});
      forall i, j | 0 <= i < j < |r| ensures Less(r[i], r[j]) {
        assert r[j] == rest[j - 1] && rest[j - 1] in s - {r[0]};
        if i > 0 { assert r[i] == rest[i - 1]; }
      }
    }
  }

  /** Two ascending listings of the same strings are the same listing. */
  lemma {:induction false} AscendingUnique(a: seq<string>, b: seq<string>)
    requires Ascending(a) && Ascending(b)
    requires |a| == |b| && forall x :: x in a <==> x in b
    ensures a == b
  {
    if a == [] {
    } else {
      var x, y := a[0], b[0];
      assert x in b && y in a;
      LessTrichotomy(x, y);
      assert x == y by {
        var i :| 0 <= i < |b| && b[i] == x;
        var j :| 0 <= j < |a| && a[j] == y;
        assert i == 0 || Less(y, x);
        assert j == 0 || Less(x, y);
      }
      AscendingHead(a);
      AscendingHead(b);
      forall x ensures x in a[1..] <==> x in b[1..] {
        if x in a[1..] { assert x in a; assert x in b; }
        if x in b[1..] { assert x in b; assert x in a; }
      }
      AscendingUnique(a[1..], b[1..]);
      assert a == [a[0]] + a[1..] && b == [b[0]] + b[1..];
    }
  }

  lemma AscendingHead(a: seq<string>)
    requires Ascending(a) && a != []
    ensures a[0] !in a[1..]
    ensures Ascending(a[1..])
    ensures forall x :: x in a ==> x == a[0] || x in a[1..]
  {
    LessTrichotomy(a[0], a[0]);
    forall i | 0 <= i < |a| - 1 ensures a[1..][i] != a[0] {
      assert Less(a[0], a[i + 1]);
    }
    forall x | x in a ensures x == a[0] || x in a[1..] {
      var i :| 0 <= i < |a| && a[i] == x;
      if i > 0 { assert a[1..][i - 1] == x; }
    }
  }

  lemma {:induction false} SubsetAtMost<T>(s: set<T>, t: set<T>)
    requires s <= t
    ensures |s| <= |t|
  {
    if s == {} {
    } else {
      var x :| x in s;
      SubsetAtMost(s - {x}, t - {x});
    }
  }

  // ------------------------------------------------------- splitting, joining

  /** strings.Split with a one-character separator: never empty. */
  function Split(s: string, sep: char): (parts: seq<string>)
    ensures |parts| >= 1
    ensures forall i :: 0 <= i < |parts| ==> sep !in parts[i]
  {
    if s == "" then [""]
    else
      var rest := Split(s[1..], sep);
      if s[0] == sep then [""] + rest else [[s[0]] + rest[0]] + rest[1..]
  }

  function Join(parts: seq<string>, sep: char): string
    requires |parts| >= 1
  {
    if |parts| == 1 then parts[0] else parts[0] + [sep] + Join(parts[1..], sep)
  }

  lemma JoinAfterEmpty(parts: seq<string>, sep: char)
    requires |parts| >= 1
    ensures Join([""] + parts, sep) == [sep] + Join(parts, sep)
  {
    assert ([""] + parts)[1..] == parts;
  }

  lemma JoinLonger(c: char, parts: seq<string>, sep: char)
    requires |parts| >= 1
    ensures Join([[c] + parts[0]] + parts[1..], sep) == [c] + Join(parts, sep)
  {
    assert ([[c] + parts[0]] + parts[1..])[1..] == parts[1..];
  }

  lemma {:induction false} JoinSplit(s: string, sep: char)
    ensures Join(Split(s, sep), sep) == s
  {
    if s == "" {
    } else {
      JoinSplit(s[1..], sep);
      hide Join;
      if s[0] == sep {
        JoinAfterEmpty(Split(s[1..], sep), sep);
      } else {
        JoinLonger(s[0], Split(s[1..], sep), sep);
      }
      assert s == [s[0]] + s[1..];
    }
  }

  lemma {:induction false} SplitJoin(parts: seq<string>, sep: char)
    requires |parts| >= 1
    requires forall i :: 0 <= i < |parts| ==> sep !in parts[i]
    ensures Split(Join(parts, sep), sep) == parts
    decreases |parts|, |parts[0]|
  {
    var s := Join(parts, sep);
    if parts[0] == "" {
      if |parts| > 1 {
        SplitJoin(parts[1..], sep);
        assert s[1..] == Join(parts[1..], sep);
      } else {
        assert parts == [""];
      }
    } else {
      var c, head := parts[0][0], parts[0][1..];
      var fewer := [head] + parts[1..];
      assert fewer[1..] == parts[1..];
      assert forall i :: 0 <= i < |fewer| ==> sep !in fewer[i];
      SplitJoin(fewer, sep);
      assert c == s[0] && s[1..] == Join(fewer, sep);
      assert parts[0] == [c] + head;
      assert c != sep by { assert parts[0][0] in parts[0]; }
      assert Split(s, sep) == [[c] + head] + fewer[1..];
    }
  }

  // ------------------------------------------------------------ small helpers

  predicate HasPrefix(s: string, prefix: string) {
    |prefix| <= |s| && s[..|prefix|] == prefix
  }

  predicate HasSuffix(s: string, suffix: string) {
    |suffix| <= |s| && s[|s| - |suffix|..] == suffix
  }

  /** Length in bytes of the UTF-8 form. */
  function Utf8Length(s: string): nat {
    if s == "" then 0
    else
      var c := s[0] as int;
      (if c < 0x80 then 1 else if c < 0x800 then 2 else if c < 0x1_0000 then 3 else 4) + Utf8Length(s[1..])
  }

  /** unicode.IsSpace. */
  predicate IsSpace(c: char) {
    var n := c as int;
    9 <= n <= 13 || n == 0x20 || n == 0x85 || n == 0xA0 || n == 0x1680 || 0x2000 <= n <= 0x200A
    || n == 0x2028 || n == 0x2029 || n == 0x202F || n == 0x205F || n == 0x3000
  }

  function TrimLeft(s: string, drop: char -> bool): string {
    if s != "" && drop(s[0]) then TrimLeft(s[1..], drop) else s
  }

  function TrimRight(s: string, drop: char -> bool): string {
    if s != "" && drop(s[|s| - 1]) then TrimRight(s[..|s| - 1], drop) else s
  }

  function TrimSpace(s: string): string {
    TrimRight(TrimLeft(s, IsSpace), IsSpace)
  }

  /** The simple lower-case mapping, restricted to the code points whose image is
      ASCII; the others never meet an ASCII constant. */
  function LowerChar(c: char): char {
    if 'A' <= c <= 'Z' then (c as int + 32) as char
    else if c as int == 0x130 then 'i'
    else if c as int == 0x212A then 'k'
    else c
  }

  function Lower(s: string): (r: string)
    ensures |r| == |s|
    ensures forall i :: 0 <= i < |s| ==> r[i] == LowerChar(s[i])
  {
    if s == "" then "" else [LowerChar(s[0])] + Lower(s[1..])
  }

  /** Simple case folding, again only where it can reach ASCII. */
  function FoldChar(c: char): char {
    if 'A' <= c <= 'Z' then (c as int + 32) as char
    else if c as int == 0x212A then 'k'
    else if c as int == 0x17F then 's'
    else c
  }

  predicate EqualFold(a: string, b: string) {
    |a| == |b| && forall i :: 0 <= i < |a| ==> FoldChar(a[i]) == FoldChar(b[i])
  }

  // -------------------------------------------------------- what the helpers mean

  lemma {:induction false} TrimLeftMeans(s: string, drop: char -> bool)
    ensures |TrimLeft(s, drop)| <= |s|
    ensures var n := |s| - |TrimLeft(s, drop)|;
            && s[n..] == TrimLeft(s, drop) && (forall i :: 0 <= i < n ==> drop(s[i]))
            && (n < |s| ==> !drop(s[n]))
  {
    if s != "" && drop(s[0]) {
      TrimLeftMeans(s[1..], drop);
      var n := |s[1..]| - |TrimLeft(s[1..], drop)|;
      assert forall i :: 0 < i < n + 1 ==> s[i] == s[1..][i - 1];
    }
  }

  lemma {:induction false} TrimRightMeans(s: string, drop: char -> bool)
    ensures var n := |TrimRight(s, drop)|;
            && n <= |s| && s[..n] == TrimRight(s, drop) && (forall i :: n <= i < |s| ==> drop(s[i]))
            && (n > 0 ==> !drop(s[n - 1]))
    decreases |s|
  {
    if s != "" && drop(s[|s| - 1]) {
      TrimRightMeans(s[..|s| - 1], drop);
    }
  }

  /** Trimming takes white space off both ends, all of it and nothing else. */
  lemma TrimSpaceMeans(s: string) returns (before: nat, after: nat)
    ensures before <= after <= |s| && TrimSpace(s) == s[before..after]
    ensures forall i :: 0 <= i < before || after <= i < |s| ==> IsSpace(s[i])
    ensures before < after ==> !IsSpace(s[before]) && !IsSpace(s[after - 1])
  {
    hide TrimLeft, TrimRight, IsSpace;
    TrimLeftMeans(s, IsSpace);
    var t := TrimLeft(s, IsSpace);
    before := |s| - |t|;
    TrimRightMeans(t, IsSpace);
    after := before + |TrimRight(t, IsSpace)|;
    assert s[before..after] == t[..after - before];
    assert forall i :: 0 <= i < |t| ==> t[i] == s[before + i];
    assert forall i :: after <= i < |s| ==> s[i] == t[i - before];
  }

  /** The white space of ASCII. */
  lemma AsciiSpaces(c: char)
    requires c as int < 0x80
    ensures IsSpace(c) <==> c in [' ', '\t', '\n', 11 as char, 12 as char, '\r']
  {
  }

  const CAPITALS := "ABCDEFGHIJKLMNOPQRSTUVWXYZ"
  const SMALL := "abcdefghijklmnopqrstuvwxyz"

  /** Lower-casing and folding on ASCII: the capitals become small, the rest stays. */
  lemma AsciiLower(c: char)
    requires c as int < 0x80
    ensures LowerChar(c) == FoldChar(c)
    ensures c in CAPITALS <==> 'A' <= c <= 'Z'
    ensures if c in CAPITALS then
              exists i :: 0 <= i < 26 && CAPITALS[i] == c && SMALL[i] == LowerChar(c)
            else LowerChar(c) == c
  {
    AlphabetAt();
    if 'A' <= c <= 'Z' {
      var i := c as int - 65;
      assert CAPITALS[i] == c && SMALL[i] == LowerChar(c);
    }
  }

  lemma AlphabetAt()
    ensures |CAPITALS| == |SMALL| == 26
    ensures forall i :: 0 <= i < 26 ==> CAPITALS[i] == (65 + i) as char && SMALL[i] == (97 + i) as char
  {
  }

  /** A character's share of the UTF-8 form, by the ranges of section 3 of RFC 3629. */
  lemma Utf8Lengths(c: char, s: string)
    ensures Utf8Length([c] + s) == Utf8Length([c]) + Utf8Length(s)
    ensures Utf8Length([c]) == 1 <==> c as int <= 0x7F
    ensures Utf8Length([c]) == 2 <==> 0x80 <= c as int <= 0x7FF
    ensures Utf8Length([c]) == 3 <==> 0x800 <= c as int <= 0xFFFF
    ensures Utf8Length([c]) <= 4 && Utf8Length("") == 0
  {
    assert ([c] + s)[1..] == s && [c][1..] == "";
  }
}
