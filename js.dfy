/**
 * The JavaScript built-ins the packaging script leans on, as functions on values:
 * `String.prototype.split` with a one-character separator, `indexOf`/regular-expression
 * substring tests, `slice(0, n)`, `[...new Set(xs)]` and `.filter(n => n)` on strings.
 */
module Js {

  /** `s.split(sep)`: the pieces between occurrences of `sep`, empty pieces included;
      an input without separator (the empty string too) gives one piece. */
  function Split(s: string, sep: char): (r: seq<string>)
    ensures |r| >= 1
    ensures forall k :: 0 <= k < |r| ==> sep !in r[k]
    decreases |s|
  {
    if |s| == 0 then [""]
    else
      var rest := Split(s[1..], sep);
      if s[0] == sep then [""] + rest
      else [[s[0]] + rest[0]] + rest[1..]
  }

  /** `parts.join(sep)`, the inverse of `Split`. */
  function Join(parts: seq<string>, sep: char): string
    requires |parts| >= 1
    decreases |parts|
  {
    if |parts| == 1 then parts[0] else parts[0] + [sep] + Join(parts[1..], sep)
  }

  /** Joining the pieces of a split gives the original string back. */
  lemma {:induction false} JoinSplit(s: string, sep: char)
    ensures Join(Split(s, sep), sep) == s
    decreases |s|
  {
    if |s| > 0 {
      var rest := Split(s[1..], sep);
      JoinSplit(s[1..], sep);
      if s[0] == sep {
        assert ([""] + rest)[1..] == rest;
      } else {
        var r := [[s[0]] + rest[0]] + rest[1..];
        if |rest| > 1 {
          assert r[1..] == rest[1..];
        }
      }
      assert s == [s[0]] + s[1..];
    }
  }

  /** A separator-free prefix is glued onto the first piece of what follows it. */
  lemma {:induction false} SplitPrefix(a: string, rest: string, sep: char)
    requires sep !in a
    ensures Split(a + rest, sep) == [a + Split(rest, sep)[0]] + Split(rest, sep)[1..]
    decreases |a|
  {
    var t := Split(rest, sep);
    if a == [] {
      assert a + rest == rest;
      assert a + t[0] == t[0];
      assert [t[0]] + t[1..] == t;
    } else {
      var s := a + rest;
      assert s[0] == a[0] && s[1..] == a[1..] + rest;
      SplitPrefix(a[1..], rest, sep);
      assert [a[0]] + (a[1..] + t[0]) == a + t[0];
    }
  }

  /** A string without separator splits into itself alone. */
  lemma SplitNoSeparator(a: string, sep: char)
    requires sep !in a
    ensures Split(a, sep) == [a]
  {
    SplitPrefix(a, "", sep);
    assert a + "" == a;
  }

  /** Splitting a join of separator-free pieces gives the pieces back. */
  lemma {:induction false} SplitJoin(parts: seq<string>, sep: char)
    requires |parts| >= 1
    requires forall k :: 0 <= k < |parts| ==> sep !in parts[k]
    ensures Split(Join(parts, sep), sep) == parts
    decreases |parts|
  {
    if |parts| == 1 {
      SplitNoSeparator(parts[0], sep);
    } else {
      var tail := Join(parts[1..], sep);
      SplitJoin(parts[1..], sep);
      var u := [sep] + tail;
      assert u[0] == sep && u[1..] == tail;
      assert Split(u, sep) == [""] + Split(tail, sep);
      SplitPrefix(parts[0], u, sep);
      assert parts[0] + "" == parts[0];
      assert parts[0] + [sep] + tail == parts[0] + ([sep] + tail);
      assert parts == [parts[0]] + parts[1..];
    }
  }

  predicate StartsWith(s: string, prefix: string) {
    |prefix| <= |s| && s[..|prefix|] == prefix
  }

  /** `s.indexOf(sub) !== -1`; a regular expression `/a|b/` matches when `s` contains `a` or `b`. */
  predicate Contains(s: string, sub: string)
    ensures Contains(s, sub) ==> |sub| <= |s|
    ensures StartsWith(s, sub) ==> Contains(s, sub)
    decreases |s|
  {
    StartsWith(s, sub) || (|s| > 0 && Contains(s[1..], sub))
  }

  /** `sub` occurs in `s` starting at position `i`. */
  predicate OccursAt(s: string, sub: string, i: int) {
    0 <= i <= |s| - |sub| && s[i..i + |sub|] == sub
  }

  /** `Contains` agrees with the direct definition: `sub` occurs at some position of `s`. */
  lemma {:induction false} ContainsAt(s: string, sub: string)
    ensures Contains(s, sub) <==> exists i :: OccursAt(s, sub, i)
    decreases |s|
  {
    if |s| > 0 {
      ContainsAt(s[1..], sub);
      if Contains(s, sub) {
        if StartsWith(s, sub) {
          assert OccursAt(s, sub, 0);
        } else {
          var i :| OccursAt(s[1..], sub, i);
          assert s[i + 1..i + 1 + |sub|] == s[1..][i..i + |sub|];
          assert OccursAt(s, sub, i + 1);
        }
      }
      if exists i :: OccursAt(s, sub, i) {
        var i :| OccursAt(s, sub, i);
        if i == 0 {
          assert StartsWith(s, sub);
        } else {
          assert s[1..][i - 1..i - 1 + |sub|] == s[i..i + |sub|];
          assert OccursAt(s[1..], sub, i - 1);
        }
      }
    } else {
      if Contains(s, sub) {
        assert OccursAt(s, sub, 0);
      }
      if exists i :: OccursAt(s, sub, i) {
        var i :| OccursAt(s, sub, i);
        assert StartsWith(s, sub);
      }
    }
  }

  /** Whatever `s` contains starts with a character of `s`. */
  lemma {:induction false} ContainsHead(s: string, sub: string)
    requires |sub| > 0 && Contains(s, sub)
    ensures sub[0] in s
    decreases |s|
  {
    if !StartsWith(s, sub) {
      ContainsHead(s[1..], sub);
    } else {
      assert s[0] == sub[0];
    }
  }

  /** A character in neither part is not in their concatenation. */
  lemma NoSeparatorInConcat(a: string, b: string, sep: char)
    requires sep !in a && sep !in b
    ensures sep !in a + b
  {
    assert forall k :: 0 <= k < |a + b| ==> (a + b)[k] == if k < |a| then a[k] else b[k - |a|];
  }

  /** `[a, b].join(sep)`. */
  lemma JoinTwo(a: string, b: string, sep: char)
    ensures Join([a, b], sep) == a + [sep] + b
  {
    assert [a, b][1..] == [b];
  }

  /** `s.slice(0, n)`: the first `n` characters, or all of `s` when it is shorter. */
  function Take(s: string, n: nat): (r: string)
    ensures r <= s
    ensures |r| == if |s| < n then |s| else n
  {
    if |s| < n then s else s[..n]
  }

  /** `.filter(n => n)` on strings: keeps the non-empty ones, in order. */
  function FilterTruthy(xs: seq<string>): (r: seq<string>)
    ensures forall x :: x in r <==> x in xs && x != ""
    decreases |xs|
  {
    if xs == [] then []
    else (if xs[0] != "" then [xs[0]] else []) + FilterTruthy(xs[1..])
  }

  /** `.filter` distributes over concatenation: it keeps order and multiplicity. */
  lemma {:induction false} FilterTruthyAppend(a: seq<string>, b: seq<string>)
    ensures FilterTruthy(a + b) == FilterTruthy(a) + FilterTruthy(b)
    decreases |a|
  {
    if a == [] {
      assert a + b == b;
    } else {
      assert (a + b)[0] == a[0] && (a + b)[1..] == a[1..] + b;
      FilterTruthyAppend(a[1..], b);
    }
  }

  /** `.filter` on one element keeps it exactly when it is non-empty. */
  lemma FilterTruthyOne(x: string)
    ensures FilterTruthy([x]) == if x != "" then [x] else []
  {
    assert [x][1..] == [];
  }

  predicate NoDuplicates<T(==)>(s: seq<T>) {
    forall i, j :: 0 <= i < j < |s| ==> s[i] != s[j]
  }

  /** `s.indexOf(x)` for an `x` that occurs: its first position. */
  function IndexOf<T(==)>(s: seq<T>, x: T): (i: nat)
    requires x in s
    ensures i < |s| && s[i] == x
    ensures forall j :: 0 <= j < i ==> s[j] != x
  {
    if s[0] == x then 0 else 1 + IndexOf(s[1..], x)
  }

  /** The first position of `x` in `p + q` is its first position in `p`, or `|p|` plus its first position in `q`. */
  lemma IndexOfAppend<T>(p: seq<T>, q: seq<T>, x: T)
    requires x in p + q
    ensures x in p ==> IndexOf(p + q, x) == IndexOf(p, x)
    ensures x !in p ==> x in q && IndexOf(p + q, x) == |p| + IndexOf(q, x)
  {
    var k := IndexOf(p + q, x);
    if x in p {
      var i := IndexOf(p, x);
      assert (p + q)[i] == x;
      assert forall j :: 0 <= j < i ==> (p + q)[j] != x;
    } else {
      assert forall j :: 0 <= j < |p| ==> (p + q)[j] != x;
      var m :| 0 <= m < |p + q| && (p + q)[m] == x;
      assert m >= |p| && q[m - |p|] == x;
      var i := IndexOf(q, x);
      assert (p + q)[|p| + i] == x;
      assert forall j :: |p| <= j < |p| + i ==> (p + q)[j] == q[j - |p|] != x;
    }
  }

  /** `[...new Set(s)]`: the distinct elements of `s`, each where it first occurs. */
  function Unique<T(==,!new)>(s: seq<T>): (r: seq<T>)
    ensures NoDuplicates(r)
    ensures forall x :: x in r <==> x in s
    decreases |s|
  {
    if s == [] then []
    else
      var u := Unique(s[..|s| - 1]);
      assert s == s[..|s| - 1] + [s[|s| - 1]];
      if s[|s| - 1] in u then u else u + [s[|s| - 1]]
  }

  /** The elements of `Unique(s)` come in the order of their first occurrences in `s`. */
  lemma {:induction false} UniqueFirstOccurrenceOrder<T(!new)>(s: seq<T>)
    ensures forall i, j :: 0 <= i < j < |Unique(s)| ==> IndexOf(s, Unique(s)[i]) < IndexOf(s, Unique(s)[j])
    decreases |s|
  {
    if s != [] {
      var p, z := s[..|s| - 1], s[|s| - 1];
      assert s == p + [z];
      var up := Unique(p);
      UniqueFirstOccurrenceOrder(p);
      var u := Unique(s);
      forall i, j | 0 <= i < j < |u|
        ensures IndexOf(s, u[i]) < IndexOf(s, u[j])
      {
        IndexOfAppend(p, [z], u[i]);
        IndexOfAppend(p, [z], u[j]);
        if j < |up| {
          assert u[i] == up[i] && u[j] == up[j];
        } else {
          assert u[j] == z && z !in p;
          assert u[i] == up[i];
        }
      }
    }
  }

  /** Appending fresh, distinct elements to the input appends them to the output. */
  lemma {:induction false} UniqueAppendFresh<T(!new)>(a: seq<T>, b: seq<T>)
    requires NoDuplicates(b)
    requires forall x :: x in b ==> x !in a
    ensures Unique(a + b) == Unique(a) + b
    decreases |b|
  {
    if b == [] {
      assert a + b == a;
    } else {
      var b', z := b[..|b| - 1], b[|b| - 1];
      assert b == b' + [z];
      assert NoDuplicates(b');
      UniqueAppendFresh(a, b');
      assert (a + b)[..|a + b| - 1] == a + b';
      assert z !in b';
    }
  }

  /** A single element is its own `Unique`. */
  lemma UniqueSingleton<T(!new)>(x: T)
    ensures Unique([x]) == [x]
  {
    assert [x][..0] == [];
  }

  /** A sequence without duplicates is its own `Unique`. */
  lemma UniqueOfDistinct<T(!new)>(s: seq<T>)
    requires NoDuplicates(s)
    ensures Unique(s) == s
  {
    UniqueAppendFresh([], s);
    assert [] + s == s;
  }
}
