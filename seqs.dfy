/** Generic sequence helpers shared by the model: first-occurrence
    de-duplication (what a JavaScript `Set` or `Map` does to insertion
    order), filtering, joining, and the default ordering of
    `Array.prototype.sort` on strings with the insertion sort that realises it. */
module Seqs {

  datatype Option<T> = None | Some(value: T)

  datatype Result<T, E> = Ok(value: T) | Err(error: E)

  predicate NoDups<T(==,!new)>(s: seq<T>) {
    forall i, j :: 0 <= i < j < |s| ==> s[i] != s[j]
  }

  function Last<T>(s: seq<T>): T
    requires |s| > 0
  {
    s[|s| - 1]
  }

  function DropLast<T>(s: seq<T>): seq<T>
    requires |s| > 0
  {
    s[..|s| - 1]
  }

  /** A prefix one longer is the shorter prefix and one more element. */
  lemma PrefixSnoc<T>(s: seq<T>, n: nat)
    requires 0 < n <= |s|
    ensures s[..n] == s[..n - 1] + [s[n - 1]]
  {
  }

  lemma WholePrefix<T>(s: seq<T>)
    ensures s[..|s|] == s
  {
  }

  /** The distinct elements of `s`, each kept at its first occurrence. */
  function Distinct<T(==,!new)>(s: seq<T>): (d: seq<T>)
    ensures forall x :: x in d <==> x in s
    ensures NoDups(d)
    ensures |d| <= |s|
  {
    if s == [] then []
    else
      var d := Distinct(DropLast(s));
      assert s == DropLast(s) + [Last(s)];
      if Last(s) in d then d else d + [Last(s)]
  }

  /** Index of the first occurrence of `x` in `s`. */
  function FirstIndex<T(==,!new)>(s: seq<T>, x: T): (i: nat)
    requires x in s
    ensures i < |s| && s[i] == x
    ensures forall j :: 0 <= j < i ==> s[j] != x
  {
    assert s == DropLast(s) + [Last(s)];
    if x in DropLast(s) then FirstIndex(DropLast(s), x) else |s| - 1
  }

  /** Index of the last occurrence of `x` in `s`. */
  function LastIndex<T(==,!new)>(s: seq<T>, x: T): (i: nat)
    requires x in s
    ensures i < |s| && s[i] == x
    ensures forall j :: i < j < |s| ==> s[j] != x
  {
    assert s == DropLast(s) + [Last(s)];
    if Last(s) == x then |s| - 1 else LastIndex(DropLast(s), x)
  }

  /** One more element: `Distinct` grows only by a new element. */
  lemma DistinctSnoc<T(!new)>(s: seq<T>, x: T)
    ensures Distinct(s + [x]) == if x in Distinct(s) then Distinct(s) else Distinct(s) + [x]
  {
    assert DropLast(s + [x]) == s && Last(s + [x]) == x;
  }

  /** One more element: the last occurrence of `x` moves to the end. */
  lemma LastIndexSnoc<T(!new)>(s: seq<T>, x: T, y: T)
    requires y in s + [x]
    ensures LastIndex(s + [x], y) == if y == x then |s| else LastIndex(s, y)
  {
    assert DropLast(s + [x]) == s && Last(s + [x]) == x;
  }

  /** `Distinct` lists the elements in the order of their first occurrences. */
  lemma {:induction false} DistinctFollowsFirstOccurrence<T(!new)>(s: seq<T>)
    ensures forall i, j :: 0 <= i < j < |Distinct(s)| ==>
      FirstIndex(s, Distinct(s)[i]) < FirstIndex(s, Distinct(s)[j])
  {
    if s != [] {
      var p := DropLast(s);
      DistinctFollowsFirstOccurrence(p);
      var d := Distinct(p);
      assert s == p + [Last(s)];
      forall x | x in p ensures FirstIndex(s, x) == FirstIndex(p, x) < |p| { }
      if Last(s) !in d {
        assert FirstIndex(s, Last(s)) == |p|;
      }
    }
  }

  /** A sequence without repetitions is its own `Distinct`. */
  lemma {:induction false} DistinctOfNoDups<T(!new)>(s: seq<T>)
    requires NoDups(s)
    ensures Distinct(s) == s
  {
    if s != [] {
      assert NoDups(DropLast(s));
      DistinctOfNoDups(DropLast(s));
      assert Last(s) !in DropLast(s);
      assert s == DropLast(s) + [Last(s)];
    }
  }

  /** In a sequence without repetitions each element is its own last occurrence. */
  lemma LastIndexOfNoDups<T(!new)>(s: seq<T>, j: nat)
    requires NoDups(s) && j < |s|
    ensures LastIndex(s, s[j]) == j
  {
  }

  /** `s` without any element equal to `x`, order kept. */
  function Without<T(==,!new)>(s: seq<T>, x: T): (r: seq<T>)
    ensures forall y :: y in r <==> y in s && y != x
    ensures |r| <= |s|
    ensures NoDups(s) ==> NoDups(r)
  {
    if s == [] then []
    else
      var tail := Without(s[1..], x);
      assert NoDups(s) ==> NoDups(s[1..]) && s[0] !in tail;
      if s[0] == x then tail else [s[0]] + tail
  }

  /** `Array.prototype.join(sep)`. */
  function Join(parts: seq<string>, sep: string): string
  {
    if |parts| == 0 then ""
    else if |parts| == 1 then parts[0]
    else parts[0] + sep + Join(parts[1..], sep)
  }

  predicate StartsWith<T(==)>(s: seq<T>, prefix: seq<T>) {
    |prefix| <= |s| && s[..|prefix|] == prefix
  }

  // ---------------------------------------------------------------------
  // String order of `Array.prototype.sort()` without a comparator: by
  // character code, a proper prefix before its extensions.

  predicate Less(a: string, b: string)
  {
    |b| > 0 && (|a| == 0 || a[0] < b[0] || (a[0] == b[0] && Less(a[1..], b[1..])))
  }

  lemma {:induction false} LessIrreflexive(a: string)
    ensures !Less(a, a)
  {
    if |a| > 0 {
      LessIrreflexive(a[1..]);
    }
  }

  lemma {:induction false} LessTransitive(a: string, b: string, c: string)
    requires Less(a, b) && Less(b, c)
    ensures Less(a, c)
  {
    if |a| > 0 && a[0] == b[0] && b[0] == c[0] {
      LessTransitive(a[1..], b[1..], c[1..]);
    }
  }

  lemma {:induction false} LessTotal(a: string, b: string)
    ensures a == b || Less(a, b) || Less(b, a)
  {
    if |a| > 0 && |b| > 0 && a[0] == b[0] {
      LessTotal(a[1..], b[1..]);
      if a[1..] == b[1..] {
        assert a == [a[0]] + a[1..] && b == [b[0]] + b[1..];
      }
    }
  }

  predicate StrictlySorted(s: seq<string>)
  {
    forall i, j :: 0 <= i < j < |s| ==> Less(s[i], s[j])
  }

  function Insert(x: string, s: seq<string>): (r: seq<string>)
    ensures multiset(r) == multiset(s) + multiset{x}
  {
    if s == [] then [x]
    else if Less(x, s[0]) then [x] + s
    else
      assert s == [s[0]] + s[1..];
      [s[0]] + Insert(x, s[1..])
  }

  /** Insertion sort in the order `Less`. */
  function Sort(s: seq<string>): (r: seq<string>)
    ensures multiset(r) == multiset(s)
  {
    if s == [] then []
    else
      assert s == [s[0]] + s[1..];
      Insert(s[0], Sort(s[1..]))
  }

  lemma {:induction false} InsertKeepsStrictOrder(x: string, s: seq<string>)
    requires StrictlySorted(s) && x !in s
    ensures StrictlySorted(Insert(x, s))
  {
    if s != [] {
      if Less(x, s[0]) {
        forall j | 0 < j < |s| ensures Less(x, s[j]) {
          LessTransitive(x, s[0], s[j]);
        }
      } else {
        LessTotal(x, s[0]);
        InsertKeepsStrictOrder(x, s[1..]);
        var r := Insert(x, s[1..]);
        forall y | y in r ensures Less(s[0], y) {
          assert y in multiset(r);
        }
      }
    }
  }

  /** Sorting distinct strings yields a strictly increasing sequence of the same strings. */
  lemma {:induction false} SortDistinct(s: seq<string>)
    requires NoDups(s)
    ensures StrictlySorted(Sort(s))
    ensures forall x :: x in Sort(s) <==> x in s
  {
    if s != [] {
      SortDistinct(s[1..]);
      assert forall x :: x in Sort(s) <==> x in multiset(Sort(s));
      InsertKeepsStrictOrder(s[0], Sort(s[1..]));
    }
  }

  lemma {:induction false} LessAsymmetric(a: string, b: string)
    ensures Less(a, b) ==> !Less(b, a)
  {
    if |a| > 0 && |b| > 0 && a[0] == b[0] {
      LessAsymmetric(a[1..], b[1..]);
    }
  }

  /** The head of a strictly increasing sequence is its least element. */
  lemma HeadIsLeast(s: seq<string>, x: string)
    requires StrictlySorted(s) && x in s
    ensures x == s[0] || Less(s[0], x)
  {
    var i :| 0 <= i < |s| && s[i] == x;
  }

  /** Two strictly increasing sequences with the same elements are equal:
      a sorted list of distinct strings is determined by its element set. */
  lemma {:induction false} StrictlySortedUnique(a: seq<string>, b: seq<string>)
    requires StrictlySorted(a) && StrictlySorted(b)
    requires forall x :: x in a <==> x in b
    ensures a == b
  {
    assert |a| > 0 ==> a[0] in a && a[0] in b;
    assert |b| > 0 ==> b[0] in b && b[0] in a;
    if a != [] && b != [] {
      HeadIsLeast(a, b[0]);
      HeadIsLeast(b, a[0]);
      LessAsymmetric(a[0], b[0]);
      assert a[0] == b[0];
      forall x | x in a[1..] ensures x in b[1..] {
        var i :| 0 <= i < |a[1..]| && a[1..][i] == x;
        assert Less(a[0], a[i + 1]);
        LessIrreflexive(x);
        assert x in b;
        var j :| 0 <= j < |b| && b[j] == x;
        assert b[1..][j - 1] == x;
      }
      forall x | x in b[1..] ensures x in a[1..] {
        var i :| 0 <= i < |b[1..]| && b[1..][i] == x;
        assert Less(b[0], b[i + 1]);
        LessIrreflexive(x);
        assert x in a;
        var j :| 0 <= j < |a| && a[j] == x;
        assert a[1..][j - 1] == x;
      }
      StrictlySortedUnique(a[1..], b[1..]);
      assert a == [a[0]] + a[1..] && b == [b[0]] + b[1..];
    }
  }
}
