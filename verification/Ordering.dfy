/**
 The two orders the program sorts by (strings and security contexts) and the
 sorted sequences it builds with them.  GLib's g_sequence_insert_sorted and
 g_list_sort are represented by their effect: insertion after every element
 that is not greater, and a sorted permutation.
 */
module Ordering {

  datatype Option<+T> = None | Some(value: T)

  /** A security context: the system context and the application context. */
  datatype Ctx = Ctx(sys: string, app: string)

  // ---------------------------------------------------------------- orders

  ghost predicate TotalOrder<T(!new)>(leq: (T, T) -> bool) {
    && (forall a, b :: leq(a, b) || leq(b, a))
    && (forall a, b :: leq(a, b) && leq(b, a) ==> a == b)
    && (forall a, b, c :: leq(a, b) && leq(b, c) ==> leq(a, c))
  }

  /** g_strcmp0 on two non-NULL strings: the first differing character decides. */
  function StrCmp(a: string, b: string): int {
    if a == b then 0
    else if a == [] then -1
    else if b == [] then 1
    else if a[0] != b[0] then (if a[0] < b[0] then -1 else 1)
    else StrCmp(a[1..], b[1..])
  }

  predicate StrLeq(a: string, b: string) { StrCmp(a, b) <= 0 }

  /** gsignond_security_context_compare on two non-NULL contexts. */
  function CtxCmp(a: Ctx, b: Ctx): int {
    var res := StrCmp(a.sys, b.sys);
    if res == 0 then StrCmp(a.app, b.app) else res
  }

  predicate CtxLeq(a: Ctx, b: Ctx) { CtxCmp(a, b) <= 0 }

  lemma {:induction false} StrCmpSign(a: string, b: string)
    ensures StrCmp(a, b) == 0 <==> a == b
    ensures StrCmp(b, a) == -StrCmp(a, b)
  {
    if a == b || a == [] || b == [] || a[0] != b[0] {
    } else {
      assert a == [a[0]] + a[1..] && b == [b[0]] + b[1..];
      StrCmpSign(a[1..], b[1..]);
    }
  }

  lemma {:induction false} StrCmpTransitive(a: string, b: string, c: string)
    requires StrCmp(a, b) <= 0 && StrCmp(b, c) <= 0
    ensures StrCmp(a, c) <= 0
  {
    if a == b || b == c || a == c {
    } else if a != [] && b != [] && c != [] && a[0] == b[0] == c[0] {
      StrCmpTransitive(a[1..], b[1..], c[1..]);
    }
  }

  /** The first difference decides, and a string comes before its extensions. */
  lemma {:induction false} FirstDifferenceDecides(p: string, c: char, a: string, d: char, b: string)
    ensures c < d ==> StrCmp(p + ([c] + a), p + ([d] + b)) < 0
    ensures StrCmp(p, p + ([d] + b)) < 0
  {
    var x, y := p + ([c] + a), p + ([d] + b);
    if p == [] {
      assert x == [c] + a && y == [d] + b;
    } else {
      FirstDifferenceDecides(p[1..], c, a, d, b);
      assert x[1..] == p[1..] + ([c] + a) && y[1..] == p[1..] + ([d] + b);
      assert |p| < |y| && (c < d ==> x[|p|] != y[|p|]);
    }
  }

  /** Contexts are ordered by the system context first. */
  lemma SystemContextDecides(a: Ctx, b: Ctx)
    ensures a.sys != b.sys ==> (CtxLeq(a, b) <==> StrLeq(a.sys, b.sys))
    ensures a.sys == b.sys ==> (CtxLeq(a, b) <==> StrLeq(a.app, b.app))
  {
    StrCmpSign(a.sys, b.sys);
  }

  lemma StrLeqIsTotalOrder()
    ensures TotalOrder(StrLeq)
  {
    forall a: string, b: string ensures StrLeq(a, b) || StrLeq(b, a) { StrCmpSign(a, b); }
    forall a: string, b: string | StrLeq(a, b) && StrLeq(b, a) ensures a == b { StrCmpSign(a, b); }
    forall a: string, b: string, c: string | StrLeq(a, b) && StrLeq(b, c) ensures StrLeq(a, c) {
      StrCmpTransitive(a, b, c);
    }
  }

  lemma CtxLeqIsTotalOrder()
    ensures TotalOrder(CtxLeq)
  {
    forall a: Ctx, b: Ctx ensures CtxLeq(a, b) || CtxLeq(b, a) {
      StrCmpSign(a.sys, b.sys);
      StrCmpSign(a.app, b.app);
    }
    forall a: Ctx, b: Ctx | CtxLeq(a, b) && CtxLeq(b, a) ensures a == b {
      StrCmpSign(a.sys, b.sys);
      StrCmpSign(a.app, b.app);
    }
    forall a: Ctx, b: Ctx, c: Ctx | CtxLeq(a, b) && CtxLeq(b, c) ensures CtxLeq(a, c) {
      StrCmpSign(a.sys, b.sys);
      StrCmpSign(b.sys, c.sys);
      StrCmpSign(a.sys, c.sys);
      StrCmpTransitive(a.sys, b.sys, c.sys);
      if a.sys == b.sys == c.sys {
        StrCmpTransitive(a.app, b.app, c.app);
      }
    }
  }

  // ------------------------------------------------------ sorted sequences

  ghost predicate Sorted<T(!new)>(leq: (T, T) -> bool, s: seq<T>) {
    forall i, j :: 0 <= i < j < |s| ==> leq(s[i], s[j])
  }

  /** g_sequence_insert_sorted: x goes after the elements not greater than it. */
  function Insert<T>(leq: (T, T) -> bool, x: T, s: seq<T>): (r: seq<T>) {
    if s == [] || !leq(s[0], x) then [x] + s else [s[0]] + Insert(leq, x, s[1..])
  }

  /** The sequence after inserting the elements of s one by one, in order. */
  function Sort<T>(leq: (T, T) -> bool, s: seq<T>): (r: seq<T>) {
    if s == [] then [] else Insert(leq, s[|s| - 1], Sort(leq, s[..|s| - 1]))
  }

  lemma {:induction false} InsertContents<T>(leq: (T, T) -> bool, x: T, s: seq<T>)
    ensures multiset(Insert(leq, x, s)) == multiset(s) + multiset{x}
  {
    if s == [] || !leq(s[0], x) {
    } else {
      InsertContents(leq, x, s[1..]);
      assert s == [s[0]] + s[1..];
    }
  }

  lemma {:induction false} InsertKeepsSorted<T(!new)>(leq: (T, T) -> bool, x: T, s: seq<T>)
    requires TotalOrder(leq) && Sorted(leq, s)
    ensures Sorted(leq, Insert(leq, x, s))
  {
    if s == [] || !leq(s[0], x) {
    } else {
      var r := Insert(leq, x, s[1..]);
      InsertKeepsSorted(leq, x, s[1..]);
      InsertContents(leq, x, s[1..]);
      forall j | 0 <= j < |r| ensures leq(s[0], r[j]) {
        assert r[j] in multiset(r);
        if r[j] != x {
          assert r[j] in s[1..];
        }
      }
    }
  }

  lemma LastContents<T>(s: seq<T>)
    requires s != []
    ensures multiset(s) == multiset(s[..|s| - 1]) + multiset{s[|s| - 1]}
  {
    assert s == s[..|s| - 1] + [s[|s| - 1]];
  }

  lemma {:induction false} SortIsSortedPermutation<T(!new)>(leq: (T, T) -> bool, s: seq<T>)
    requires TotalOrder(leq)
    ensures Sorted(leq, Sort(leq, s))
    ensures multiset(Sort(leq, s)) == multiset(s)
  {
    if s == [] {
    } else {
      var init := s[..|s| - 1];
      SortIsSortedPermutation(leq, init);
      InsertKeepsSorted(leq, s[|s| - 1], Sort(leq, init));
      InsertContents(leq, s[|s| - 1], Sort(leq, init));
      LastContents(s);
    }
  }

  lemma TailContents<T>(s: seq<T>)
    requires s != []
    ensures multiset(s[1..]) == multiset(s) - multiset{s[0]}
  {
    assert s == [s[0]] + s[1..];
  }

  lemma SortedTail<T(!new)>(leq: (T, T) -> bool, s: seq<T>)
    requires Sorted(leq, s) && s != []
    ensures Sorted(leq, s[1..])
  {
  }

  lemma SameHeadAndTail<T>(a: seq<T>, b: seq<T>)
    requires a != [] && b != [] && a[0] == b[0] && a[1..] == b[1..]
    ensures a == b
  {
    assert a == [a[0]] + a[1..] && b == [b[0]] + b[1..];
  }

  lemma FirstIsLeast<T(!new)>(leq: (T, T) -> bool, a: seq<T>, b: seq<T>)
    requires TotalOrder(leq) && Sorted(leq, a) && Sorted(leq, b) && a != [] && b != []
    requires multiset(a) == multiset(b)
    ensures a[0] == b[0]
  {
    assert a[0] in multiset(b) && b[0] in multiset(a);
    var i :| 0 <= i < |b| && b[i] == a[0];
    var j :| 0 <= j < |a| && a[j] == b[0];
  }

  /** A sorted sequence is determined by its contents. */
  lemma {:induction false} SortedUnique<T(!new)>(leq: (T, T) -> bool, a: seq<T>, b: seq<T>)
    requires TotalOrder(leq) && Sorted(leq, a) && Sorted(leq, b)
    requires multiset(a) == multiset(b)
    ensures a == b
  {
    assert |a| == |multiset(a)| == |multiset(b)| == |b|;
    if a == [] {
    } else {
      FirstIsLeast(leq, a, b);
      TailContents(a);
      TailContents(b);
      SortedTail(leq, a);
      SortedTail(leq, b);
      SortedUnique(leq, a[1..], b[1..]);
      SameHeadAndTail(a, b);
    }
  }

  /** Sorting identifies exactly the permutations of one another. */
  lemma SortEqualIffPermutation<T(!new)>(leq: (T, T) -> bool, a: seq<T>, b: seq<T>)
    requires TotalOrder(leq)
    ensures Sort(leq, a) == Sort(leq, b) <==> multiset(a) == multiset(b)
  {
    SortIsSortedPermutation(leq, a);
    SortIsSortedPermutation(leq, b);
    if multiset(a) == multiset(b) {
      SortedUnique(leq, Sort(leq, a), Sort(leq, b));
    }
  }

  function Elements<T>(s: seq<T>): set<T> { set x | x in s }

  lemma ElementsOfPrefix<T>(s: seq<T>, i: nat)
    requires i < |s|
    ensures Elements(s[..i + 1]) == Elements(s[..i]) + {s[i]}
  {
    assert s[..i + 1] == s[..i] + [s[i]];
  }

  predicate NoDuplicates<T(==)>(s: seq<T>) {
    forall i, j :: 0 <= i < j < |s| ==> s[i] != s[j]
  }
}
