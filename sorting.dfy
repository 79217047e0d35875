/**
 A stable sort over a caller-chosen "ranks no later than" relation.

 The handlers order query results (`order_by('-created_at')`, `order_by('-date')`,
 `order_by('day_of_week', 'start_time')`) and the admin feed sorts a Python
 list with `list.sort(key=..., reverse=True)`, which is stable. Both are
 modelled by `Sort`: the result is ordered, is a permutation of the input,
 and keeps the input order among elements that tie.
 */
module Sorting {

  /** `before(a, b)`: `a` may be placed ahead of `b`. Must be total and transitive. */
  ghost predicate TotalPreorder<T(!new)>(before: (T, T) -> bool) {
    && (forall a, b :: before(a, b) || before(b, a))
    && (forall a, b, c :: before(a, b) && before(b, c) ==> before(a, c))
  }

  /** Larger key first: `order_by('-field')`. */
  function KeyDesc<T>(key: T -> int): (T, T) -> bool {
    (a: T, b: T) => key(a) >= key(b)
  }

  /** Smaller key first: `order_by('field')`. */
  function KeyAsc<T>(key: T -> int): (T, T) -> bool {
    (a: T, b: T) => key(a) <= key(b)
  }

  lemma KeyOrdersArePreorders<T(!new)>(key: T -> int)
    ensures TotalPreorder(KeyDesc(key)) && TotalPreorder(KeyAsc(key))
  {
  }

  predicate SortedBy<T>(s: seq<T>, before: (T, T) -> bool) {
    forall i, j :: 0 <= i < j < |s| ==> before(s[i], s[j])
  }

  /** `a` and `b` tie: neither must come first. */
  predicate Tie<T>(a: T, b: T, before: (T, T) -> bool) {
    before(a, b) && before(b, a)
  }

  /** The elements of `s` that tie with `k`, in their order in `s`. */
  function TiesWith<T>(s: seq<T>, k: T, before: (T, T) -> bool): seq<T> {
    if s == [] then []
    else (if Tie(s[0], k, before) then [s[0]] else []) + TiesWith(s[1..], k, before)
  }

  /** Puts `x` after every element that may precede it: after its ties too. */
  function Insert<T>(x: T, s: seq<T>, before: (T, T) -> bool): (r: seq<T>)
    ensures multiset(r) == multiset(s) + multiset{x}
    ensures |r| == |s| + 1
  {
    if s == [] then [x]
    else if before(s[0], x) then
      assert s == [s[0]] + s[1..];
      [s[0]] + Insert(x, s[1..], before)
    else [x] + s
  }

  /** Insertion sort, taking the input's elements from first to last. */
  function Sort<T>(s: seq<T>, before: (T, T) -> bool): (r: seq<T>)
    ensures multiset(r) == multiset(s)
    ensures |r| == |s|
  {
    if s == [] then []
    else
      assert s == s[..|s| - 1] + [s[|s| - 1]];
      Insert(s[|s| - 1], Sort(s[..|s| - 1], before), before)
  }

  lemma {:induction false} InsertSorted<T(!new)>(x: T, s: seq<T>, before: (T, T) -> bool)
    requires TotalPreorder(before) && SortedBy(s, before)
    ensures SortedBy(Insert(x, s, before), before)
  {
    if s != [] {
      if before(s[0], x) {
        InsertSorted(x, s[1..], before);
        var r := Insert(x, s[1..], before);
        assert multiset(r) == multiset(s[1..]) + multiset{x};
        forall j | 0 <= j < |r| ensures before(s[0], r[j]) {
          assert r[j] in multiset(r);
          if r[j] != x {
            assert r[j] in multiset(s[1..]);
            var m :| 0 <= m < |s[1..]| && s[1..][m] == r[j];
            assert s[m + 1] == r[j];
          }
        }
      } else {
        assert before(x, s[0]);
      }
    }
  }

  /** The result is ordered. */
  lemma {:induction false} SortSorted<T(!new)>(s: seq<T>, before: (T, T) -> bool)
    requires TotalPreorder(before)
    ensures SortedBy(Sort(s, before), before)
  {
    if s != [] {
      SortSorted(s[..|s| - 1], before);
      InsertSorted(s[|s| - 1], Sort(s[..|s| - 1], before), before);
    }
  }

  lemma {:induction false} TiesWithAppend<T>(a: seq<T>, b: seq<T>, k: T, before: (T, T) -> bool)
    ensures TiesWith(a + b, k, before) == TiesWith(a, k, before) + TiesWith(b, k, before)
  {
    if a == [] {
      assert a + b == b;
    } else {
      var head: seq<T> := if Tie(a[0], k, before) then [a[0]] else [];
      assert (a + b)[0] == a[0] && (a + b)[1..] == a[1..] + b;
      TiesWithAppend(a[1..], b, k, before);
      assert TiesWith(a + b, k, before) == head + TiesWith(a[1..] + b, k, before);
      assert TiesWith(a, k, before) == head + TiesWith(a[1..], k, before);
    }
  }

  lemma {:induction false} TiesWithNone<T>(s: seq<T>, k: T, before: (T, T) -> bool)
    requires forall i :: 0 <= i < |s| ==> !Tie(s[i], k, before)
    ensures TiesWith(s, k, before) == []
  {
    if s != [] {
      TiesWithNone(s[1..], k, before);
    }
  }

  lemma {:induction false} InsertTies<T(!new)>(x: T, s: seq<T>, k: T, before: (T, T) -> bool)
    requires TotalPreorder(before) && SortedBy(s, before)
    ensures TiesWith(Insert(x, s, before), k, before)
         == TiesWith(s, k, before) + TiesWith([x], k, before)
  {
    if s == [] {
      assert TiesWith(s, k, before) == [];
    } else if before(s[0], x) {
      assert SortedBy(s[1..], before);
      InsertTies(x, s[1..], k, before);
      InsertTiesStep(x, s, k, before);
    } else {
      InsertTiesFront(x, s, k, before);
    }
  }

  /** Inserting past the head keeps the head's tie in front of the rest. */
  lemma InsertTiesStep<T>(x: T, s: seq<T>, k: T, before: (T, T) -> bool)
    requires s != [] && before(s[0], x)
    requires TiesWith(Insert(x, s[1..], before), k, before) == TiesWith(s[1..], k, before) + TiesWith([x], k, before)
    ensures TiesWith(Insert(x, s, before), k, before) == TiesWith(s, k, before) + TiesWith([x], k, before)
  {
    var rest := Insert(x, s[1..], before);
    var h: seq<T> := if Tie(s[0], k, before) then [s[0]] else [];
    var a, b := TiesWith(s[1..], k, before), TiesWith([x], k, before);
    calc {
      TiesWith(Insert(x, s, before), k, before);
      { InsertPast(x, s, before); }
      TiesWith([s[0]] + rest, k, before);
      { TiesWithCons(s[0], rest, k, before); }
      h + (a + b);
      { assert h + (a + b) == (h + a) + b; }
      (h + a) + b;
      { TiesWithCons(s[0], s[1..], k, before); assert [s[0]] + s[1..] == s; }
      TiesWith(s, k, before) + b;
    }
  }

  lemma InsertPast<T>(x: T, s: seq<T>, before: (T, T) -> bool)
    requires s != [] && before(s[0], x)
    ensures Insert(x, s, before) == [s[0]] + Insert(x, s[1..], before)
  {
  }

  lemma TiesWithCons<T>(x: T, t: seq<T>, k: T, before: (T, T) -> bool)
    ensures TiesWith([x] + t, k, before) == (if Tie(x, k, before) then [x] else []) + TiesWith(t, k, before)
  {
    assert ([x] + t)[0] == x && ([x] + t)[1..] == t;
  }

  /** Inserting in front of the head: `x` comes first, and if it ties with `k` nothing in `s` does. */
  lemma InsertTiesFront<T(!new)>(x: T, s: seq<T>, k: T, before: (T, T) -> bool)
    requires TotalPreorder(before) && SortedBy(s, before)
    requires s != [] && !before(s[0], x)
    ensures TiesWith(Insert(x, s, before), k, before) == TiesWith(s, k, before) + TiesWith([x], k, before)
  {
    assert Insert(x, s, before) == [x] + s;
    TiesWithAppend([x], s, k, before);
    if Tie(x, k, before) {
      NoTiesAfterStrictlyEarlier(x, s, k, before);
      assert TiesWith(s, k, before) + TiesWith([x], k, before) == TiesWith([x], k, before);
    } else {
      assert TiesWith([x], k, before) == TiesWith([], k, before) == [];
      assert TiesWith([x], k, before) + TiesWith(s, k, before) == TiesWith(s, k, before);
    }
  }

  /** When `x` must come before the head of a sorted `s`, nothing in `s` ties with a tie of `x`. */
  lemma NoTiesAfterStrictlyEarlier<T(!new)>(x: T, s: seq<T>, k: T, before: (T, T) -> bool)
    requires TotalPreorder(before) && SortedBy(s, before)
    requires s != [] && !before(s[0], x) && Tie(x, k, before)
    ensures TiesWith(s, k, before) == []
  {
    forall i | 0 <= i < |s| ensures !Tie(s[i], k, before) {
      assert before(s[0], s[i]);
    }
    TiesWithNone(s, k, before);
  }

  /** Stability: elements that tie keep their input order. */
  lemma {:induction false} SortStable<T(!new)>(s: seq<T>, k: T, before: (T, T) -> bool)
    requires TotalPreorder(before)
    ensures TiesWith(Sort(s, before), k, before) == TiesWith(s, k, before)
  {
    if s != [] {
      var init, last := s[..|s| - 1], s[|s| - 1];
      SortStable(init, k, before);
      SortSorted(init, before);
      InsertTies(last, Sort(init, before), k, before);
      assert s == init + [last];
      TiesWithAppend(init, [last], k, before);
    }
  }

  /** The sorted sequence holds the same elements, in order. */
  lemma {:induction false} SortSpec<T(!new)>(s: seq<T>, before: (T, T) -> bool)
    requires TotalPreorder(before)
    ensures SortedBy(Sort(s, before), before)
    ensures |Sort(s, before)| == |s|
    ensures forall i :: 0 <= i < |s| ==> s[i] in Sort(s, before)
    ensures forall i :: 0 <= i < |s| ==> Sort(s, before)[i] in s
  {
    var r := Sort(s, before);
    SortSorted(s, before);
    forall i | 0 <= i < |s| ensures s[i] in r {
      assert s[i] in multiset(s);
    }
    forall i | 0 <= i < |s| ensures r[i] in s {
      assert r[i] in multiset(r);
    }
  }

  // ---------------------------------------------------------------------
  // Python's ordering of strings

  /** `a <= b` on Python strings: code-point lexicographic order. */
  predicate LexLe(a: string, b: string)
    decreases |a|
  {
    a == [] || (b != [] && (a[0] < b[0] || (a[0] == b[0] && LexLe(a[1..], b[1..]))))
  }

  lemma {:induction false} LexLeTotal(a: string, b: string)
    ensures LexLe(a, b) || LexLe(b, a)
    decreases |a|
  {
    if a != [] && b != [] && a[0] == b[0] {
      LexLeTotal(a[1..], b[1..]);
    }
  }

  lemma {:induction false} LexLeTrans(a: string, b: string, c: string)
    requires LexLe(a, b) && LexLe(b, c)
    ensures LexLe(a, c)
    decreases |a|
  {
    if a != [] && a[0] == b[0] && b[0] == c[0] {
      LexLeTrans(a[1..], b[1..], c[1..]);
    }
  }

  lemma {:induction false} LexLeAntisymmetric(a: string, b: string)
    requires LexLe(a, b) && LexLe(b, a)
    ensures a == b
    decreases |a|
  {
    if a != [] {
      LexLeAntisymmetric(a[1..], b[1..]);
      assert a == [a[0]] + a[1..];
      assert b == [b[0]] + b[1..];
    }
  }

  /** A prefix sorts no later than the string it begins: `"2024-05-10" <= "2024-05-10T08:00:00"`. */
  lemma {:induction false} PrefixLexLe(a: string, b: string)
    requires a <= b
    ensures LexLe(a, b)
    decreases |a|
  {
    if a != [] {
      PrefixLexLe(a[1..], b[1..]);
    }
  }
}
