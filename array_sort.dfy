/** `Array.prototype.sort` with a comparator, as the site script uses it.
    ECMAScript requires the sort to be stable; the comparator `cmp` is given
    here as the relation `le(a, b)` meaning `cmp(a, b) <= 0` ("a may stay
    before b"). For a total preorder every stable sort yields the same
    sequence, so the insertion sort below stands for the built-in one. */
module ArraySort {

  ghost predicate Transitive<T(!new)>(le: (T, T) -> bool) {
    forall a, b, c :: le(a, b) && le(b, c) ==> le(a, c)
  }

  ghost predicate TotalPreorder<T(!new)>(le: (T, T) -> bool) {
    && (forall a, b :: le(a, b) || le(b, a))
    && Transitive(le)
  }

  predicate SortedBy<T>(s: seq<T>, le: (T, T) -> bool) {
    forall i, j :: 0 <= i < j < |s| ==> le(s[i], s[j])
  }

  /** `a` and `b` compare equal (the comparator returns 0 both ways). */
  predicate Tied<T>(a: T, b: T, le: (T, T) -> bool) {
    le(a, b) && le(b, a)
  }

  /** The elements of `s` that tie with `x`, in their order in `s`. */
  function TiesOf<T>(s: seq<T>, x: T, le: (T, T) -> bool): (r: seq<T>) {
    if s == [] then []
    else (if Tied(x, s[0], le) then [s[0]] else []) + TiesOf(s[1..], x, le)
  }

  /** `TiesOf` keeps exactly the elements of `s` that tie with `x`. */
  lemma {:induction false} TiesOfMembers<T>(s: seq<T>, x: T, le: (T, T) -> bool)
    ensures forall i :: 0 <= i < |TiesOf(s, x, le)| ==> TiesOf(s, x, le)[i] in s && Tied(x, TiesOf(s, x, le)[i], le)
    ensures forall i :: 0 <= i < |s| && Tied(x, s[i], le) ==> s[i] in TiesOf(s, x, le)
  {
    if s != [] {
      TiesOfMembers(s[1..], x, le);
      var r := TiesOf(s, x, le);
      var head := if Tied(x, s[0], le) then [s[0]] else [];
      assert r == head + TiesOf(s[1..], x, le);
      forall i | 0 <= i < |r| ensures r[i] in s && Tied(x, r[i], le) {
        if i >= |head| {
          assert r[i] == TiesOf(s[1..], x, le)[i - |head|];
        }
      }
      forall i | 0 <= i < |s| && Tied(x, s[i], le) ensures s[i] in r {
        if i > 0 {
          assert s[i] == s[1..][i - 1];
        }
      }
    }
  }

  /** Places `x` before the first element it may precede. */
  function Insert<T>(x: T, s: seq<T>, le: (T, T) -> bool): (r: seq<T>)
    ensures |r| == |s| + 1
  {
    if s == [] then [x]
    else if le(x, s[0]) then [x] + s
    else [s[0]] + Insert(x, s[1..], le)
  }

  /** `s.sort(cmp)`. */
  function Sort<T>(s: seq<T>, le: (T, T) -> bool): (r: seq<T>)
    ensures |r| == |s|
  {
    if s == [] then [] else Insert(s[0], Sort(s[1..], le), le)
  }

  /** Inserting adds exactly the one element. */
  lemma {:induction false} InsertPermutes<T>(x: T, s: seq<T>, le: (T, T) -> bool)
    ensures multiset(Insert(x, s, le)) == multiset(s) + multiset{x}
    ensures |Insert(x, s, le)| == |s| + 1
  {
    if s != [] && !le(x, s[0]) {
      InsertPermutes(x, s[1..], le);
      assert s == [s[0]] + s[1..];
    }
  }

  /** The sorted sequence is a permutation of the input. */
  lemma {:induction false} SortPermutes<T>(s: seq<T>, le: (T, T) -> bool)
    ensures multiset(Sort(s, le)) == multiset(s)
    ensures |Sort(s, le)| == |s|
  {
    if s != [] {
      SortPermutes(s[1..], le);
      InsertPermutes(s[0], Sort(s[1..], le), le);
      assert s == [s[0]] + s[1..];
    }
  }

  lemma {:induction false} InsertSorted<T(!new)>(x: T, s: seq<T>, le: (T, T) -> bool)
    requires TotalPreorder(le) && SortedBy(s, le)
    ensures SortedBy(Insert(x, s, le), le)
  {
    if s != [] && !le(x, s[0]) {
      var tail := Insert(x, s[1..], le);
      InsertSorted(x, s[1..], le);
      InsertPermutes(x, s[1..], le);
      forall y | y in tail ensures le(s[0], y) {
        assert y in multiset(tail);
        if y != x {
          assert y in s[1..];
        }
      }
      var r := [s[0]] + tail;
      forall i, j | 0 <= i < j < |r| ensures le(r[i], r[j]) {
        if i == 0 {
          assert r[j] in tail;
        } else {
          assert r[i] == tail[i - 1] && r[j] == tail[j - 1];
        }
      }
    }
  }

  /** The sorted result respects the comparator. */
  lemma {:induction false} SortSorted<T(!new)>(s: seq<T>, le: (T, T) -> bool)
    requires TotalPreorder(le)
    ensures SortedBy(Sort(s, le), le)
  {
    if s != [] {
      SortSorted(s[1..], le);
      InsertSorted(s[0], Sort(s[1..], le), le);
    }
  }

  /** An element that `y` may not precede cannot tie with anything that ties with `y`. */
  lemma TiedBefore<T(!new)>(x: T, y: T, z: T, le: (T, T) -> bool)
    requires Transitive(le) && Tied(x, y, le) && !le(y, z)
    ensures !Tied(x, z, le)
  {
  }

  lemma {:induction false} TiesOfInsert<T(!new)>(y: T, s: seq<T>, x: T, le: (T, T) -> bool)
    requires Transitive(le)
    ensures TiesOf(Insert(y, s, le), x, le) == (if Tied(x, y, le) then [y] else []) + TiesOf(s, x, le)
  {
    var head := if Tied(x, y, le) then [y] else [];
    if s == [] {
      assert [y][1..] == [];
      assert TiesOf([y], x, le) == head + TiesOf([y][1..], x, le);
    } else if le(y, s[0]) {
      var r := [y] + s;
      assert r[1..] == s;
      assert TiesOf(r, x, le) == head + TiesOf(s, x, le);
    } else {
      var rest := Insert(y, s[1..], le);
      assert Insert(y, s, le) == [s[0]] + rest;
      TiesOfInsert(y, s[1..], x, le);
      TiesOfCons(s[0], rest, x, le);
      TiesOfCons(s[0], s[1..], x, le);
      assert s == [s[0]] + s[1..];
      if Tied(x, y, le) {
        TiedBefore(x, y, s[0], le);
        assert TiesOf(s, x, le) == TiesOf(s[1..], x, le);
      } else {
        assert TiesOf(rest, x, le) == TiesOf(s[1..], x, le);
      }
    }
  }

  lemma TiesOfCons<T>(a: T, s: seq<T>, x: T, le: (T, T) -> bool)
    ensures TiesOf([a] + s, x, le) == (if Tied(x, a, le) then [a] else []) + TiesOf(s, x, le)
  {
    assert ([a] + s)[1..] == s;
  }

  /** Stability: the elements that tie with any `x` keep their relative order. */
  lemma {:induction false} SortStable<T(!new)>(s: seq<T>, x: T, le: (T, T) -> bool)
    requires Transitive(le)
    ensures TiesOf(Sort(s, le), x, le) == TiesOf(s, x, le)
  {
    if s != [] {
      SortStable(s[1..], x, le);
      TiesOfInsert(s[0], Sort(s[1..], le), x, le);
    }
  }

  /** Three elements given in strictly decreasing order come out reversed. */
  lemma SortReversedThree<T>(a: T, b: T, c: T, le: (T, T) -> bool)
    requires !le(b, a) && !le(c, a) && !le(c, b)
    ensures Sort([c, b, a], le) == [a, b, c]
  {
    assert [c, b, a][1..] == [b, a] && [b, a][1..] == [a] && [a][1..] == [];
    assert Sort([a], le) == Insert(a, [], le) == [a];
    assert Sort([b, a], le) == Insert(b, [a], le) == [a] + Insert(b, [], le) == [a, b];
    assert [a, b][1..] == [b] && [b][1..] == [];
    assert Insert(c, [b], le) == [b, c];
    assert Insert(c, [a, b], le) == [a] + Insert(c, [b], le);
    assert Sort([c, b, a], le) == Insert(c, Sort([b, a], le), le);
  }
}
