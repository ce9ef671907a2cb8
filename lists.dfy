/** Operations on id lists with the meaning of the JavaScript and MongoDB operations the
    handlers use: `indexOf`, `includes`, `splice(i, 1)`, `push`, `$push` and `$pull`. */
module Lists {
  import opened Common

  /** `Array.prototype.indexOf`: the first index holding `x`, or -1. */
  function IndexOf<T(==)>(s: seq<T>, x: T): (r: int)
    ensures -1 <= r < |s|
    ensures r == -1 <==> x !in s
    ensures r >= 0 ==> s[r] == x && x !in s[..r]
  {
    if s == [] then -1
    else if s[0] == x then 0
    else
      var k := IndexOf(s[1..], x);
      assert s[1..][..k + 1] == s[1..k + 2] by { if k >= 0 { assert s[1..][..k] == s[1..k + 1]; } }
      if k == -1 then -1 else k + 1
  }

  /** `splice(i, 1)`: the list without the element at index `i`. */
  function RemoveAt<T>(s: seq<T>, i: nat): (r: seq<T>)
    requires i < |s|
    ensures |r| == |s| - 1
    ensures multiset(r) == multiset(s) - multiset{s[i]}
  {
    assert s == s[..i] + [s[i]] + s[i + 1..];
    s[..i] + s[i + 1..]
  }

  /** MongoDB `$pull`: every element equal to `x` is removed, the others keep their order. */
  function Pull<T(==)>(s: seq<T>, x: T): (r: seq<T>)
    ensures multiset(r) == multiset(s)[x := 0]
    ensures x !in r
  {
    if s == [] then []
    else
      assert s == [s[0]] + s[1..];
      if s[0] == x then Pull(s[1..], x) else [s[0]] + Pull(s[1..], x)
  }

  /** `$pull` removes nothing but `x`. */
  lemma PullKeepsOthers<T>(s: seq<T>, x: T, y: T)
    requires y in s && y != x
    ensures y in Pull(s, x)
  {
    assert y in multiset(s);
    assert y in multiset(Pull(s, x));
  }

  /** No element occurs twice. */
  predicate NoDup<T(==)>(s: seq<T>)
  {
    forall i, j :: 0 <= i < j < |s| ==> s[i] != s[j]
  }

  /** A list without duplicates loses exactly one element by `RemoveAt`, and the rest stays duplicate-free. */
  lemma RemoveAtNoDup<T>(s: seq<T>, i: nat)
    requires i < |s| && NoDup(s)
    ensures NoDup(RemoveAt(s, i))
    ensures s[i] !in RemoveAt(s, i)
    ensures forall y :: y != s[i] ==> (y in RemoveAt(s, i) <==> y in s)
  {
    var r := RemoveAt(s, i);
    assert forall a :: 0 <= a < |r| ==> r[a] == s[if a < i then a else a + 1];
    forall y | y in s && y != s[i] ensures y in r {
      var j :| 0 <= j < |s| && s[j] == y;
      assert r[if j < i then j else j - 1] == y;
    }
    forall a, b | 0 <= a < b < |r| ensures r[a] != r[b] {
      var a', b' := if a < i then a else a + 1, if b < i then b else b + 1;
      assert r[a] == s[a'] && r[b] == s[b'];
    }
  }

  /** A `push` of an absent element keeps a list duplicate-free. */
  lemma AppendNoDup<T>(s: seq<T>, x: T)
    requires NoDup(s) && x !in s
    ensures NoDup(s + [x])
  {
  }

  /** The elements satisfying `p`, in their original order (`Array.prototype.filter`). */
  function Filter<T>(s: seq<T>, p: T -> bool): (r: seq<T>)
    ensures |r| <= |s|
    ensures forall k :: 0 <= k < |r| ==> p(r[k]) && r[k] in s
    ensures forall y :: y in s && p(y) ==> y in r
  {
    if s == [] then []
    else
      var init := s[..|s| - 1];
      assert s == init + [s[|s| - 1]];
      Filter(init, p) + (if p(s[|s| - 1]) then [s[|s| - 1]] else [])
  }

  /** `filter` works element by element: on `a + b` it keeps the survivors of `a`, then those of
      `b`, so the survivors keep their order. */
  lemma {:induction false} FilterAppend<T>(a: seq<T>, b: seq<T>, p: T -> bool)
    ensures Filter(a + b, p) == Filter(a, p) + Filter(b, p)
  {
    if b == [] {
      assert a + b == a;
    } else {
      var c, init, x := a + b, b[..|b| - 1], b[|b| - 1];
      var tail := if p(x) then [x] else [];
      assert c[..|c| - 1] == a + init && c[|c| - 1] == x;
      FilterAppend(a, init, p);
      calc {
        Filter(c, p);
        Filter(a + init, p) + tail;
        (Filter(a, p) + Filter(init, p)) + tail;
        Filter(a, p) + (Filter(init, p) + tail);
        Filter(a, p) + Filter(b, p);
      }
    }
  }

  /** The test `y => y != x` that `$pull` applies to each element. */
  function Other<T(==)>(x: T): T -> bool
  {
    y => y != x
  }

  /** `$pull` is the filter that drops the pulled value, so it keeps the order of what remains. */
  lemma {:induction false} PullIsFilter<T>(s: seq<T>, x: T)
    ensures Pull(s, x) == Filter(s, Other(x))
  {
    if s != [] {
      var head, rest := [s[0]], s[1..];
      PullIsFilter(rest, x);
      assert s == head + rest;
      FilterAppend(head, rest, Other(x));
      assert head[..0] == [];
      assert Filter(head, Other(x)) == if s[0] != x then head else [];
    }
  }

  /** The positions whose element satisfies `p`. */
  function Positions<T>(s: seq<T>, p: T -> bool): set<int>
  {
    set i | 0 <= i < |s| && p(s[i])
  }

  /** `filter(p).length` is the number of positions whose element satisfies `p`. */
  lemma {:induction false} FilterLengthIsPositionCount<T>(s: seq<T>, p: T -> bool)
    ensures |Filter(s, p)| == |Positions(s, p)|
  {
    if s != [] {
      var n := |s|;
      var init := s[..n - 1];
      FilterLengthIsPositionCount(init, p);
      PositionsSnoc(s, p);
      var before := Positions(init, p);
      if p(s[n - 1]) {
        assert |Filter(s, p)| == |Filter(init, p)| + 1;
        assert n - 1 !in before;
        assert |before + {n - 1}| == |before| + 1;
      } else {
        assert |Filter(s, p)| == |Filter(init, p)|;
      }
    }
  }

  lemma PositionsSnoc<T>(s: seq<T>, p: T -> bool)
    requires s != []
    ensures Positions(s, p) == Positions(s[..|s| - 1], p) + (if p(s[|s| - 1]) then {|s| - 1} else {})
  {
    var init := s[..|s| - 1];
    forall i | 0 <= i < |s| - 1 ensures init[i] == s[i] { }
  }
}
