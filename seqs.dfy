/** Sequence helpers shared by the descriptor matcher and the cleanup engine. */
module Seqs {

  /** No element occurs twice. */
  predicate NoDup<T(==)>(s: seq<T>) {
    forall i, j | 0 <= i < j < |s| :: s[i] != s[j]
  }

  /** The elements of `s` that satisfy `keep`, in their original order. */
  function Filter<T>(s: seq<T>, keep: T -> bool): (r: seq<T>)
    ensures |r| <= |s|
    ensures forall x | x in r :: x in s && keep(x)
    ensures forall x | x in s && keep(x) :: x in r
  {
    if s == [] then [] else (if keep(s[0]) then [s[0]] else []) + Filter(s[1..], keep)
  }

  /** Filtering distributes over concatenation: together with the one-element
      case this says that `Filter` keeps exactly the selected elements, in order. */
  lemma {:induction false} FilterAppend<T>(a: seq<T>, b: seq<T>, keep: T -> bool)
    ensures Filter(a + b, keep) == Filter(a, keep) + Filter(b, keep)
  {
    if a == [] {
      assert a + b == b;
    } else {
      assert (a + b)[0] == a[0];
      assert (a + b)[1..] == a[1..] + b;
      FilterAppend(a[1..], b, keep);
    }
  }

  /** The first element kept is the first element of `s` that satisfies `keep`. */
  lemma {:induction false} FilterFirst<T>(s: seq<T>, keep: T -> bool)
    requires Filter(s, keep) != []
    ensures exists i | 0 <= i < |s| :: s[i] == Filter(s, keep)[0] && keep(s[i]) && forall j | 0 <= j < i :: !keep(s[j])
  {
    if keep(s[0]) {
      assert s[0] == Filter(s, keep)[0];
    } else {
      assert Filter(s, keep) == Filter(s[1..], keep);
      FilterFirst(s[1..], keep);
      var i :| 0 <= i < |s[1..]| && s[1..][i] == Filter(s[1..], keep)[0] && keep(s[1..][i])
               && forall j | 0 <= j < i :: !keep(s[1..][j]);
      assert s[i + 1] == Filter(s, keep)[0];
      forall j | 0 <= j < i + 1 ensures !keep(s[j]) {
        if j > 0 { assert s[j] == s[1..][j - 1]; }
      }
    }
  }

  /** One step of filtering a suffix. */
  lemma FilterSuffix<T>(s: seq<T>, i: nat, keep: T -> bool)
    requires i < |s|
    ensures Filter(s[i..], keep) == (if keep(s[i]) then [s[i]] else []) + Filter(s[i + 1..], keep)
  {
    assert s[i..][0] == s[i] && s[i..][1..] == s[i + 1..];
  }

  /** Filtering a two-element sequence. */
  lemma FilterPair<T>(x: T, y: T, keep: T -> bool)
    ensures Filter([x, y], keep) == (if keep(x) then [x] else []) + (if keep(y) then [y] else [])
  {
    assert [x, y][1..] == [y] && [y][1..] == [];
  }

  /** Filtering a three-element sequence. */
  lemma FilterTriple<T>(x: T, y: T, z: T, keep: T -> bool)
    ensures Filter([x, y, z], keep) ==
      (if keep(x) then [x] else []) + (if keep(y) then [y] else []) + (if keep(z) then [z] else [])
  {
    assert [x, y, z][1..] == [y, z];
    FilterPair(y, z, keep);
  }

  /** Nothing is kept when no element qualifies. */
  lemma FilterNone<T>(s: seq<T>, keep: T -> bool)
    requires forall x | x in s :: !keep(x)
    ensures Filter(s, keep) == []
  {
    if s != [] {
      assert s[0] in s;
      FilterNone(s[1..], keep);
    }
  }

  /** Conversely, the first kept element heads the filtered sequence. */
  lemma {:induction false} FilterAt<T>(s: seq<T>, keep: T -> bool, i: nat)
    requires i < |s| && keep(s[i])
    requires forall j | 0 <= j < i :: !keep(s[j])
    ensures Filter(s, keep) != [] && Filter(s, keep)[0] == s[i]
    decreases i
  {
    if i > 0 {
      assert !keep(s[0]);
      FilterAt(s[1..], keep, i - 1);
    }
  }

  /** Appends each element of `xs` to `acc` unless it is already present
      (the first-seen-order union used for the wanted tag list). */
  function AddUnique<T(==)>(acc: seq<T>, xs: seq<T>): (r: seq<T>)
    ensures acc <= r
    ensures forall x | x in r :: x in acc || x in xs
    ensures forall x | x in xs :: x in r
    ensures NoDup(acc) ==> NoDup(r)
    decreases |xs|
  {
    if xs == [] then acc
    else
      var acc' := if xs[0] in acc then acc else acc + [xs[0]];
      assert acc <= acc' && xs[0] in acc';
      AddUnique(acc', xs[1..])
  }

  /** Every element `r` holds past the prefix `acc` is new to `acc`. */
  predicate FreshAfter<T(==)>(acc: seq<T>, r: seq<T>)
  {
    forall i | |acc| <= i < |r| :: r[i] !in acc
  }

  /** Past the prefix `acc`, `r` lists elements in the order of their first
      occurrence in `xs`: when one precedes another in `r`, it occurs in `xs`
      before the other one first does. */
  predicate FirstSeenOrder<T(==)>(acc: seq<T>, xs: seq<T>, r: seq<T>)
  {
    forall i, j | |acc| <= i < j < |r| ::
      exists p | 0 <= p < |xs| :: xs[p] == r[i] && r[j] !in xs[..p + 1]
  }

  /** `AddUnique` appends only new elements, in first-seen order. */
  lemma {:induction false} AddUniqueFirstSeen<T>(acc: seq<T>, xs: seq<T>)
    ensures FreshAfter(acc, AddUnique(acc, xs))
    ensures FirstSeenOrder(acc, xs, AddUnique(acc, xs))
    decreases |xs|
  {
    if xs != [] {
      var acc' := if xs[0] in acc then acc else acc + [xs[0]];
      var r := AddUnique(acc', xs[1..]);
      assert AddUnique(acc, xs) == r;
      AddUniqueFirstSeen(acc', xs[1..]);
      AddUniqueOrderStep(acc, xs, acc', r);
    }
  }

  /** One step of the first-seen order: the head of `xs` is either already
      accumulated or appended first, ahead of everything from the tail. */
  lemma AddUniqueOrderStep<T>(acc: seq<T>, xs: seq<T>, acc': seq<T>, r: seq<T>)
    requires xs != [] && acc' == (if xs[0] in acc then acc else acc + [xs[0]])
    requires acc' <= r
    requires FreshAfter(acc', r) && FirstSeenOrder(acc', xs[1..], r)
    ensures FreshAfter(acc, r) && FirstSeenOrder(acc, xs, r)
  {
    forall i | |acc| <= i < |r| ensures r[i] !in acc {
      if i >= |acc'| {
        assert forall x | x in acc :: x in acc';
      } else {
        assert r[i] == acc'[i] == xs[0];
      }
    }
    forall i, j | |acc| <= i < j < |r|
      ensures exists p | 0 <= p < |xs| :: xs[p] == r[i] && r[j] !in xs[..p + 1]
    {
      assert r[j] !in acc' && xs[0] in acc';
      if i < |acc'| {
        assert r[i] == acc'[i] == xs[0];
        assert xs[..1] == [xs[0]];
        assert xs[0] == r[i] && r[j] !in xs[..0 + 1];
      } else {
        var p :| 0 <= p < |xs[1..]| && xs[1..][p] == r[i] && r[j] !in xs[1..][..p + 1];
        assert xs[..p + 2] == [xs[0]] + xs[1..][..p + 1];
        assert xs[p + 1] == r[i] && r[j] !in xs[..(p + 1) + 1];
      }
    }
  }

  /** Merging two lists one after the other is merging their concatenation. */
  lemma {:induction false} AddUniqueConcat<T>(acc: seq<T>, xs: seq<T>, ys: seq<T>)
    ensures AddUnique(AddUnique(acc, xs), ys) == AddUnique(acc, xs + ys)
    decreases |xs|
  {
    if xs == [] {
      assert xs + ys == ys;
    } else {
      var acc' := if xs[0] in acc then acc else acc + [xs[0]];
      assert (xs + ys)[0] == xs[0] && (xs + ys)[1..] == xs[1..] + ys;
      AddUniqueConcat(acc', xs[1..], ys);
    }
  }

  /** The conjunction of two selection predicates. */
  function Both<T>(p: T -> bool, q: T -> bool): T -> bool {
    x => p(x) && q(x)
  }

  /** Filtering twice is filtering once by the conjunction. */
  lemma {:induction false} FilterFilter<T>(s: seq<T>, p: T -> bool, q: T -> bool)
    ensures Filter(Filter(s, p), q) == Filter(s, Both(p, q))
  {
    if s != [] {
      var head := if p(s[0]) then [s[0]] else [];
      FilterAppend(head, Filter(s[1..], p), q);
      FilterFilter(s[1..], p, q);
      if p(s[0]) {
        assert Filter(head, q) == if q(s[0]) then [s[0]] else [];
      }
    }
  }
}
