/** Hit selection of src/intersections.rs: keep the intersections at or in
    front of the ray origin (t >= 0), sort them by t with a stable sort, and
    take the first. The sort is an in-place insertion sort on an array,
    specified by a functional insertion sort on sequences. */
module Intersections {

  /** An intersection records which object was hit (the sphere's id) and
      where along the ray. */
  datatype Intersection = Intersection(objectId: nat, t: real)

  datatype Option<T> = None | Some(value: T)

  predicate SortedByT(s: seq<Intersection>)
  {
    forall i, j :: 0 <= i < j < |s| ==> s[i].t <= s[j].t
  }

  /** The `t >= 0` filter, in input order. */
  function Forward(xs: seq<Intersection>): (fs: seq<Intersection>)
    ensures |fs| <= |xs|
    ensures forall x :: x in fs <==> x in xs && x.t >= 0.0
  {
    if |xs| == 0 then []
    else
      var rest := Forward(xs[..|xs| - 1]);
      assert xs == xs[..|xs| - 1] + [xs[|xs| - 1]];
      if xs[|xs| - 1].t >= 0.0 then rest + [xs[|xs| - 1]] else rest
  }

  /** Inserts `x` into `s` after every trailing element whose t exceeds x.t:
      equal keys keep their arrival order, which makes the sort stable. */
  function Insert(s: seq<Intersection>, x: Intersection): (r: seq<Intersection>)
    ensures |r| == |s| + 1
    ensures multiset(r) == multiset(s) + multiset{x}
  {
    if |s| == 0 || s[|s| - 1].t <= x.t then s + [x]
    else
      assert s == s[..|s| - 1] + [s[|s| - 1]];
      Insert(s[..|s| - 1], x) + [s[|s| - 1]]
  }

  /** Stable insertion sort by t: each element in turn is inserted into the
      sorted prefix before it. */
  function InsertionSorted(s: seq<Intersection>): (r: seq<Intersection>)
    ensures multiset(r) == multiset(s)
  {
    if |s| == 0 then []
    else
      assert s == s[..|s| - 1] + [s[|s| - 1]];
      Insert(InsertionSorted(s[..|s| - 1]), s[|s| - 1])
  }

  /** The index of the first element whose t is least. */
  function FirstMinIndex(s: seq<Intersection>): (k: nat)
    requires |s| > 0
    ensures k < |s|
    ensures forall j :: 0 <= j < |s| ==> s[k].t <= s[j].t
    ensures forall j :: 0 <= j < k ==> s[j].t > s[k].t
  {
    if |s| == 1 then 0
    else
      var k := FirstMinIndex(s[..|s| - 1]);
      if s[|s| - 1].t < s[k].t then |s| - 1 else k
  }

  /** What `hit` returns: the first of the sorted forward intersections. */
  function HitOf(xs: seq<Intersection>): (h: Option<Intersection>)
    ensures h.Some? ==> h.value in xs && h.value.t >= 0.0
  {
    var sorted := InsertionSorted(Forward(xs));
    if |sorted| == 0 then None
    else
      assert sorted[0] in multiset(Forward(xs));
      Some(sorted[0])
  }

  // ---- The functional sort ----

  lemma {:induction false} InsertKeepsSorted(s: seq<Intersection>, x: Intersection)
    requires SortedByT(s)
    ensures SortedByT(Insert(s, x))
  {
    if |s| == 0 || s[|s| - 1].t <= x.t {
    } else {
      var init, last := s[..|s| - 1], s[|s| - 1];
      InsertKeepsSorted(init, x);
      var r := Insert(init, x);
      forall y | y in r
        ensures y.t <= last.t
      {
        assert y in multiset(r);
        assert y in multiset(init) || y == x;
        if y != x {
          assert y in init;
        }
      }
      assert Insert(s, x) == r + [last];
    }
  }

  /** The sort's output is ordered by t. */
  lemma {:induction false} InsertionSortedIsSorted(s: seq<Intersection>)
    ensures SortedByT(InsertionSorted(s))
  {
    if |s| > 0 {
      InsertionSortedIsSorted(s[..|s| - 1]);
      InsertKeepsSorted(InsertionSorted(s[..|s| - 1]), s[|s| - 1]);
    }
  }

  /** Inserting into a sorted non-empty sequence puts x in front exactly when
      it is strictly smaller than the current front: a tie keeps the older
      element first. */
  lemma {:induction false} InsertHead(s: seq<Intersection>, x: Intersection)
    requires SortedByT(s) && |s| > 0
    ensures Insert(s, x)[0] == if x.t < s[0].t then x else s[0]
  {
    if s[|s| - 1].t <= x.t {
    } else if |s| > 1 {
      InsertHead(s[..|s| - 1], x);
    }
  }

  /** The front of the sorted sequence is the first element of least t. */
  lemma {:induction false} SortedHead(s: seq<Intersection>)
    requires |s| > 0
    ensures InsertionSorted(s)[0] == s[FirstMinIndex(s)]
  {
    if |s| > 1 {
      var init := s[..|s| - 1];
      SortedHead(init);
      InsertionSortedIsSorted(init);
      InsertHead(InsertionSorted(init), s[|s| - 1]);
    }
  }

  /** Forward unfolded at the last element. */
  lemma ForwardLast(xs: seq<Intersection>)
    requires |xs| > 0
    ensures xs[|xs| - 1].t < 0.0 ==> Forward(xs) == Forward(xs[..|xs| - 1])
    ensures xs[|xs| - 1].t >= 0.0 ==> Forward(xs) == Forward(xs[..|xs| - 1]) + [xs[|xs| - 1]]
  {
  }

  /** The element of Forward(xs) of least t that comes first, located in xs:
      every earlier element of xs at t >= 0 lies strictly further along. */
  lemma {:induction false} ForwardFirstMin(xs: seq<Intersection>) returns (k: nat)
    requires |Forward(xs)| > 0
    ensures k < |xs| && xs[k] == Forward(xs)[FirstMinIndex(Forward(xs))]
    ensures forall j :: 0 <= j < k && xs[j].t >= 0.0 ==> xs[j].t > xs[k].t
  {
    var init, last := xs[..|xs| - 1], xs[|xs| - 1];
    ForwardLast(xs);
    if |Forward(init)| == 0 {
      k := ForwardOnly(xs);
    } else {
      var k' := ForwardFirstMin(init);
      var rest := Forward(init);
      if last.t >= 0.0 && last.t < rest[FirstMinIndex(rest)].t {
        k := ForwardNewMin(xs);
      } else {
        assert forall j :: 0 <= j <= k' ==> xs[j] == init[j];
        ForwardKeep(xs, k');
        k := k';
      }
    }
  }

  /** The case of ForwardFirstMin where the least element of the prefix stays least. */
  lemma ForwardKeep(xs: seq<Intersection>, k: nat)
    requires |xs| > 0
    requires |Forward(xs[..|xs| - 1])| > 0
    requires xs[|xs| - 1].t < 0.0 ||
             xs[|xs| - 1].t >= Forward(xs[..|xs| - 1])[FirstMinIndex(Forward(xs[..|xs| - 1]))].t
    requires k < |xs| - 1
    requires xs[k] == Forward(xs[..|xs| - 1])[FirstMinIndex(Forward(xs[..|xs| - 1]))]
    requires forall j :: 0 <= j < k && xs[j].t >= 0.0 ==> xs[j].t > xs[k].t
    ensures |Forward(xs)| > 0 && xs[k] == Forward(xs)[FirstMinIndex(Forward(xs))]
    ensures forall j :: 0 <= j < k && xs[j].t >= 0.0 ==> xs[j].t > xs[k].t
  {
    var init, last := xs[..|xs| - 1], xs[|xs| - 1];
    var fs, rest := Forward(xs), Forward(init);
    ForwardLast(xs);
    if last.t >= 0.0 {
      assert fs[..|fs| - 1] == rest;
      assert FirstMinIndex(fs) == FirstMinIndex(rest);
    }
  }

  /** The case of ForwardFirstMin where the last element is the only one in front. */
  lemma ForwardOnly(xs: seq<Intersection>) returns (k: nat)
    requires |xs| > 0 && xs[|xs| - 1].t >= 0.0 && |Forward(xs[..|xs| - 1])| == 0
    ensures k == |xs| - 1 && Forward(xs) == [xs[k]]
    ensures xs[k] == Forward(xs)[FirstMinIndex(Forward(xs))]
    ensures forall j :: 0 <= j < k ==> xs[j].t < 0.0
  {
    var init := xs[..|xs| - 1];
    ForwardLast(xs);
    k := |xs| - 1;
    forall j | 0 <= j < k
      ensures xs[j].t < 0.0
    {
      assert xs[j] == init[j];
      assert init[j] in init;
    }
  }

  /** The case of ForwardFirstMin where the last element is a new strict minimum. */
  lemma ForwardNewMin(xs: seq<Intersection>) returns (k: nat)
    requires |xs| > 0 && xs[|xs| - 1].t >= 0.0 && |Forward(xs[..|xs| - 1])| > 0
    requires xs[|xs| - 1].t < Forward(xs[..|xs| - 1])[FirstMinIndex(Forward(xs[..|xs| - 1]))].t
    ensures k == |xs| - 1 && |Forward(xs)| > 0
    ensures xs[k] == Forward(xs)[FirstMinIndex(Forward(xs))]
    ensures forall j :: 0 <= j < k && xs[j].t >= 0.0 ==> xs[j].t > xs[k].t
  {
    var init := xs[..|xs| - 1];
    var rest := Forward(init);
    var fs := Forward(xs);
    ForwardLast(xs);
    assert fs[..|fs| - 1] == rest;
    assert FirstMinIndex(fs) == |fs| - 1;
    k := |xs| - 1;
    forall j | 0 <= j < k && xs[j].t >= 0.0
      ensures xs[j].t > xs[k].t
    {
      assert xs[j] == init[j];
      assert init[j] in init;
      assert init[j] in rest;
    }
  }

  // ---- What hit promises ----

  /** No hit exactly when every intersection lies behind the origin. */
  lemma HitNone(xs: seq<Intersection>)
    ensures HitOf(xs).None? <==> forall i :: 0 <= i < |xs| ==> xs[i].t < 0.0
  {
    var fs := Forward(xs);
    if |fs| > 0 {
      assert fs[0] in fs;
    } else {
      forall i | 0 <= i < |xs|
        ensures xs[i].t < 0.0
      {
        assert xs[i] in xs;
      }
    }
  }

  /** A hit is one of the inputs, unchanged, at t >= 0, and no input at
      t >= 0 comes before it along the ray. */
  lemma HitIsNearest(xs: seq<Intersection>)
    requires HitOf(xs).Some?
    ensures HitOf(xs).value in xs && HitOf(xs).value.t >= 0.0
    ensures forall i :: 0 <= i < |xs| && xs[i].t >= 0.0 ==> HitOf(xs).value.t <= xs[i].t
  {
    var fs := Forward(xs);
    SortedHead(fs);
    var h := fs[FirstMinIndex(fs)];
    assert h in fs;
    forall i | 0 <= i < |xs| && xs[i].t >= 0.0
      ensures h.t <= xs[i].t
    {
      assert xs[i] in fs;
    }
  }

  /** Among intersections tied at the least t, the hit is the earliest in
      input order (the sort is stable). */
  lemma HitEarliest(xs: seq<Intersection>)
    requires HitOf(xs).Some?
    ensures exists k :: 0 <= k < |xs| && xs[k] == HitOf(xs).value &&
              forall j :: 0 <= j < k && xs[j].t >= 0.0 ==> xs[j].t > xs[k].t
  {
    var fs := Forward(xs);
    SortedHead(fs);
    var k := ForwardFirstMin(xs);
  }

  lemma HitExample()
    ensures HitOf([Intersection(7, 5.0), Intersection(7, 2.0), Intersection(7, -1.0)]).value.t == 2.0
  {
    var xs := [Intersection(7, 5.0), Intersection(7, 2.0), Intersection(7, -1.0)];
    HitNone(xs);
    HitIsNearest(xs);
    assert xs[1].t >= 0.0;
  }

  // ---- The imperative code ----

  /** One insertion step: moves a[i] left past the elements of a[..i]
      whose t exceeds its own. */
  method InsertInto(a: array<Intersection>, i: nat)
    requires i < a.Length
    modifies a
    ensures a[..i + 1] == Insert(old(a[..i]), old(a[i]))
    ensures forall k :: i < k < a.Length ==> a[k] == old(a[k])
  {
    var x := a[i];
    ghost var p := a[..i];
    var j := ShiftLarger(a, i, x.t);
    a[j] := x;
    ghost var q := p[..j] + [x] + p[j..];
    assert Insert(p, x) == q by {
      InsertAt(p, j, x);
    }
    assert a[..i + 1] == q by {
      forall k | 0 <= k <= i
        ensures a[k] == q[k]
      {
        if k > j {
          assert q[k] == p[k - 1];
        }
      }
    }
  }

  /** The inner loop of the insertion step: shifts the run of elements of
      a[..i] with t greater than `t` one place right, over a[i], and
      returns the gap left at the front of that run. */
  method ShiftLarger(a: array<Intersection>, i: nat, t: real) returns (j: nat)
    requires i < a.Length
    modifies a
    ensures j <= i
    ensures j == 0 || old(a[j - 1]).t <= t
    ensures forall k :: j <= k < i ==> old(a[k]).t > t
    ensures forall k :: 0 <= k < j ==> a[k] == old(a[k])
    ensures forall k :: j < k <= i ==> a[k] == old(a[k - 1])
    ensures forall k :: i < k < a.Length ==> a[k] == old(a[k])
  {
    j := i;
    while j > 0 && a[j - 1].t > t
      invariant 0 <= j <= i
      invariant forall k :: 0 <= k < j ==> a[k] == old(a[k])
      invariant forall k :: j < k <= i ==> a[k] == old(a[k - 1])
      invariant forall k :: i < k < a.Length ==> a[k] == old(a[k])
      invariant forall k :: j <= k < i ==> old(a[k]).t > t
    {
      a[j] := a[j - 1];
      j := j - 1;
    }
  }

  /** Dropping a prefix commutes with splitting off the last element. */
  lemma DropSnoc<T>(s: seq<T>, j: nat)
    requires j < |s|
    ensures s[j..] == s[..|s| - 1][j..] + [s[|s| - 1]]
  {
    var r := s[..|s| - 1][j..] + [s[|s| - 1]];
    assert |r| == |s[j..]|;
    forall k | 0 <= k < |r|
      ensures r[k] == s[j..][k]
    {
      if k < |r| - 1 {
        assert r[k] == s[..|s| - 1][j + k];
      }
    }
  }

  /** Where Insert puts x: after the prefix p[..j] when the element before
      position j is not larger than x and every element from j on is. */
  lemma {:induction false} InsertAt(p: seq<Intersection>, j: nat, x: Intersection)
    requires j <= |p| && (j == 0 || p[j - 1].t <= x.t)
    requires forall k :: j <= k < |p| ==> p[k].t > x.t
    ensures Insert(p, x) == p[..j] + [x] + p[j..]
    decreases |p| - j
  {
    if j < |p| {
      var init, last := p[..|p| - 1], p[|p| - 1];
      assert Insert(p, x) == Insert(init, x) + [last] by {
        assert last.t > x.t;
      }
      InsertAt(init, j, x);
      assert p[..j] + [x] + p[j..] == (init[..j] + [x] + init[j..]) + [last] by {
        assert init[..j] == p[..j];
        DropSnoc(p, j);
      }
    }
  }

  /** `sort_by` on the partial order of t, done in place. */
  method SortByT(a: array<Intersection>)
    modifies a
    ensures a[..] == InsertionSorted(old(a[..]))
  {
    ghost var s := a[..];
    var i := 0;
    while i < a.Length
      invariant 0 <= i <= a.Length
      invariant a[..i] == InsertionSorted(s[..i])
      invariant forall k :: i <= k < a.Length ==> a[k] == s[k]
    {
      InsertInto(a, i);
      assert a[..i + 1] == InsertionSorted(s[..i + 1]) by {
        InsertionSortedStep(s, i);
      }
      i := i + 1;
    }
    assert a[..] == a[..a.Length];
    assert s[..a.Length] == s;
  }

  /** Sorting one more element is inserting it into the sorted prefix. */
  lemma InsertionSortedStep(s: seq<Intersection>, i: nat)
    requires i < |s|
    ensures InsertionSorted(s[..i + 1]) == Insert(InsertionSorted(s[..i]), s[i])
  {
    assert s[..i + 1][..i] == s[..i];
  }

  /** `hit`: filter, copy into a buffer, sort it in place, take the front. */
  method Hit(xs: seq<Intersection>) returns (r: Option<Intersection>)
    ensures r == HitOf(xs)
    ensures r.None? <==> forall i :: 0 <= i < |xs| ==> xs[i].t < 0.0
    ensures r.Some? ==> r.value in xs && r.value.t >= 0.0
    ensures r.Some? ==> forall i :: 0 <= i < |xs| && xs[i].t >= 0.0 ==> r.value.t <= xs[i].t
  {
    var fs := Forward(xs);
    var a := new Intersection[|fs|](i requires 0 <= i < |fs| => fs[i]);
    assert a[..] == fs;
    SortByT(a);
    if a.Length == 0 {
      r := None;
    } else {
      r := Some(a[0]);
    }
    HitNone(xs);
    if r.Some? {
      HitIsNearest(xs);
    }
  }
}
