/** Shared vocabulary: optional values, results and a few facts about sets and sequences. */
module Common {

  const U32_MAX: nat := 0xFFFF_FFFF

  type Byte = b: nat | b < 256

  datatype Option<+T> = None | Some(value: T)

  datatype Result<+T> = Ok(value: T) | Err

  predicate IsMin(s: set<nat>, m: nat) {
    m in s && forall x :: x in s ==> m <= x
  }

  /** The least element of a nonempty set, as `BTreeMap::keys().next()` yields it. */
  function Min(s: set<nat>): (m: nat)
    requires s != {}
    ensures IsMin(s, m)
  {
    MinExists(s);
    var m :| IsMin(s, m);
    m
  }

  lemma {:induction false} MinExists(s: set<nat>)
    requires s != {}
    ensures exists m :: IsMin(s, m)
  {
    var a :| a in s;
    if s == {a} {
      assert IsMin(s, a);
    } else {
      var rest := s - {a};
      MinExists(rest);
      var b :| IsMin(rest, b);
      assert forall x :: x in s ==> x == a || x in rest;
      assert IsMin(s, if a <= b then a else b);
    }
  }

  /** Subtraction of unsigned values that stops at zero. */
  function SatSub(a: int, b: int): (r: nat)
    ensures a >= b ==> r + b == a
    ensures a < b ==> r == 0
  {
    if a >= b then a - b else 0
  }

  /** The last `n` elements of `s`, or all of it when it is shorter. */
  function LastN<T>(s: seq<T>, n: nat): (r: seq<T>)
    ensures |r| == if |s| <= n then |s| else n
    ensures r == s[|s| - |r|..]
  {
    if |s| <= n then s else s[|s| - n..]
  }

  lemma AppendAssoc<T>(a: seq<T>, b: seq<T>, c: seq<T>)
    ensures a + b + c == a + (b + c)
  {
  }

  /** The elements that satisfy `keep`, in order. */
  function Filter<T>(keep: T -> bool, s: seq<T>): seq<T> {
    if s == [] then []
    else Filter(keep, s[..|s| - 1]) + if keep(s[|s| - 1]) then [s[|s| - 1]] else []
  }

  lemma {:induction false} FilterAppend<T>(keep: T -> bool, a: seq<T>, b: seq<T>)
    ensures Filter(keep, a + b) == Filter(keep, a) + Filter(keep, b)
  {
    if b == [] {
      assert a + b == a;
    } else {
      assert (a + b)[..|a + b| - 1] == a + b[..|b| - 1];
      FilterAppend(keep, a, b[..|b| - 1]);
    }
  }

  lemma {:induction false} FilterSame<T>(f: T -> bool, g: T -> bool, s: seq<T>)
    requires forall i :: 0 <= i < |s| ==> f(s[i]) == g(s[i])
    ensures Filter(f, s) == Filter(g, s)
  {
    if s != [] {
      FilterSame(f, g, s[..|s| - 1]);
    }
  }

  lemma {:induction false} FilterAll<T>(keep: T -> bool, s: seq<T>)
    requires forall i :: 0 <= i < |s| ==> keep(s[i])
    ensures Filter(keep, s) == s
  {
    if s != [] {
      FilterAll(keep, s[..|s| - 1]);
      assert s == s[..|s| - 1] + [s[|s| - 1]];
    }
  }

  lemma {:induction false} FilterNone<T>(keep: T -> bool, s: seq<T>)
    requires forall i :: 0 <= i < |s| ==> !keep(s[i])
    ensures Filter(keep, s) == []
  {
    if s != [] {
      FilterNone(keep, s[..|s| - 1]);
    }
  }

  /** Once an element satisfies `keep` all later ones do. */
  ghost predicate Upward<T>(keep: T -> bool, s: seq<T>) {
    forall i, j :: 0 <= i < j < |s| && keep(s[i]) ==> keep(s[j])
  }

  lemma FirstKept<T>(keep: T -> bool, s: seq<T>) returns (k: nat)
    requires Upward(keep, s)
    ensures k <= |s| && forall i :: 0 <= i < |s| ==> (keep(s[i]) <==> i >= k)
  {
    k := 0;
    while k < |s| && !keep(s[k])
      invariant 0 <= k <= |s| && forall i :: 0 <= i < k ==> !keep(s[i])
    {
      k := k + 1;
    }
  }

  /** Then the filter cuts off a prefix. */
  lemma FilterIsSuffix<T>(keep: T -> bool, s: seq<T>) returns (k: nat)
    requires Upward(keep, s)
    ensures k <= |s| && Filter(keep, s) == s[k..]
    ensures forall i :: 0 <= i < |s| ==> (keep(s[i]) <==> i >= k)
  {
    k := FirstKept(keep, s);
    FilterFrom(keep, s, k);
  }

  lemma FilterFrom<T>(keep: T -> bool, s: seq<T>, k: nat)
    requires k <= |s| && forall i :: 0 <= i < |s| ==> (keep(s[i]) <==> i >= k)
    ensures Filter(keep, s) == s[k..]
  {
    FilterParts(keep, s, s[..k], s[k..]);
  }

  lemma FilterParts<T>(keep: T -> bool, s: seq<T>, a: seq<T>, b: seq<T>)
    requires s == a + b
    requires (forall i :: 0 <= i < |a| ==> !keep(a[i])) && (forall i :: 0 <= i < |b| ==> keep(b[i]))
    ensures Filter(keep, s) == b
  {
    FilterNone(keep, a);
    FilterAll(keep, b);
    FilterAppend(keep, a, b);
    assert [] + b == b;
  }

  function Flatten<T>(ss: seq<seq<T>>): seq<T> {
    if ss == [] then [] else Flatten(ss[..|ss| - 1]) + ss[|ss| - 1]
  }

  predicate SliceAt<T(==)>(s: seq<T>, o: nat, x: seq<T>) {
    o + |x| <= |s| && s[o..o + |x|] == x
  }

  lemma SliceKept<T>(a: seq<T>, b: seq<T>, o: nat, x: seq<T>)
    requires SliceAt(a, o, x)
    ensures SliceAt(a + b, o, x)
  {
    assert (a + b)[o..o + |x|] == a[o..o + |x|];
  }

  lemma SliceNew<T>(a: seq<T>, x: seq<T>)
    ensures SliceAt(a + x, |a|, x)
  {
  }

  lemma {:induction false} FlattenSlice<T>(ss: seq<seq<T>>, k: nat)
    requires k < |ss|
    ensures SliceAt(Flatten(ss), |Flatten(ss[..k])|, ss[k])
  {
    var n := |ss| - 1;
    if k < n {
      FlattenSlice(ss[..n], k);
      assert ss[..n][..k] == ss[..k];
      SliceKept(Flatten(ss[..n]), ss[n], |Flatten(ss[..k])|, ss[k]);
    } else {
      SliceNew(Flatten(ss[..n]), ss[n]);
    }
  }

  /** The numbers `lo .. lo + k - 1`. */
  ghost function Range(lo: nat, k: nat): (r: set<nat>)
    ensures forall x :: x in r <==> lo <= x < lo + k
    ensures |r| == k
  {
    if k == 0 then {} else Range(lo, k - 1) + {lo + k - 1}
  }

  lemma {:induction false} SubsetSize(a: set<nat>, b: set<nat>)
    requires a <= b
    ensures |a| <= |b|
  {
    if a != {} {
      var x :| x in a;
      SubsetSize(a - {x}, b - {x});
    }
  }
}
