/**
 Gomamayo detection: a phrase, given as the ordered list of its words'
 readings, is a gomamayo when at some junction between two adjacent readings
 the tail of the left reading coincides with the head of the right one
 ("ゴマ" + "マヨ"). The analysis reports how many junctions overlap (the
 "ary") and the length of the longest overlap (the "degree").

 Readings are compared character by character (Unicode scalar values), as
 the source compares the vectors produced by `chars()`.
 */
module Gomamayo {

  datatype Option<T> = None | Some(value: T)

  /** The classification of a gomamayo: how many junctions overlap and how long the longest overlap is. */
  datatype GomamayoKind = GomamayoKind(ary: int, degree: int)

  /** The result of an analysis: the classification (absent when no junction overlaps) and the readings it was computed from. */
  datatype Gomamayo = Gomamayo(kind: Option<GomamayoKind>, pronounciations: seq<string>)

  function Min(a: int, b: int): int { if a <= b then a else b }

  function Max(a: int, b: int): int { if a >= b then a else b }

  // ---------------------------------------------------------------------------
  // One junction
  // ---------------------------------------------------------------------------

  /** The last `d` characters of `left` are, in order, the first `d` characters of `right`, for a `d` of at least one. */
  predicate IsOverlap(left: string, right: string, d: int)
  {
    1 <= d <= |left| && d <= |right| &&
    forall j :: 0 <= j < d ==> left[|left| - d + j] == right[j]
  }

  /** Comparing the suffix of `left` with the prefix of `right` as slices is the same test. */
  lemma SlicesEqualIffOverlap(left: string, right: string, d: int)
    requires 1 <= d <= Min(|left|, |right|)
    ensures left[|left| - d..] == right[..d] <==> IsOverlap(left, right, d)
  {
    if IsOverlap(left, right, d) {
      assert left[|left| - d..] == right[..d];
    }
  }

  /** The largest overlap of length at most `k`, or 0 when there is none;
      the search tries `k`, `k - 1`, ..., `1` and stops at the first match. */
  function OverlapUpTo(left: string, right: string, k: nat): (d: nat)
    requires k <= Min(|left|, |right|)
    ensures d <= k
    ensures d == 0 || IsOverlap(left, right, d)
    ensures forall e :: d < e <= k ==> !IsOverlap(left, right, e)
    decreases k
  {
    if k == 0 then 0
    else if IsOverlap(left, right, k) then k
    else OverlapUpTo(left, right, k - 1)
  }

  /** The overlap at the junction of `left` and `right`: the longest suffix of
      `left` that is also a prefix of `right`, 0 when there is none. */
  function Overlap(left: string, right: string): (d: nat)
    ensures d <= Min(|left|, |right|)
    ensures d == 0 || IsOverlap(left, right, d)
    ensures forall e :: e > d ==> !IsOverlap(left, right, e)
  {
    OverlapUpTo(left, right, Min(|left|, |right|))
  }

  /** A junction has overlap 0 exactly when no length matches, in particular when either reading is empty. */
  lemma NoOverlapIffZero(left: string, right: string)
    ensures Overlap(left, right) == 0 <==> forall e :: !IsOverlap(left, right, e)
    ensures |left| == 0 || |right| == 0 ==> Overlap(left, right) == 0
  {
  }

  /** The search for one junction's degree: descending from the shorter
      reading's length, the first `d` whose suffix and prefix agree. */
  method FindJunctionDegree(left: string, right: string) returns (found: Option<nat>)
    ensures found.Some? ==> 1 <= found.value <= Min(|left|, |right|) && IsOverlap(left, right, found.value)
    ensures found.Some? ==> forall e :: e > found.value ==> !IsOverlap(left, right, e)
    ensures found.None? <==> forall e :: !IsOverlap(left, right, e)
    ensures found == if Overlap(left, right) > 0 then Some(Overlap(left, right)) else None
  {
    var d := Min(|left|, |right|);
    while d > 0
      invariant 0 <= d <= Min(|left|, |right|)
      invariant forall e :: e > d ==> !IsOverlap(left, right, e)
    {
      SlicesEqualIffOverlap(left, right, d);
      if left[|left| - d..] == right[..d] {
        return Some(d);
      }
      d := d - 1;
    }
    return None;
  }

  // ---------------------------------------------------------------------------
  // Tallying the junctions' overlaps
  // ---------------------------------------------------------------------------

  /** The number of junctions, given their overlaps in order, whose overlap is not empty. */
  function CountOverlapping(ds: seq<nat>): nat
  {
    if ds == [] then 0
    else CountOverlapping(ds[..|ds| - 1]) + (if ds[|ds| - 1] > 0 then 1 else 0)
  }

  /** The longest of the overlaps, 0 when there are none. */
  function Longest(ds: seq<nat>): nat
  {
    if ds == [] then 0
    else Max(Longest(ds[..|ds| - 1]), ds[|ds| - 1])
  }

  /** Tallying one more junction. */
  lemma {:induction false} TallyAppend(ds: seq<nat>, d: nat)
    ensures CountOverlapping(ds + [d]) == CountOverlapping(ds) + (if d > 0 then 1 else 0)
    ensures Longest(ds + [d]) == Max(Longest(ds), d)
  {
    assert (ds + [d])[..|ds|] == ds;
  }

  /** The count is the number of positions holding a positive overlap, and so at most the number of junctions. */
  lemma {:induction false} CountIsCardinality(ds: seq<nat>)
    ensures CountOverlapping(ds) == |set i | 0 <= i < |ds| && ds[i] > 0|
    ensures CountOverlapping(ds) <= |ds|
  {
    if ds != [] {
      var n := |ds|;
      var pre := ds[..n - 1];
      CountIsCardinality(pre);
      var s := set i | 0 <= i < n - 1 && pre[i] > 0;
      var t := set i | 0 <= i < n && ds[i] > 0;
      assert s == set i | 0 <= i < n - 1 && ds[i] > 0;
      if ds[n - 1] > 0 {
        assert t == s + {n - 1};
      } else {
        assert t == s;
      }
    }
  }

  /** The longest overlap bounds every overlap and is one of them, or 0. */
  lemma {:induction false} LongestIsMaximum(ds: seq<nat>)
    ensures forall i :: 0 <= i < |ds| ==> ds[i] <= Longest(ds)
    ensures Longest(ds) == 0 || exists i :: 0 <= i < |ds| && ds[i] == Longest(ds)
  {
    if ds != [] {
      var n := |ds|;
      LongestIsMaximum(ds[..n - 1]);
      assert forall i :: 0 <= i < n - 1 ==> ds[..n - 1][i] == ds[i];
      if Longest(ds) != ds[n - 1] && Longest(ds) != 0 {
        var i :| 0 <= i < n - 1 && ds[..n - 1][i] == Longest(ds[..n - 1]);
        assert ds[i] == Longest(ds);
      }
    }
  }

  /** The longest overlap is positive exactly when some overlap is counted. */
  lemma {:induction false} LongestPositiveIffCounted(ds: seq<nat>)
    ensures Longest(ds) > 0 <==> CountOverlapping(ds) > 0
  {
    if ds != [] {
      LongestPositiveIffCounted(ds[..|ds| - 1]);
    }
  }

  // ---------------------------------------------------------------------------
  // All junctions of a phrase
  // ---------------------------------------------------------------------------

  /** The overlap at junction `i`, between readings `i` and `i + 1`. */
  function Junction(rs: seq<string>, i: int): nat
    requires 0 <= i < |rs| - 1
  {
    Overlap(rs[i], rs[i + 1])
  }

  /** The overlaps of all junctions of the phrase, from left to right. */
  function Overlaps(rs: seq<string>): (ds: seq<nat>)
    ensures |ds| == Max(0, |rs| - 1)
    ensures forall i :: 0 <= i < |ds| ==> ds[i] == Junction(rs, i)
  {
    if |rs| < 2 then [] else seq(|rs| - 1, i requires 0 <= i < |rs| - 1 => Junction(rs, i))
  }

  /** The junctions of the phrase whose overlap is not empty. */
  function OverlappingJunctions(rs: seq<string>): set<int>
  {
    set i | 0 <= i < |rs| - 1 && Junction(rs, i) > 0
  }

  /** The ary of a phrase. */
  function AryOf(rs: seq<string>): nat
  {
    CountOverlapping(Overlaps(rs))
  }

  /** The degree of a phrase. */
  function DegreeOf(rs: seq<string>): nat
  {
    Longest(Overlaps(rs))
  }

  /** There are at most N - 1 overlapping junctions among N readings, and none with fewer than two readings. */
  lemma AryBound(rs: seq<string>)
    ensures AryOf(rs) <= Max(0, |rs| - 1)
    ensures |rs| < 2 ==> AryOf(rs) == 0 && DegreeOf(rs) == 0
  {
    CountIsCardinality(Overlaps(rs));
  }

  /** The ary is the number of adjacent pairs of readings that overlap. */
  lemma AryCountsJunctions(rs: seq<string>)
    ensures AryOf(rs) == |OverlappingJunctions(rs)|
  {
    var ds := Overlaps(rs);
    CountIsCardinality(ds);
    assert (set i | 0 <= i < |ds| && ds[i] > 0) == OverlappingJunctions(rs);
  }

  /** The ary is 0 exactly when no junction overlaps. */
  lemma AryZeroIffNoOverlap(rs: seq<string>)
    ensures AryOf(rs) == 0 <==> forall i :: 0 <= i < |rs| - 1 ==> Junction(rs, i) == 0
  {
    AryCountsJunctions(rs);
    if AryOf(rs) == 0 {
      forall i | 0 <= i < |rs| - 1
        ensures Junction(rs, i) == 0
      {
        assert i !in OverlappingJunctions(rs);
      }
    } else {
      var i :| i in OverlappingJunctions(rs);
      assert Junction(rs, i) > 0;
    }
  }

  /** The degree is the maximum overlap over all junctions, 0 when there are none. */
  lemma DegreeIsMaximum(rs: seq<string>)
    ensures forall i :: 0 <= i < |rs| - 1 ==> Junction(rs, i) <= DegreeOf(rs)
    ensures DegreeOf(rs) == 0 || exists i :: 0 <= i < |rs| - 1 && Junction(rs, i) == DegreeOf(rs)
  {
    var ds := Overlaps(rs);
    LongestIsMaximum(ds);
    if DegreeOf(rs) != 0 {
      var i :| 0 <= i < |ds| && ds[i] == Longest(ds);
      assert Junction(rs, i) == DegreeOf(rs);
    }
  }

  /** Some junction overlaps exactly when the degree is positive. */
  lemma DegreePositiveIffAry(rs: seq<string>)
    ensures DegreeOf(rs) > 0 <==> AryOf(rs) > 0
  {
    LongestPositiveIffCounted(Overlaps(rs));
  }

  // ---------------------------------------------------------------------------
  // The analysis
  // ---------------------------------------------------------------------------

  /** The pass over the adjacent pairs of readings: counts the pairs that
      overlap and keeps the largest overlap seen. */
  method ComputeAryAndDegree(pronounciations: seq<string>) returns (ary: int, degree: int)
    ensures ary == AryOf(pronounciations) && degree == DegreeOf(pronounciations)
    ensures ary == |OverlappingJunctions(pronounciations)|
    ensures forall i :: 0 <= i < |pronounciations| - 1 ==> Junction(pronounciations, i) <= degree
    ensures degree == 0 || exists i :: 0 <= i < |pronounciations| - 1 && Junction(pronounciations, i) == degree
    ensures degree > 0 <==> ary > 0
  {
    ghost var ds := Overlaps(pronounciations);
    ary, degree := 0, 0;
    var j := 0;
    while j + 1 < |pronounciations|
      invariant j <= |ds|
      invariant ary == CountOverlapping(ds[..j])
      invariant degree == Longest(ds[..j])
    {
      var left, right := pronounciations[j], pronounciations[j + 1];
      var found := FindJunctionDegree(left, right);
      TallyAppend(ds[..j], ds[j]);
      assert ds[..j + 1] == ds[..j] + [ds[j]];
      if found.Some? {
        degree := Max(degree, found.value);
        ary := ary + 1;
      }
      j := j + 1;
    }
    assert ds[..j] == ds;
    AryCountsJunctions(pronounciations);
    DegreeIsMaximum(pronounciations);
    DegreePositiveIffAry(pronounciations);
  }

  /** Classifies a phrase from its readings: a kind carrying the ary and the
      degree when some junction overlaps, none otherwise; the readings are
      returned as they came. */
  method Analyze(pronounciations: seq<string>) returns (g: Gomamayo)
    ensures g.pronounciations == pronounciations
    ensures g.kind.None? <==> forall i :: 0 <= i < |pronounciations| - 1 ==> Junction(pronounciations, i) == 0
    ensures g.kind.Some? ==> g.kind.value == GomamayoKind(AryOf(pronounciations), DegreeOf(pronounciations))
    ensures g.kind.Some? ==> 0 < g.kind.value.ary <= |pronounciations| - 1 && 0 < g.kind.value.degree
  {
    var ary, degree := ComputeAryAndDegree(pronounciations);
    var kind := if ary > 0 then Some(GomamayoKind(ary, degree)) else None;
    AryZeroIffNoOverlap(pronounciations);
    AryBound(pronounciations);
    g := Gomamayo(kind, pronounciations);
  }
}
