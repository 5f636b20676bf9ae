/** How useful a session was, from its timeline of stretches with a constant number of paths up.
    Durations are real numbers. */
module Impact {

  datatype Segment = Segment(duration: real, up: int)

  datatype Stats = Stats(
    session: real, protectedTime: real, absorbed: real, failovers: nat, longest: real, fraction: real)

  // ---- The declarative reading -----------------------------------------------------------------

  function Total(segs: seq<Segment>, lo: nat, hi: nat): real
    requires lo <= hi <= |segs|
    decreases hi
  {
    if lo == hi then 0.0 else Total(segs, lo, hi - 1) + segs[hi - 1].duration
  }

  /** The first `n` segments' time with two or more paths up. */
  function Protected(segs: seq<Segment>, n: nat): real
    requires n <= |segs|
  {
    if n == 0 then 0.0 else Protected(segs, n - 1) + if segs[n - 1].up >= 2 then segs[n - 1].duration else 0.0
  }

  /** One path up throughout `s..e`, and two or more right before. */
  ghost predicate Stretch(segs: seq<Segment>, s: int, e: int) {
    0 < s < e <= |segs| && segs[s - 1].up >= 2 && forall k | s <= k < e :: segs[k].up == 1
  }

  /** A survived drop: such a stretch taken as long as it lasts. */
  ghost predicate Drop(segs: seq<Segment>, s: int, e: int) {
    Stretch(segs, s, e) && (e == |segs| || segs[e].up != 1)
  }

  /** Segment `i` is part of a survived drop. */
  ghost predicate Survived(segs: seq<Segment>, i: nat) {
    exists s, e :: Drop(segs, s, e) && s <= i < e
  }

  ghost function Absorbed(segs: seq<Segment>, n: nat): real
    requires n <= |segs|
  {
    if n == 0 then 0.0 else Absorbed(segs, n - 1) + if Survived(segs, n - 1) then segs[n - 1].duration else 0.0
  }

  /** The survived drops of a timeline, as pairs of first segment and end. */
  ghost function Drops(segs: seq<Segment>): set<(int, int)> {
    set s, e | 0 < s < |segs| && 0 < e <= |segs| && Drop(segs, s, e) :: (s, e)
  }

  /** A fall from two or more paths to one. */
  ghost predicate IsFall(segs: seq<Segment>, s: int) {
    0 < s < |segs| && segs[s - 1].up >= 2 && segs[s].up == 1
  }

  /** The falls among the first `n` segments. */
  ghost function Falls(segs: seq<Segment>, n: nat): set<nat>
    requires n <= |segs|
  {
    set s: nat | 0 < s < n && IsFall(segs, s)
  }

  /** `x` bounds every survived drop and is the length of one, or zero where there is none. */
  ghost predicate IsLongest(segs: seq<Segment>, x: real) {
    && (forall s, e | Drop(segs, s, e) :: Total(segs, s, e) <= x)
    && (x == 0.0 || exists s, e :: Drop(segs, s, e) && Total(segs, s, e) == x)
  }

  ghost predicate NonNegative(segs: seq<Segment>) {
    forall i | 0 <= i < |segs| :: segs[i].duration >= 0.0
  }

  /** The figures of a timeline: total and protected time, the time absorbed and the number of drops; with
      no negative durations the longest drop; and the protected share of the total, zero when there is none. */
  ghost predicate Describes(st: Stats, segs: seq<Segment>) {
    var total := Total(segs, 0, |segs|);
    && st.session == total && st.protectedTime == Protected(segs, |segs|)
    && st.absorbed == Absorbed(segs, |segs|) && st.failovers == |Drops(segs)|
    && (NonNegative(segs) ==> IsLongest(segs, st.longest))
    && (total > 0.0 ==> st.fraction * total == Protected(segs, |segs|))
    && (total <= 0.0 ==> st.fraction == 0.0)
  }

  // ---- One pass --------------------------------------------------------------------------------

  datatype Scan = Scan(stats: Stats, previousUp: int, inDrop: bool, run: real)

  const START := Scan(Stats(0.0, 0.0, 0.0, 0, 0.0, 0.0), 0, false, 0.0)

  function Max(x: real, y: real): real {
    if x < y then y else x
  }

  function Absorb(st: Stats, d: real, run: real): Stats {
    st.(absorbed := st.absorbed + d, longest := Max(st.longest, run))
  }

  function Step(sc: Scan, seg: Segment): Scan {
    var st := sc.stats.(session := sc.stats.session + seg.duration);
    if seg.up >= 2 then Scan(st.(protectedTime := st.protectedTime + seg.duration), seg.up, false, 0.0)
    else if seg.up == 1 && sc.previousUp >= 2 then
      Scan(Absorb(st.(failovers := st.failovers + 1), seg.duration, seg.duration), 1, true, seg.duration)
    else if seg.up == 1 && sc.inDrop then
      Scan(Absorb(st, seg.duration, sc.run + seg.duration), 1, true, sc.run + seg.duration)
    else if seg.up == 1 then Scan(st, 1, false, sc.run)
    else Scan(st, seg.up, false, 0.0)
  }

  function Fold(sc: Scan, segs: seq<Segment>): Scan {
    if segs == [] then sc else Step(Fold(sc, segs[..|segs| - 1]), segs[|segs| - 1])
  }

  function Finish(sc: Scan): Stats {
    sc.stats.(fraction := if sc.stats.session > 0.0 then sc.stats.protectedTime / sc.stats.session else 0.0)
  }

  method ComputeImpact(segments: seq<Segment>) returns (stats: Stats)
    ensures stats == Finish(Fold(START, segments)) && Describes(stats, segments)
  {
    hide Describes;
    stats := Stats(0.0, 0.0, 0.0, 0, 0.0, 0.0);
    var previousUp, inDrop, run := 0, false, 0.0;
    for i := 0 to |segments|
      invariant stats.fraction == 0.0
      invariant Scan(stats, previousUp, inDrop, run) == Fold(START, segments[..i])
    {
      assert segments[..i + 1][..i] == segments[..i];
      var seg := segments[i];
      stats := stats.(session := stats.session + seg.duration);
      if seg.up >= 2 {
        stats := stats.(protectedTime := stats.protectedTime + seg.duration);
        inDrop, run := false, 0.0;
      } else if seg.up == 1 {
        if previousUp >= 2 {
          stats := stats.(failovers := stats.failovers + 1);
          inDrop, run := true, seg.duration;
        } else if inDrop {
          run := run + seg.duration;
        }
        if inDrop {
          stats := stats.(absorbed := stats.absorbed + seg.duration, longest := Max(stats.longest, run));
        }
      } else {
        inDrop, run := false, 0.0;
      }
      previousUp := seg.up;
    }
    assert segments[..|segments|] == segments;
    if stats.session > 0.0 {
      stats := stats.(fraction := stats.protectedTime / stats.session);
    }
    ImpactReads(segments);
  }

  // ---- The pass computes the reading -----------------------------------------------------------

  lemma {:induction false} Extend(segs: seq<Segment>, s: int, e: int) returns (last: int)
    requires Stretch(segs, s, e)
    ensures Drop(segs, s, last) && last >= e
    ensures NonNegative(segs) ==> Total(segs, s, last) >= Total(segs, s, e)
    decreases |segs| - e
  {
    if e == |segs| || segs[e].up != 1 {
      last := e;
    } else {
      last := Extend(segs, s, e + 1);
    }
  }

  ghost predicate EndsStretch(segs: seq<Segment>, n: nat) {
    exists s :: Stretch(segs, s, n)
  }

  lemma SurvivedBack(segs: seq<Segment>, i: nat)
    requires i < |segs|
    ensures Survived(segs, i) <==> EndsStretch(segs, i + 1)
  {
    if EndsStretch(segs, i + 1) {
      var n := i + 1;
      var s :| Stretch(segs, s, n);
      var e := Extend(segs, s, i + 1);
      assert Drop(segs, s, e) && s <= i < e;
    }
    if Survived(segs, i) {
      var s, e :| Drop(segs, s, e) && s <= i < e;
      assert Stretch(segs, s, i + 1);
    }
  }

  /** Among the stretches that end by `n`, `x` is the longest, or zero. */
  ghost predicate Best(segs: seq<Segment>, n: nat, x: real) {
    && x >= 0.0
    && (forall s, e | Stretch(segs, s, e) && e <= n :: Total(segs, s, e) <= x)
    && (x == 0.0 || exists s, e :: Stretch(segs, s, e) && e <= n && Total(segs, s, e) == x)
  }

  /** The drop in progress after `n` segments, if any, and how long it has lasted. */
  ghost predicate Running(segs: seq<Segment>, n: nat, inDrop: bool, run: real) {
    && (inDrop <==> EndsStretch(segs, n))
    && (inDrop ==> exists s :: Stretch(segs, s, n) && Total(segs, s, n) == run)
  }

  ghost predicate Counts(segs: seq<Segment>, n: nat, st: Stats)
    requires n <= |segs|
  {
    && st.session == Total(segs, 0, n) && st.protectedTime == Protected(segs, n)
    && st.absorbed == Absorbed(segs, n) && st.failovers == |Falls(segs, n)|
  }

  ghost predicate Reads(segs: seq<Segment>, n: nat, sc: Scan)
    requires n <= |segs|
  {
    && Counts(segs, n, sc.stats) && sc.stats.fraction == 0.0
    && sc.previousUp == (if n == 0 then 0 else segs[n - 1].up)
    && Running(segs, n, sc.inDrop, sc.run) && Best(segs, n, sc.stats.longest)
  }

  /** At most one stretch ends at a given segment. */
  lemma OneStretch(segs: seq<Segment>, s: int, t: int, e: int)
    requires Stretch(segs, s, e) && Stretch(segs, t, e)
    ensures s == t
  {
    var beforeS, beforeT := segs[s - 1].up, segs[t - 1].up;
    assert s < t ==> beforeT == 1;
    assert t < s ==> beforeS == 1;
  }

  /** A stretch that ends after segment `n` begins there or was already under way. */
  lemma StretchBack(segs: seq<Segment>, n: nat)
    requires n < |segs|
    ensures EndsStretch(segs, n + 1) ==> segs[n].up == 1 && (IsFall(segs, n) || EndsStretch(segs, n))
  {
    var e := n + 1;
    if s :| Stretch(segs, s, e) {
      assert s == n || Stretch(segs, s, n);
    }
  }

  lemma StepRuns(segs: seq<Segment>, n: nat, sc: Scan)
    requires n < |segs| && Running(segs, n, sc.inDrop, sc.run)
    requires sc.previousUp == (if n == 0 then 0 else segs[n - 1].up)
    ensures var next := Step(sc, segs[n]);
            && Running(segs, n + 1, next.inDrop, next.run)
            && next.previousUp == segs[n].up && next.stats.fraction == sc.stats.fraction
  {
    var next := Step(sc, segs[n]);
    if next.inDrop {
      if sc.previousUp >= 2 {
        assert Stretch(segs, n, n + 1) && Total(segs, n, n + 1) == Total(segs, n, n) + next.run;
      } else {
        var s :| Stretch(segs, s, n) && Total(segs, s, n) == sc.run;
        assert Stretch(segs, s, n + 1);
      }
    } else {
      StretchBack(segs, n);
    }
  }

  lemma StepBest(segs: seq<Segment>, n: nat, sc: Scan)
    requires n < |segs| && Best(segs, n, sc.stats.longest)
    requires var next := Step(sc, segs[n]); Running(segs, n + 1, next.inDrop, next.run)
    ensures Best(segs, n + 1, Step(sc, segs[n]).stats.longest)
  {
    var next, e' := Step(sc, segs[n]), n + 1;
    if next.inDrop {
      var t :| Stretch(segs, t, e') && Total(segs, t, e') == next.run;
      forall s, e | Stretch(segs, s, e) && e <= e' ensures Total(segs, s, e) <= next.stats.longest {
        if e == e' {
          OneStretch(segs, s, t, e);
        }
      }
    }
  }

  lemma FallsGrow(segs: seq<Segment>, n: nat)
    requires n < |segs|
    ensures Falls(segs, n + 1) == if IsFall(segs, n) then Falls(segs, n) + {n} else Falls(segs, n)
  {
  }

  lemma StepCounts(segs: seq<Segment>, n: nat, sc: Scan)
    requires n < |segs| && Counts(segs, n, sc.stats) && Running(segs, n + 1, Step(sc, segs[n]).inDrop, Step(sc, segs[n]).run)
    requires sc.previousUp == (if n == 0 then 0 else segs[n - 1].up)
    ensures Counts(segs, n + 1, Step(sc, segs[n]).stats)
  {
    SurvivedBack(segs, n);
    FallsGrow(segs, n);
  }

  lemma {:induction false} FoldReads(segs: seq<Segment>, n: nat)
    requires n <= |segs|
    ensures Reads(segs, n, Fold(START, segs[..n]))
  {
    if n > 0 {
      FoldReads(segs, n - 1);
      assert segs[..n][..n - 1] == segs[..n - 1];
      var sc := Fold(START, segs[..n - 1]);
      hide Counts, Running, Best, Step;
      StepRuns(segs, n - 1, sc);
      StepCounts(segs, n - 1, sc);
      StepBest(segs, n - 1, sc);
    } else {
      assert Total(segs, 0, 0) == 0.0;
      assert Falls(segs, 0) == {};
    }
  }

  lemma BestIsLongest(segs: seq<Segment>, x: real)
    requires NonNegative(segs) && Best(segs, |segs|, x)
    ensures IsLongest(segs, x)
  {
    if x != 0.0 {
      var s, e :| Stretch(segs, s, e) && Total(segs, s, e) == x;
      var last := Extend(segs, s, e);
      assert Drop(segs, s, last) && Total(segs, s, last) == x;
    }
  }

  /** Falls are where survived drops begin. */
  lemma FallIsDrop(segs: seq<Segment>, s: int)
    ensures IsFall(segs, s) <==> exists e :: Drop(segs, s, e)
  {
    if IsFall(segs, s) {
      var e := Extend(segs, s, s + 1);
    }
  }

  lemma OneDrop(segs: seq<Segment>, s: int, e: int, f: int)
    requires Drop(segs, s, e) && Drop(segs, s, f)
    ensures e == f
  {
  }

  /** The drops that begin in `starts`. */
  ghost function DropsFrom(segs: seq<Segment>, starts: set<nat>): set<(int, int)> {
    set d | d in Drops(segs) && d.0 in starts
  }

  lemma {:induction false} OneDropPerFall(segs: seq<Segment>, starts: set<nat>)
    requires forall s | s in starts :: IsFall(segs, s)
    ensures |DropsFrom(segs, starts)| == |starts|
    decreases |starts|
  {
    if starts != {} {
      var s :| s in starts;
      var rest := starts - {s};
      OneDropPerFall(segs, rest);
      FallIsDrop(segs, s);
      var e :| Drop(segs, s, e);
      assert (s, e) in Drops(segs);
      forall d | d in DropsFrom(segs, starts) ensures d in DropsFrom(segs, rest) + {(s, e)} {
        if d.0 == s {
          OneDrop(segs, s, d.1, e);
        }
      }
      assert DropsFrom(segs, starts) == DropsFrom(segs, rest) + {(s, e)};
    } else {
      assert DropsFrom(segs, starts) == {};
    }
  }

  /** As many drops as falls. */
  lemma DropsAreFalls(segs: seq<Segment>)
    ensures |Drops(segs)| == |Falls(segs, |segs|)|
  {
    var falls := Falls(segs, |segs|);
    OneDropPerFall(segs, falls);
    forall d | d in Drops(segs) ensures d.0 in falls {
      FallIsDrop(segs, d.0);
    }
    assert DropsFrom(segs, falls) == Drops(segs);
  }

  lemma ShareOf(sc: Scan)
    ensures var st := Finish(sc);
            && st == sc.stats.(fraction := st.fraction)
            && (sc.stats.session > 0.0 ==> st.fraction * sc.stats.session == sc.stats.protectedTime)
            && (sc.stats.session <= 0.0 ==> st.fraction == 0.0)
  {
  }

  /** The pass computes the figures of every timeline. */
  lemma ImpactReads(segs: seq<Segment>)
    ensures Describes(Finish(Fold(START, segs)), segs)
  {
    hide Finish, Fold;
    ShareOf(Fold(START, segs));
    FoldReads(segs, |segs|);
    DropsAreFalls(segs);
    assert segs[..|segs|] == segs;
    if NonNegative(segs) {
      BestIsLongest(segs, Fold(START, segs).stats.longest);
    }
  }

  // ---- Consequences ----------------------------------------------------------------------------

  lemma {:induction false} ProtectedAndAbsorbed(segs: seq<Segment>, n: nat)
    requires n <= |segs| && NonNegative(segs)
    ensures 0.0 <= Protected(segs, n) && 0.0 <= Absorbed(segs, n)
    ensures Protected(segs, n) + Absorbed(segs, n) <= Total(segs, 0, n)
  {
    if n > 0 {
      ProtectedAndAbsorbed(segs, n - 1);
      SurvivedBack(segs, n - 1);
    }
  }

  /** Protected and absorbed time never exceed the session; the protected share lies in 0..1. */
  lemma WithinSession(segs: seq<Segment>)
    requires NonNegative(segs)
    ensures var st := Finish(Fold(START, segs));
            st.protectedTime + st.absorbed <= st.session && 0.0 <= st.fraction <= 1.0
  {
    ImpactReads(segs);
    ProtectedAndAbsorbed(segs, |segs|);
    var st := Finish(Fold(START, segs));
    if st.session > 0.0 {
      ShareBounds(st.protectedTime, st.session);
    }
  }

  lemma ShareBounds(p: real, t: real)
    requires 0.0 <= p <= t && t > 0.0
    ensures 0.0 <= p / t <= 1.0
  {
  }

  lemma {:induction false} FoldAppend(sc: Scan, a: seq<Segment>, b: seq<Segment>)
    ensures Fold(sc, a + b) == Fold(Fold(sc, a), b)
  {
    if b == [] {
      assert a + b == a;
    } else {
      assert (a + b)[..|a + b| - 1] == a + b[..|b| - 1];
      FoldAppend(sc, a, b[..|b| - 1]);
    }
  }

  /** Two steps in a row with the same number of paths are one step. */
  lemma StepTwice(sc: Scan, d1: real, d2: real, up: int)
    requires d2 >= 0.0
    ensures Fold(sc, [Segment(d1, up), Segment(d2, up)]) == Fold(sc, [Segment(d1 + d2, up)])
  {
    var two, one := [Segment(d1, up), Segment(d2, up)], [Segment(d1 + d2, up)];
    assert two[..1] == [Segment(d1, up)] && two[..1][..0] == [] && one[..0] == [];
    assert Fold(sc, two[..1]) == Step(sc, two[0]);
    assert Fold(sc, two) == Step(Step(sc, two[0]), two[1]);
    assert Fold(sc, one) == Step(sc, one[0]);
  }

  /** Cutting a segment in two changes nothing: the figures depend on the timeline, not on how it was
      sampled. */
  lemma SplitInvariant(before: seq<Segment>, d1: real, d2: real, up: int, after: seq<Segment>)
    requires d2 >= 0.0
    ensures Finish(Fold(START, before + [Segment(d1, up), Segment(d2, up)] + after))
         == Finish(Fold(START, before + [Segment(d1 + d2, up)] + after))
  {
    var two, one := [Segment(d1, up), Segment(d2, up)], [Segment(d1 + d2, up)];
    StepTwice(Fold(START, before), d1, d2, up);
    hide Fold, Finish;
    FoldAppend(START, before + two, after);
    FoldAppend(START, before, two);
    FoldAppend(START, before + one, after);
    FoldAppend(START, before, one);
  }
}
