/** Time covered by a diarization, as lists of half-open intervals
    `[start, end)`, and the label-free Jaccard error rate that
    metrics_calculation.py:59-67 computes from the supports of a reference
    and a hypothesis annotation.

    A list of segments denotes the set of instants it covers (`Covers`). The
    support, intersection and union below are lists whose pieces are
    pairwise disjoint (`Disjoint`) and which cover exactly the instants of
    the corresponding set operation, so the plain sum of piece lengths
    (`Dur`) is the length of time they denote. */
module Timelines {
  import opened Annotations

  // ---------------------------------------------------------------------
  // Intervals
  // ---------------------------------------------------------------------

  function Max(a: real, b: real): real { if a >= b then a else b }
  function Min(a: real, b: real): real { if a <= b then a else b }

  /** The length of an interval; an interval whose end is not after its start is empty. */
  function Len(x: Segment): real
  {
    if x.end > x.start then x.end - x.start else 0.0
  }

  predicate In(t: real, x: Segment)
  {
    x.start <= t < x.end
  }

  /** The common part of two intervals. */
  function Cap(x: Segment, y: Segment): Segment
  {
    Segment(Max(x.start, y.start), Min(x.end, y.end))
  }

  /** Two intervals share no instant. */
  predicate Apart(x: Segment, y: Segment)
  {
    Len(Cap(x, y)) == 0.0
  }

  /** `y` lies inside `x`. */
  predicate Within(y: Segment, x: Segment)
  {
    x.start <= y.start && y.end <= x.end
  }

  lemma {:induction false} ApartIff(x: Segment, y: Segment)
    ensures Apart(x, y) <==> forall t :: !(In(t, x) && In(t, y))
  {
    if !Apart(x, y) {
      assert In(Cap(x, y).start, x) && In(Cap(x, y).start, y);
    }
  }

  lemma {:induction false} ApartWithin(y: Segment, x: Segment, z: Segment)
    requires Within(y, x) && Apart(x, z)
    ensures Apart(y, z) && Apart(z, y)
  {
  }

  // ---------------------------------------------------------------------
  // Lists of intervals
  // ---------------------------------------------------------------------

  /** The instant `t` lies in some piece of `ts`. */
  predicate Covers(ts: seq<Segment>, t: real)
  {
    exists i :: 0 <= i < |ts| && In(t, ts[i])
  }

  predicate Disjoint(ts: seq<Segment>)
  {
    forall i, j :: 0 <= i < j < |ts| ==> Apart(ts[i], ts[j])
  }

  /** The summed length of the pieces. */
  function Dur(ts: seq<Segment>): (r: real)
    ensures r >= 0.0
  {
    if ts == [] then 0.0 else Dur(ts[..|ts| - 1]) + Len(ts[|ts| - 1])
  }

  lemma {:induction false} DurConcat(p: seq<Segment>, q: seq<Segment>)
    ensures Dur(p + q) == Dur(p) + Dur(q)
    decreases |q|
  {
    if q == [] {
      assert p + q == p;
    } else {
      assert (p + q)[..|p + q| - 1] == p + q[..|q| - 1];
      DurConcat(p, q[..|q| - 1]);
    }
  }

  lemma {:induction false} CoversConcat(p: seq<Segment>, q: seq<Segment>, t: real)
    ensures Covers(p + q, t) <==> Covers(p, t) || Covers(q, t)
  {
    if Covers(p + q, t) {
      var i :| 0 <= i < |p + q| && In(t, (p + q)[i]);
      if i < |p| {
        assert In(t, p[i]);
      } else {
        assert In(t, q[i - |p|]);
      }
    }
    if Covers(p, t) {
      var i :| 0 <= i < |p| && In(t, p[i]);
      assert (p + q)[i] == p[i];
    }
    if Covers(q, t) {
      var i :| 0 <= i < |q| && In(t, q[i]);
      assert (p + q)[|p| + i] == q[i];
    }
  }

  lemma {:induction false} DisjointConcat(p: seq<Segment>, q: seq<Segment>)
    requires Disjoint(p) && Disjoint(q)
    requires forall i, j :: 0 <= i < |p| && 0 <= j < |q| ==> Apart(p[i], q[j])
    ensures Disjoint(p + q)
  {
    var s := p + q;
    forall i, j | 0 <= i < j < |s| ensures Apart(s[i], s[j]) {
      if j < |p| {
        assert s[i] == p[i] && s[j] == p[j];
      } else if i >= |p| {
        assert s[i] == q[i - |p|] && s[j] == q[j - |p|];
      } else {
        assert s[i] == p[i] && s[j] == q[j - |p|];
      }
    }
  }

  lemma {:induction false} CoversPrefix(ts: seq<Segment>, k: nat, t: real)
    requires k <= |ts|
    ensures Covers(ts[..k], t) ==> Covers(ts, t)
  {
    if Covers(ts[..k], t) {
      var i :| 0 <= i < k && In(t, ts[..k][i]);
      assert In(t, ts[i]);
    }
  }

  lemma {:induction false} CoversStart(ts: seq<Segment>, i: nat)
    requires i < |ts|
    ensures Len(ts[i]) > 0.0 ==> Covers(ts, ts[i].start)
  {
    if Len(ts[i]) > 0.0 {
      assert In(ts[i].start, ts[i]);
    }
  }

  /** A list that covers no instant has no length. */
  lemma {:induction false} CoversNothing(ts: seq<Segment>)
    requires forall t :: !Covers(ts, t)
    ensures Dur(ts) == 0.0
    decreases |ts|
  {
    if ts != [] {
      var init := ts[..|ts| - 1];
      forall t ensures !Covers(init, t) {
        CoversPrefix(ts, |ts| - 1, t);
      }
      CoversNothing(init);
      CoversStart(ts, |ts| - 1);
    }
  }

  lemma {:induction false} DurAtLeastPiece(ts: seq<Segment>, i: nat)
    requires i < |ts|
    ensures Dur(ts) >= Len(ts[i])
    decreases |ts|
  {
    if i < |ts| - 1 {
      DurAtLeastPiece(ts[..|ts| - 1], i);
    }
  }

  /** A list that covers some instant has positive length. */
  lemma CoversSomething(ts: seq<Segment>, t: real)
    requires Covers(ts, t)
    ensures Dur(ts) > 0.0
  {
    var i :| 0 <= i < |ts| && In(t, ts[i]);
    DurAtLeastPiece(ts, i);
  }

  // ---------------------------------------------------------------------
  // Difference
  // ---------------------------------------------------------------------

  /** The part of `x` before `b`. */
  function Left(x: Segment, b: Segment): Segment
  {
    Segment(x.start, Min(x.end, b.start))
  }

  /** The part of `x` after `b`. */
  function Right(x: Segment, b: Segment): Segment
  {
    Segment(Max(x.start, b.end), x.end)
  }

  /** The instants of `x` outside `b`. */
  function Minus(x: Segment, b: Segment): seq<Segment>
  {
    if b.start >= b.end then [x] else [Left(x, b), Right(x, b)]
  }

  function MinusAll(xs: seq<Segment>, b: Segment): seq<Segment>
  {
    if xs == [] then [] else MinusAll(xs[..|xs| - 1], b) + Minus(xs[|xs| - 1], b)
  }

  /** The instants of `xs` outside every piece of `bs`. */
  function Diff(xs: seq<Segment>, bs: seq<Segment>): seq<Segment>
    decreases |bs|
  {
    if bs == [] then xs else Diff(MinusAll(xs, bs[0]), bs[1..])
  }

  lemma {:induction false} CoversMinus(x: Segment, b: Segment, t: real)
    ensures Covers(Minus(x, b), t) <==> In(t, x) && !In(t, b)
  {
    var m := Minus(x, b);
    if b.start < b.end {
      if In(t, x) && !In(t, b) {
        if t < b.start {
          assert In(t, m[0]);
        } else {
          assert In(t, m[1]);
        }
      }
    } else {
      if In(t, x) {
        assert In(t, m[0]);
      }
    }
  }

  lemma {:induction false} CoversMinusAll(xs: seq<Segment>, b: Segment, t: real)
    ensures Covers(MinusAll(xs, b), t) <==> Covers(xs, t) && !In(t, b)
    decreases |xs|
  {
    if xs != [] {
      var init := xs[..|xs| - 1];
      var x := xs[|xs| - 1];
      assert xs == init + [x];
      CoversMinusAll(init, b, t);
      CoversMinus(x, b, t);
      CoversConcat(MinusAll(init, b), Minus(x, b), t);
      CoversConcat(init, [x], t);
      assert Covers([x], t) <==> In(t, x) by {
        if In(t, x) {
          assert In(t, [x][0]);
        }
      }
    }
  }

  lemma {:induction false} CoversCons(b: Segment, bs: seq<Segment>, t: real)
    ensures Covers([b] + bs, t) <==> In(t, b) || Covers(bs, t)
  {
    CoversConcat([b], bs, t);
    if In(t, b) {
      assert In(t, [b][0]);
    }
  }

  /** The difference covers exactly the instants of `xs` outside `bs`. */
  lemma {:induction false} CoversDiff(xs: seq<Segment>, bs: seq<Segment>, t: real)
    ensures Covers(Diff(xs, bs), t) <==> Covers(xs, t) && !Covers(bs, t)
    decreases |bs|
  {
    if bs != [] {
      CoversDiff(MinusAll(xs, bs[0]), bs[1..], t);
      CoversMinusAll(xs, bs[0], t);
      assert bs == [bs[0]] + bs[1..];
      CoversCons(bs[0], bs[1..], t);
    }
  }

  lemma {:induction false} MinusWithin(x: Segment, b: Segment, k: nat)
    requires k < |Minus(x, b)|
    ensures Within(Minus(x, b)[k], x)
  {
  }

  lemma {:induction false} MinusAllWithin(xs: seq<Segment>, b: Segment, k: nat)
    requires k < |MinusAll(xs, b)|
    ensures exists i :: 0 <= i < |xs| && Within(MinusAll(xs, b)[k], xs[i])
    decreases |xs|
  {
    var init := xs[..|xs| - 1];
    var p := MinusAll(init, b);
    if k < |p| {
      MinusAllWithin(init, b, k);
      var i :| 0 <= i < |init| && Within(p[k], init[i]);
      assert xs[i] == init[i];
    } else {
      MinusWithin(xs[|xs| - 1], b, k - |p|);
    }
  }

  lemma {:induction false} DiffWithin(xs: seq<Segment>, bs: seq<Segment>, k: nat)
    requires k < |Diff(xs, bs)|
    ensures exists i :: 0 <= i < |xs| && Within(Diff(xs, bs)[k], xs[i])
    decreases |bs|
  {
    if bs != [] {
      var m := MinusAll(xs, bs[0]);
      DiffWithin(m, bs[1..], k);
      var j :| 0 <= j < |m| && Within(Diff(xs, bs)[k], m[j]);
      MinusAllWithin(xs, bs[0], j);
      var i :| 0 <= i < |xs| && Within(m[j], xs[i]);
      assert Within(Diff(xs, bs)[k], xs[i]);
    } else {
      assert Within(Diff(xs, bs)[k], xs[k]);
    }
  }

  lemma {:induction false} MinusDisjoint(x: Segment, b: Segment)
    ensures Disjoint(Minus(x, b))
  {
  }

  lemma {:induction false} MinusAllDisjoint(xs: seq<Segment>, b: Segment)
    requires Disjoint(xs)
    ensures Disjoint(MinusAll(xs, b))
    decreases |xs|
  {
    if xs != [] {
      var init := xs[..|xs| - 1];
      var x := xs[|xs| - 1];
      var p := MinusAll(init, b);
      var q := Minus(x, b);
      MinusAllDisjoint(init, b);
      MinusDisjoint(x, b);
      forall i, j | 0 <= i < |p| && 0 <= j < |q| ensures Apart(p[i], q[j]) {
        MinusAllWithin(init, b, i);
        var k :| 0 <= k < |init| && Within(p[i], init[k]);
        assert init[k] == xs[k];
        assert Apart(xs[k], x);
        ApartWithin(p[i], init[k], x);
        MinusWithin(x, b, j);
        ApartWithin(q[j], x, p[i]);
      }
      DisjointConcat(p, q);
    }
  }

  lemma {:induction false} DiffDisjoint(xs: seq<Segment>, bs: seq<Segment>)
    requires Disjoint(xs)
    ensures Disjoint(Diff(xs, bs))
    decreases |bs|
  {
    if bs != [] {
      MinusAllDisjoint(xs, bs[0]);
      DiffDisjoint(MinusAll(xs, bs[0]), bs[1..]);
    }
  }

  // ---------------------------------------------------------------------
  // Intersection (crop), union and support
  // ---------------------------------------------------------------------

  function CapEach(x: Segment, bs: seq<Segment>): (r: seq<Segment>)
    ensures |r| == |bs|
  {
    seq(|bs|, i requires 0 <= i < |bs| => Cap(x, bs[i]))
  }

  /** The pieces of `xs` cut down to the instants of `bs`: they cover exactly the
      instants covered by both lists. */
  function Crop(xs: seq<Segment>, bs: seq<Segment>): (r: seq<Segment>)
    ensures forall t :: Covers(r, t) <==> Covers(xs, t) && Covers(bs, t)
    decreases |xs|
  {
    if xs == [] then []
    else
      var init := Crop(xs[..|xs| - 1], bs);
      assert forall t :: Covers(init + CapEach(xs[|xs| - 1], bs), t) <==> Covers(xs, t) && Covers(bs, t) by {
        forall t ensures Covers(init + CapEach(xs[|xs| - 1], bs), t) <==> Covers(xs, t) && Covers(bs, t) {
          CropStep(xs, bs, init, t);
        }
      }
      init + CapEach(xs[|xs| - 1], bs)
  }

  lemma {:induction false} CropStep(xs: seq<Segment>, bs: seq<Segment>, init: seq<Segment>, t: real)
    requires xs != []
    requires Covers(init, t) <==> Covers(xs[..|xs| - 1], t) && Covers(bs, t)
    ensures Covers(init + CapEach(xs[|xs| - 1], bs), t) <==> Covers(xs, t) && Covers(bs, t)
  {
    var x := xs[|xs| - 1];
    assert xs == xs[..|xs| - 1] + [x];
    CoversCapEach(x, bs, t);
    CoversConcat(init, CapEach(x, bs), t);
    CoversConcat(xs[..|xs| - 1], [x], t);
    assert Covers([x], t) <==> In(t, x) by {
      if In(t, x) {
        assert In(t, [x][0]);
      }
    }
  }

  /** `xs` followed by the instants of `ys` that `xs` does not cover: together they
      cover exactly the instants covered by either list. */
  function Union(xs: seq<Segment>, ys: seq<Segment>): (r: seq<Segment>)
    ensures forall t :: Covers(r, t) <==> Covers(xs, t) || Covers(ys, t)
  {
    assert forall t :: Covers(xs + Diff(ys, xs), t) <==> Covers(xs, t) || Covers(ys, t) by {
      forall t ensures Covers(xs + Diff(ys, xs), t) <==> Covers(xs, t) || Covers(ys, t) {
        CoversConcat(xs, Diff(ys, xs), t);
        CoversDiff(ys, xs, t);
      }
    }
    xs + Diff(ys, xs)
  }

  /** The support of a list: the same instants in pairwise disjoint pieces. */
  function Support(ts: seq<Segment>): (r: seq<Segment>)
    ensures Disjoint(r)
    ensures forall t :: Covers(r, t) <==> Covers(ts, t)
    decreases |ts|
  {
    if ts == [] then []
    else
      var init := Support(ts[..|ts| - 1]);
      UnionDisjoint(init, [ts[|ts| - 1]]);
      assert forall t :: Covers(ts, t) <==> Covers(ts[..|ts| - 1], t) || Covers([ts[|ts| - 1]], t) by {
        forall t ensures Covers(ts, t) <==> Covers(ts[..|ts| - 1], t) || Covers([ts[|ts| - 1]], t) {
          assert ts == ts[..|ts| - 1] + [ts[|ts| - 1]];
          CoversConcat(ts[..|ts| - 1], [ts[|ts| - 1]], t);
        }
      }
      Union(init, [ts[|ts| - 1]])
  }

  lemma {:induction false} CoversCapEach(x: Segment, bs: seq<Segment>, t: real)
    ensures Covers(CapEach(x, bs), t) <==> In(t, x) && Covers(bs, t)
  {
    if Covers(CapEach(x, bs), t) {
      var i :| 0 <= i < |bs| && In(t, CapEach(x, bs)[i]);
      assert In(t, bs[i]);
    }
    if In(t, x) && Covers(bs, t) {
      var i :| 0 <= i < |bs| && In(t, bs[i]);
      assert In(t, CapEach(x, bs)[i]);
    }
  }

  lemma {:induction false} UnionDisjoint(xs: seq<Segment>, ys: seq<Segment>)
    requires Disjoint(xs) && Disjoint(ys)
    ensures Disjoint(Union(xs, ys))
  {
    var d := Diff(ys, xs);
    DiffDisjoint(ys, xs);
    forall i, j | 0 <= i < |xs| && 0 <= j < |d| ensures Apart(xs[i], d[j]) {
      forall t ensures !(In(t, xs[i]) && In(t, d[j])) {
        if In(t, xs[i]) && In(t, d[j]) {
          assert Covers(xs, t);
          assert Covers(d, t);
          CoversDiff(ys, xs, t);
        }
      }
      ApartIff(xs[i], d[j]);
    }
    DisjointConcat(xs, d);
  }

  lemma {:induction false} CapEachDisjoint(x: Segment, bs: seq<Segment>)
    requires Disjoint(bs)
    ensures Disjoint(CapEach(x, bs))
  {
    var c := CapEach(x, bs);
    forall i, j | 0 <= i < j < |c| ensures Apart(c[i], c[j]) {
      assert Within(c[i], bs[i]) && Within(c[j], bs[j]);
      ApartWithin(c[i], bs[i], bs[j]);
      ApartWithin(c[j], bs[j], c[i]);
    }
  }

  lemma {:induction false} CropWithin(xs: seq<Segment>, bs: seq<Segment>, k: nat)
    requires k < |Crop(xs, bs)|
    ensures exists i :: 0 <= i < |xs| && Within(Crop(xs, bs)[k], xs[i])
    decreases |xs|
  {
    var init := xs[..|xs| - 1];
    var p := Crop(init, bs);
    if k < |p| {
      CropWithin(init, bs, k);
      var i :| 0 <= i < |init| && Within(p[k], init[i]);
      assert xs[i] == init[i];
    } else {
      assert Within(CapEach(xs[|xs| - 1], bs)[k - |p|], xs[|xs| - 1]);
    }
  }

  /** Cropping disjoint lists gives disjoint pieces. */
  lemma {:induction false} CropDisjoint(xs: seq<Segment>, bs: seq<Segment>)
    requires Disjoint(xs) && Disjoint(bs)
    ensures Disjoint(Crop(xs, bs))
    decreases |xs|
  {
    if xs != [] {
      var init := xs[..|xs| - 1];
      var x := xs[|xs| - 1];
      var p := Crop(init, bs);
      var q := CapEach(x, bs);
      CropDisjoint(init, bs);
      CapEachDisjoint(x, bs);
      forall i, j | 0 <= i < |p| && 0 <= j < |q| ensures Apart(p[i], q[j]) {
        CropWithin(init, bs, i);
        var k :| 0 <= k < |init| && Within(p[i], init[k]);
        assert init[k] == xs[k];
        assert Apart(xs[k], x);
        ApartWithin(p[i], init[k], x);
        assert Within(q[j], x);
        ApartWithin(q[j], x, p[i]);
      }
      DisjointConcat(p, q);
    }
  }

  // ---------------------------------------------------------------------
  // Lengths: a list splits into its crop and its difference
  // ---------------------------------------------------------------------

  lemma {:induction false} MinusLen(x: Segment, b: Segment)
    requires b.start < b.end
    ensures Len(x) == Len(Cap(x, b)) + Len(Left(x, b)) + Len(Right(x, b))
  {
  }

  lemma {:induction false} CapSplit(x: Segment, b: Segment, c: Segment)
    requires b.start < b.end && Apart(b, c)
    ensures Len(Cap(x, c)) == Len(Cap(Left(x, b), c)) + Len(Cap(Right(x, b), c))
  {
  }

  lemma {:induction false} CapEachSplit(x: Segment, b: Segment, cs: seq<Segment>)
    requires b.start < b.end
    requires forall i :: 0 <= i < |cs| ==> Apart(b, cs[i])
    ensures Dur(CapEach(x, cs)) == Dur(CapEach(Left(x, b), cs)) + Dur(CapEach(Right(x, b), cs))
    decreases |cs|
  {
    if cs != [] {
      var init := cs[..|cs| - 1];
      assert CapEach(x, cs)[..|cs| - 1] == CapEach(x, init);
      assert CapEach(Left(x, b), cs)[..|cs| - 1] == CapEach(Left(x, b), init);
      assert CapEach(Right(x, b), cs)[..|cs| - 1] == CapEach(Right(x, b), init);
      CapEachSplit(x, b, init);
      CapSplit(x, b, cs[|cs| - 1]);
    }
  }

  lemma {:induction false} MinusAllConcat(p: seq<Segment>, q: seq<Segment>, b: Segment)
    ensures MinusAll(p + q, b) == MinusAll(p, b) + MinusAll(q, b)
    decreases |q|
  {
    if q == [] {
      assert p + q == p;
    } else {
      assert (p + q)[..|p + q| - 1] == p + q[..|q| - 1];
      MinusAllConcat(p, q[..|q| - 1], b);
    }
  }

  lemma {:induction false} DiffConcat(p: seq<Segment>, q: seq<Segment>, bs: seq<Segment>)
    ensures Diff(p + q, bs) == Diff(p, bs) + Diff(q, bs)
    decreases |bs|
  {
    if bs != [] {
      MinusAllConcat(p, q, bs[0]);
      DiffConcat(MinusAll(p, bs[0]), MinusAll(q, bs[0]), bs[1..]);
    }
  }

  lemma {:induction false} DisjointTail(bs: seq<Segment>)
    requires Disjoint(bs) && bs != []
    ensures Disjoint(bs[1..])
    ensures forall i :: 0 <= i < |bs[1..]| ==> Apart(bs[0], bs[1..][i])
  {
    var rest := bs[1..];
    forall i, j | 0 <= i < j < |rest| ensures Apart(rest[i], rest[j]) {
      assert rest[i] == bs[i + 1] && rest[j] == bs[j + 1];
    }
    forall i | 0 <= i < |rest| ensures Apart(bs[0], rest[i]) {
      assert rest[i] == bs[i + 1];
    }
  }

  lemma {:induction false} SplitOne(x: Segment, bs: seq<Segment>)
    requires Disjoint(bs)
    ensures Len(x) == Dur(CapEach(x, bs)) + Dur(Diff([x], bs))
    decreases |bs|
  {
    if bs == [] {
      assert Dur([x]) == Dur([]) + Len(x);
    } else {
      var b := bs[0];
      var rest := bs[1..];
      DisjointTail(bs);
      assert Dur(CapEach(x, bs)) == Len(Cap(x, b)) + Dur(CapEach(x, rest)) by {
        assert CapEach(x, bs) == [Cap(x, b)] + CapEach(x, rest);
        DurConcat([Cap(x, b)], CapEach(x, rest));
        assert Dur([Cap(x, b)]) == Len(Cap(x, b)) by {
          assert [Cap(x, b)][..0] == [];
        }
      }
      assert Diff([x], bs) == Diff(Minus(x, b), rest) by {
        assert [x][..0] == [];
        assert MinusAll([x], b) == Minus(x, b);
      }
      if b.start >= b.end {
        SplitOne(x, rest);
      } else {
        var l := Left(x, b);
        var r := Right(x, b);
        assert Dur(Diff(Minus(x, b), rest)) == Dur(Diff([l], rest)) + Dur(Diff([r], rest)) by {
          assert Minus(x, b) == [l] + [r];
          DiffConcat([l], [r], rest);
          DurConcat(Diff([l], rest), Diff([r], rest));
        }
        SplitOne(l, rest);
        SplitOne(r, rest);
        CapEachSplit(x, b, rest);
        MinusLen(x, b);
      }
    }
  }

  /** Against a disjoint list `bs`, the length of `xs` is the length of its
      crop plus the length of its difference. */
  lemma {:induction false} Split(xs: seq<Segment>, bs: seq<Segment>)
    requires Disjoint(bs)
    ensures Dur(xs) == Dur(Crop(xs, bs)) + Dur(Diff(xs, bs))
    decreases |xs|
  {
    if xs != [] {
      var init := xs[..|xs| - 1];
      var x := xs[|xs| - 1];
      assert xs == init + [x];
      assert Crop(xs, bs) == Crop(init, bs) + CapEach(x, bs);
      Split(init, bs);
      SplitOne(x, bs);
      DiffConcat(init, [x], bs);
      DurConcat(Diff(init, bs), Diff([x], bs));
      DurConcat(Crop(init, bs), CapEach(x, bs));
    } else {
      DiffOfNothing(bs);
    }
  }

  lemma {:induction false} DiffOfNothing(bs: seq<Segment>)
    ensures Diff([], bs) == []
    decreases |bs|
  {
    if bs != [] {
      DiffOfNothing(bs[1..]);
    }
  }

  lemma {:induction false} CropByNothing(xs: seq<Segment>)
    ensures Crop(xs, []) == []
    decreases |xs|
  {
    if xs != [] {
      CropByNothing(xs[..|xs| - 1]);
    }
  }

  lemma {:induction false} CropOne(bs: seq<Segment>, a: Segment)
    ensures Dur(Crop(bs, [a])) == Dur(CapEach(a, bs))
    decreases |bs|
  {
    if bs != [] {
      var init := bs[..|bs| - 1];
      var b := bs[|bs| - 1];
      var c := CapEach(a, bs);
      CropOne(init, a);
      assert c[..|bs| - 1] == CapEach(a, init);
      assert Dur(c) == Dur(CapEach(a, init)) + Len(Cap(a, b));
      assert CapEach(b, [a]) == [Cap(b, a)];
      assert Dur([Cap(b, a)]) == Len(Cap(b, a)) by {
        assert [Cap(b, a)][..0] == [];
      }
      assert Crop(bs, [a]) == Crop(init, [a]) + CapEach(b, [a]);
      DurConcat(Crop(init, [a]), CapEach(b, [a]));
    }
  }

  lemma {:induction false} CropAppend(bs: seq<Segment>, xs: seq<Segment>, a: Segment)
    ensures Dur(Crop(bs, xs + [a])) == Dur(Crop(bs, xs)) + Dur(Crop(bs, [a]))
    decreases |bs|
  {
    if bs != [] {
      var init := bs[..|bs| - 1];
      var b := bs[|bs| - 1];
      CropAppend(init, xs, a);
      CropLast(bs, xs + [a]);
      CropLast(bs, xs);
      CropLast(bs, [a]);
      CapEachAppend(b, xs, a);
    }
  }

  lemma CapEachAppend(b: Segment, xs: seq<Segment>, a: Segment)
    ensures Dur(CapEach(b, xs + [a])) == Dur(CapEach(b, xs)) + Dur(CapEach(b, [a]))
  {
    assert CapEach(b, xs + [a]) == CapEach(b, xs) + CapEach(b, [a]);
    DurConcat(CapEach(b, xs), CapEach(b, [a]));
  }

  lemma {:induction false} CropLast(xs: seq<Segment>, bs: seq<Segment>)
    requires xs != []
    ensures Dur(Crop(xs, bs)) == Dur(Crop(xs[..|xs| - 1], bs)) + Dur(CapEach(xs[|xs| - 1], bs))
  {
    DurConcat(Crop(xs[..|xs| - 1], bs), CapEach(xs[|xs| - 1], bs));
  }

  /** The crop has the same length whichever list is cropped by the other. */
  lemma {:induction false} CropSwap(xs: seq<Segment>, bs: seq<Segment>)
    ensures Dur(Crop(xs, bs)) == Dur(Crop(bs, xs))
    decreases |xs|
  {
    if xs != [] {
      var init := xs[..|xs| - 1];
      var a := xs[|xs| - 1];
      assert xs == init + [a];
      assert Crop(xs, bs) == Crop(init, bs) + CapEach(a, bs);
      CropSwap(init, bs);
      DurConcat(Crop(init, bs), CapEach(a, bs));
      CropAppend(bs, init, a);
      CropOne(bs, a);
    } else {
      CropByNothing(bs);
    }
  }

  // ---------------------------------------------------------------------
  // The Jaccard error rate
  // ---------------------------------------------------------------------

  /** metrics_calculation.py:66: the ratio, or 0 when the union has no length. */
  function Jaccard(intersection: real, union: real): real
  {
    if union > 0.0 then intersection / union else 0.0
  }

  /** metrics_calculation.py:59-67: one minus the Jaccard index of the two supports. */
  function Jer(reference: seq<Track>, hypothesis: seq<Track>): (rate: real)
    ensures 0.0 <= rate <= 1.0
  {
    var r := Support(Segments(reference));
    var h := Support(Segments(hypothesis));
    IntersectionWithinUnion(r, h);
    if Dur(Union(r, h)) > 0.0 then
      RatioBounds(Dur(Crop(r, h)), Dur(Union(r, h)));
      1.0 - Jaccard(Dur(Crop(r, h)), Dur(Union(r, h)))
    else
      1.0 - Jaccard(Dur(Crop(r, h)), Dur(Union(r, h)))
  }

  /** The two timelines the rate compares are disjoint pieces covering exactly
      the common time and the combined time of the two annotations. */
  lemma JerOperands(reference: seq<Track>, hypothesis: seq<Track>, t: real)
    ensures
      var r := Support(Segments(reference));
      var h := Support(Segments(hypothesis));
      && Disjoint(Crop(r, h)) && Disjoint(Union(r, h))
      && (Covers(Crop(r, h), t) <==> Covers(Segments(reference), t) && Covers(Segments(hypothesis), t))
      && (Covers(Union(r, h), t) <==> Covers(Segments(reference), t) || Covers(Segments(hypothesis), t))
  {
    var r := Support(Segments(reference));
    var h := Support(Segments(hypothesis));
    CropDisjoint(r, h);
    UnionDisjoint(r, h);
  }

  lemma {:induction false} RatioBounds(a: real, b: real)
    requires 0.0 <= a <= b && b > 0.0
    ensures 0.0 <= a / b <= 1.0
  {
    assert a / b * b == a;
  }

  /** The intersection is never longer than the union. */
  lemma {:induction false} IntersectionWithinUnion(r: seq<Segment>, h: seq<Segment>)
    requires Disjoint(h)
    ensures 0.0 <= Dur(Crop(r, h)) <= Dur(Union(r, h))
  {
    Split(r, h);
    DurConcat(r, Diff(h, r));
  }

  /** Swapping reference and hypothesis leaves the rate unchanged. */
  lemma JerSymmetric(reference: seq<Track>, hypothesis: seq<Track>)
    ensures Jer(reference, hypothesis) == Jer(hypothesis, reference)
  {
    var r := Support(Segments(reference));
    var h := Support(Segments(hypothesis));
    assert Dur(Crop(r, h)) == Dur(Crop(h, r)) by {
      CropSwap(r, h);
    }
    assert Dur(Union(r, h)) == Dur(Union(h, r)) by {
      UnionSwap(r, h);
    }
  }

  /** The union has the same length whichever support comes first. */
  lemma UnionSwap(r: seq<Segment>, h: seq<Segment>)
    requires Disjoint(r) && Disjoint(h)
    ensures Dur(Union(r, h)) == Dur(Union(h, r))
  {
    CropSwap(r, h);
    Split(r, h);
    Split(h, r);
    DurConcat(r, Diff(h, r));
    DurConcat(h, Diff(r, h));
  }

  lemma {:induction false} SameCoverageDurations(r: seq<Segment>, h: seq<Segment>)
    requires Disjoint(h)
    requires forall t :: Covers(r, t) <==> Covers(h, t)
    ensures Dur(Crop(r, h)) == Dur(r) && Dur(Union(r, h)) == Dur(r)
  {
    forall t ensures !Covers(Diff(r, h), t) && !Covers(Diff(h, r), t) {
      CoversDiff(r, h, t);
      CoversDiff(h, r, t);
    }
    CoversNothing(Diff(r, h));
    CoversNothing(Diff(h, r));
    Split(r, h);
    DurConcat(r, Diff(h, r));
  }

  /** Two annotations that cover the same, non-empty, time have rate 0. */
  lemma JerSameCoverage(reference: seq<Track>, hypothesis: seq<Track>, t0: real)
    requires forall t :: Covers(Segments(reference), t) <==> Covers(Segments(hypothesis), t)
    requires Covers(Segments(reference), t0)
    ensures Jer(reference, hypothesis) == 0.0
  {
    var r := Support(Segments(reference));
    var h := Support(Segments(hypothesis));
    assert forall t :: Covers(r, t) <==> Covers(h, t);
    SameCoverageDurations(r, h);
    CoversSomething(r, t0);
    JaccardOfEqual(Dur(r));
  }

  lemma {:induction false} JaccardOfEqual(a: real)
    requires a > 0.0
    ensures Jaccard(a, a) == 1.0
  {
  }

  /** Two annotations with no instant in common have rate 1; in particular two
      empty annotations do, because their union has no length. */
  lemma JerNoOverlap(reference: seq<Track>, hypothesis: seq<Track>)
    requires forall t :: !(Covers(Segments(reference), t) && Covers(Segments(hypothesis), t))
    ensures Jer(reference, hypothesis) == 1.0
  {
    var r := Support(Segments(reference));
    var h := Support(Segments(hypothesis));
    assert forall t :: !Covers(Crop(r, h), t);
    CoversNothing(Crop(r, h));
  }

  /** Give every track of `ts` a new speaker label. */
  function Rename(ts: seq<Track>, rename: string -> string): (r: seq<Track>)
    ensures |r| == |ts|
  {
    seq(|ts|, i requires 0 <= i < |ts| => Track(ts[i].segment, rename(ts[i].speaker)))
  }

  /** The rate ignores speaker labels: renaming them on either side changes nothing. */
  lemma JerIgnoresLabels(reference: seq<Track>, hypothesis: seq<Track>, f: string -> string, g: string -> string)
    ensures Jer(Rename(reference, f), Rename(hypothesis, g)) == Jer(reference, hypothesis)
  {
    assert Segments(Rename(reference, f)) == Segments(reference);
    assert Segments(Rename(hypothesis, g)) == Segments(hypothesis);
  }
}
