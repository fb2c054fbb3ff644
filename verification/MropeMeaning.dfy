/** The positions of a prompt piece by piece: where every token of text and every cell of an
    image lies, which images are taken, and what the delta says about the largest position. */
module MropeMeaning {
  import opened Arithmetic
  import opened MropePositions
  import opened MropeChunks

  /** An image with a full grid is taken exactly if some factor divides both sides and turns the
      grid into as many cells as there are embeddings; everything else is. */
  lemma AcceptedIff(d: Data)
    ensures Accepted(d) <==>
              (d.Image? && d.t > 0 && d.h > 0 && d.w > 0 ==>
                 exists m: nat {:trigger d.h % m} ::
                   m > 0 && m * m * d.embed == (d.t * d.h) * d.w && d.h % m == 0 && d.w % m == 0)
  {
    if HasGrid(d) {
      forall m: nat | m > 0 && m * m * d.embed == (d.t * d.h) * d.w ensures InferredMerge(d) == m {
        InferredExactly(d, m);
      }
      if InferredMerge(d) > 0 { InferredExactly(d, InferredMerge(d)); }
      var m := InferredMerge(d);
      assert Accepted(d) ==> d.h % m == 0;
    }
  }

  /** A piece of text gives its tokens consecutive positions, the same on every axis. */
  lemma TextAt(base: int, d: Data, k: nat)
    requires !(d.Image? && d.t > 0 && d.h > 0 && d.w > 0)
    requires k < if d.Image? then d.embed else d.count
    ensures Accepted(d) && |DataPositions(base, d)| == (if d.Image? then d.embed else d.count)
    ensures DataPositions(base, d)[k] == Pos(base + k, base + k, base + k)
  {
  }

  /** An image with merge factor m has one token per cell of the merged grid, frame by frame and
      row by row; the axes are frame, row and column. */
  lemma CellAt(base: int, d: Data, m: nat, t: nat, y: nat, x: nat)
    requires Accepted(d) && d.Image? && d.t > 0 && d.h > 0 && d.w > 0
    requires m > 0 && m * m * d.embed == (d.t * d.h) * d.w
    requires t < d.t && y < d.h / m && x < d.w / m
    ensures
      var k := (t * (d.h / m) + y) * (d.w / m) + x;
      && 0 <= k < d.embed && |DataPositions(base, d)| == d.embed == (d.t * (d.h / m)) * (d.w / m)
      && DataPositions(base, d)[k] == Pos(base + t, base + y, base + x)
  {
    InferredExactly(d, m);
    CellsAreEmbeddings(d);
    var r, c := d.h / m, d.w / m;
    CellIndex(r, c, t, y, x);
    TimesOrdered(t, d.t, r);
    TimesOrdered(t * r + y, d.t * r, c);
    TimesOrdered(0, t * r + y, c);
    TimesOrdered(0, t, r);
  }

  /** The next piece starts behind a text, and behind the larger merged side of an image. */
  lemma NextStarts(base: int, d: Data, m: nat, rest: seq<Data>)
    requires Accepted(d) && AllAccepted(rest) && AllAccepted([d] + rest)
    requires d.Image? && d.t > 0 && d.h > 0 && d.w > 0 ==> m > 0 && m * m * d.embed == (d.t * d.h) * d.w
    ensures
      var next := base + if d.Image? && d.t > 0 && d.h > 0 && d.w > 0 then Max(d.h / m, d.w / m)
                         else if d.Image? then d.embed else d.count;
      Positions(base, [d] + rest) == DataPositions(base, d) + Positions(next, rest)
  {
    assert ([d] + rest)[0] == d && ([d] + rest)[1..] == rest;
    if HasGrid(d) {
      InferredExactly(d, m);
      SpanIsLargerSide(d);
    }
  }

  /** Some axis of p is v. */
  predicate Has(p: Pos, v: int) {
    p.t == v || p.h == v || p.w == v
  }

  /** After a call the consumed length has grown by the tokens of the call, and consumed length
      and delta together are right behind the largest position on any axis. */
  lemma FedMeansLargest(m: Memory, ds: seq<Data>)
    requires AllAccepted(ds)
    ensures
      var ps, n, next := Positions(m.consumed + m.delta, ds), Fed(m, ds), Fed(m, ds).consumed + Fed(m, ds).delta;
      && n.consumed == m.consumed + |ps|
      && (forall i {:trigger ps[i]} :: 0 <= i < |ps| ==> ps[i].t < next && ps[i].h < next && ps[i].w < next)
      && (ps == [] ==> n == m)
      && (ps != [] ==> exists i {:trigger ps[i]} :: 0 <= i < |ps| && Has(ps[i], next - 1))
  {
    hide *;
    var base := m.consumed + m.delta;
    var ps := Positions(base, ds);
    if ps != [] { PositionsReach(base, ds); }
    LargestOf(base, ps);
    FedIs(m, ds, base);
  }

  lemma FedIs(m: Memory, ds: seq<Data>, base: int)
    requires AllAccepted(ds) && base == m.consumed + m.delta
    ensures Fed(m, ds).consumed == m.consumed + |Positions(base, ds)|
    ensures Fed(m, ds).consumed + Fed(m, ds).delta == Highest(base - 1, Positions(base, ds)) + 1
  {
    PositionsLength(base, ds);
    hide Positions, TotalLength, AllAccepted, Highest;
  }

  lemma LargestOf(base: int, ps: seq<Pos>)
    requires ps != [] ==> ps[0].t >= base
    ensures
      var top := Highest(base - 1, ps);
      && (forall i {:trigger ps[i]} :: 0 <= i < |ps| ==> ps[i].t <= top && ps[i].h <= top && ps[i].w <= top)
      && (ps == [] ==> top == base - 1)
      && (ps != [] ==> exists i {:trigger ps[i]} :: 0 <= i < |ps| && Has(ps[i], top))
  {
    HighestIsBound(base - 1, ps);
    HighestAttained(base - 1, ps);
    if ps == [] { NoneHighest(base - 1); }
    hide Highest, Has;
  }

  lemma NoneHighest(top: int)
    ensures Highest(top, []) == top
  {
  }

  /** The largest entry is attained if it is above the start value. */
  lemma {:induction false} HighestAttained(top: int, ps: seq<Pos>)
    ensures Highest(top, ps) == top || exists i {:trigger ps[i]} :: 0 <= i < |ps| && Has(ps[i], Highest(top, ps))
  {
    if ps != [] {
      var front := ps[..|ps| - 1];
      HighestAttained(top, front);
      assert forall i :: 0 <= i < |front| ==> front[i] == ps[i];
      assert Highest(top, ps) == Highest(top, front) || Has(ps[|ps| - 1], Highest(top, ps));
    }
  }

  /** No position of a prompt lies before its base. */
  lemma {:induction false} PositionsReach(base: int, ds: seq<Data>)
    requires AllAccepted(ds) && Positions(base, ds) != []
    ensures Positions(base, ds)[0].t >= base
    decreases |ds|
  {
    var d := ds[0];
    if Length(d) == 0 {
      PositionsReach(base + Span(d), ds[1..]);
    } else {
      assert Positions(base, ds)[0] == DataPositions(base, d)[0];
      if HasGrid(d) {
        CellsAreEmbeddings(d);
        CellInside(d.t, Rows(d), Cols(d), 0);
      }
    }
  }
}
