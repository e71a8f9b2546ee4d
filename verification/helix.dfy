/**
 * The DNA helix of the background animation (script.js, class DNAHelix):
 * the index, strand and height layout of its points. The x and z
 * coordinates are cosine and sine of the segment's angle and are not
 * modelled; each point keeps its segment number, from which that angle is
 * computed.
 */
module Helix {

  const Segments: nat := 60
  const Height: real := 600.0

  /** A point of the helix: the segment it belongs to, its height, and its strand (1 or 2). */
  datatype HelixPoint = HelixPoint(segment: nat, y: real, strand: nat)

  /** `(i / segments) * height - height / 2`, computed on exact rationals. */
  function SegmentY(i: nat): real {
    (i as real / Segments as real) * Height - Height / 2.0
  }

  /** The two points generateHelix pushes for segment i: strand 1, then strand 2 half a turn away. */
  function Rung(i: nat): seq<HelixPoint> {
    [HelixPoint(i, SegmentY(i), 1), HelixPoint(i, SegmentY(i), 2)]
  }

  /** The points of the first n segments, in the order they are pushed. */
  function Layout(n: nat): seq<HelixPoint> {
    if n == 0 then [] else Layout(n - 1) + Rung(n - 1)
  }

  /** `points.filter(p => p.strand === strand)`: the polyline draw() strokes for one strand. */
  function StrandPoints(points: seq<HelixPoint>, strand: nat): seq<HelixPoint> {
    if points == [] then []
    else StrandPoints(points[..|points| - 1], strand)
         + (if points[|points| - 1].strand == strand then [points[|points| - 1]] else [])
  }

  // ---------------------------------------------------------------- lemmas

  /** The height of segment i is exactly 10 * i - 300. */
  lemma SegmentYIsWhole(i: nat)
    ensures SegmentY(i) == (10 * i - 300) as real
  {
  }

  /**
   * Layout(n) holds 2n points; index 2k is strand 1 and index 2k + 1 is
   * strand 2, both of segment k and at the same height.
   */
  lemma {:induction false} LayoutShape(n: nat)
    ensures |Layout(n)| == 2 * n
    ensures forall k :: 0 <= k < n ==>
      Layout(n)[2 * k] == HelixPoint(k, SegmentY(k), 1)
      && Layout(n)[2 * k + 1] == HelixPoint(k, SegmentY(k), 2)
  {
    if n > 0 {
      LayoutShape(n - 1);
      var prev := Layout(n - 1);
      assert Layout(n) == prev + Rung(n - 1);
      forall k | 0 <= k < n
        ensures Layout(n)[2 * k] == HelixPoint(k, SegmentY(k), 1)
        ensures Layout(n)[2 * k + 1] == HelixPoint(k, SegmentY(k), 2)
      {
        if k < n - 1 {
          assert Layout(n)[2 * k] == prev[2 * k];
          assert Layout(n)[2 * k + 1] == prev[2 * k + 1];
        }
      }
    }
  }

  /** The generated helix: 120 points whose heights run from -300 up to 290 in steps of 10. */
  lemma HelixHeights()
    ensures |Layout(Segments)| == 120
    ensures forall k :: 0 <= k < Segments ==>
      Layout(Segments)[2 * k].y == Layout(Segments)[2 * k + 1].y == (10 * k - 300) as real
    ensures Layout(Segments)[0].y == -300.0
    ensures Layout(Segments)[119].y == 290.0
  {
    LayoutShape(Segments);
    assert Layout(Segments)[2 * 59 + 1] == HelixPoint(59, SegmentY(59), 2);
    assert Layout(Segments)[2 * 0] == HelixPoint(0, SegmentY(0), 1);
  }

  lemma {:induction false} StrandPointsAppend(a: seq<HelixPoint>, b: seq<HelixPoint>, strand: nat)
    ensures StrandPoints(a + b, strand) == StrandPoints(a, strand) + StrandPoints(b, strand)
  {
    if b == [] {
      assert a + b == a;
    } else {
      var b' := b[..|b| - 1];
      assert (a + b)[..|a + b| - 1] == a + b';
      assert (a + b)[|a + b| - 1] == b[|b| - 1];
      StrandPointsAppend(a, b', strand);
    }
  }

  /**
   * Each strand's polyline visits every segment once, in order: strand 1
   * takes the even indices and strand 2 the odd ones.
   */
  lemma {:induction false} StrandsOfLayout(n: nat)
    ensures |StrandPoints(Layout(n), 1)| == n && |StrandPoints(Layout(n), 2)| == n
    ensures forall k :: 0 <= k < n ==>
      StrandPoints(Layout(n), 1)[k] == HelixPoint(k, SegmentY(k), 1)
      && StrandPoints(Layout(n), 2)[k] == HelixPoint(k, SegmentY(k), 2)
  {
    if n > 0 {
      StrandsOfLayout(n - 1);
      StrandPointsAppend(Layout(n - 1), Rung(n - 1), 1);
      StrandPointsAppend(Layout(n - 1), Rung(n - 1), 2);
      var r := Rung(n - 1);
      assert r[..1] == [r[0]];
      assert StrandPoints(r, 1) == [r[0]] by {
        assert StrandPoints(r[..1], 1) == [r[0]] by {
          assert r[..1][..0] == [];
        }
      }
      assert StrandPoints(r, 2) == [r[1]] by {
        assert StrandPoints(r[..1], 2) == [] by {
          assert r[..1][..0] == [];
        }
      }
    }
  }

  // ---------------------------------------------------------------- rungs drawn by draw()

  /**
   * The indices the base-pair loop of draw() visits: `for (i = start; i < bound; i += 2)`.
   */
  function RungLoop(start: nat, bound: int): seq<nat>
    decreases bound - start
  {
    if start < bound then [start] + RungLoop(start + 2, bound) else []
  }

  /** The loop as written: `i < points.length - 2`. */
  function RungsAsWritten(count: nat): seq<nat> {
    RungLoop(0, count - 2)
  }

  /** The evidently intended loop: every `i` with a partner `i + 1`. */
  function RungsIntended(count: nat): seq<nat> {
    RungLoop(0, count - 1)
  }

  lemma {:induction false} RungLoopMembers(start: nat, bound: int, i: nat)
    requires start % 2 == 0
    ensures i in RungLoop(start, bound) <==> start <= i < bound && i % 2 == 0
    decreases bound - start
  {
    if start < bound {
      RungLoopMembers(start + 2, bound, i);
    }
  }

  /**
   * As written, the loop never draws the base pair of the last segment: for
   * the 60-segment helix, points 118 and 119 are never joined.
   */
  lemma LastRungSkipped(n: nat)
    requires n > 0
    ensures 2 * (n - 1) !in RungsAsWritten(|Layout(n)|)
    ensures forall i :: i in RungsAsWritten(|Layout(n)|) ==> i / 2 < n - 1
  {
    LayoutShape(n);
    RungLoopMembers(0, 2 * n - 2, 2 * (n - 1));
    forall i | i in RungsAsWritten(|Layout(n)|) ensures i / 2 < n - 1 {
      RungLoopMembers(0, 2 * n - 2, i);
    }
  }

  /** The intended loop draws the base pair of every segment, each with both its points in range. */
  lemma EveryRungDrawn(n: nat)
    ensures forall k :: 0 <= k < n ==> 2 * k in RungsIntended(|Layout(n)|)
    ensures forall i :: i in RungsIntended(|Layout(n)|) ==>
      i + 1 < |Layout(n)| && Layout(n)[i].segment == Layout(n)[i + 1].segment
  {
    LayoutShape(n);
    forall k | 0 <= k < n ensures 2 * k in RungsIntended(|Layout(n)|) {
      RungLoopMembers(0, 2 * n - 1, 2 * k);
    }
    forall i | i in RungsIntended(|Layout(n)|)
      ensures i + 1 < |Layout(n)| && Layout(n)[i].segment == Layout(n)[i + 1].segment
    {
      RungLoopMembers(0, 2 * n - 1, i);
      assert Layout(n)[2 * (i / 2)].segment == i / 2;
    }
  }

  // ---------------------------------------------------------------- the helix object

  class DNAHelix {
    const x: real
    const y: real
    const z: real
    var rotation: real
    var points: seq<HelixPoint>

    constructor (x: real, y: real, z: real)
      ensures this.x == x && this.y == y && this.z == z
      ensures rotation == 0.0 && points == Layout(Segments)
    {
      this.x, this.y, this.z := x, y, z;
      rotation := 0.0;
      points := [];
      new;
      GenerateHelix();
    }

    /** Pushes the two points of each of the 60 segments, in segment order. */
    method GenerateHelix()
      modifies this`points
      ensures points == old(points) + Layout(Segments)
    {
      var i := 0;
      while i < Segments
        invariant 0 <= i <= Segments
        invariant points == old(points) + Layout(i)
      {
        var py := (i as real / Segments as real) * Height - Height / 2.0;
        points := points + [HelixPoint(i, py, 1)];
        points := points + [HelixPoint(i, py, 2)];
        i := i + 1;
      }
    }

    /** Advances the rotation angle by 0.01 radians per frame. */
    method Update()
      modifies this`rotation
      ensures rotation == old(rotation) + 0.01
    {
      rotation := rotation + 0.01;
    }
  }
}
