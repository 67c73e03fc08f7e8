/*
 * A heightfield for fluid-surface simulation: a fixed width-by-height grid of
 * cells, each holding a height and the vertical velocity of that height, kept
 * in two flattened row-major arrays and advanced by a damped relaxation step.
 *
 * Heights and velocities are modelled as `real` (no rounding), grid
 * coordinates and sizes as `nat` (no machine-word overflow), and the elapsed
 * frame duration as a non-negative `real` number of seconds.
 */
module Heightfield {

  datatype Option<T> = None | Some(value: T)

  /** Velocity damping applied after every acceleration. */
  const DampeningFactor: real := 0.998

  /** Height given to every cell when a grid is created. */
  const InitialHeight: real := 0.1

  // ---------------------------------------------------------------------------
  // Index arithmetic on the flattened grid
  // ---------------------------------------------------------------------------

  /** Position of cell (x, y) in a row-major array whose rows are `width` long. */
  function Idx(width: nat, x: nat, y: nat): (i: nat)
    ensures x <= i
    ensures i < (y + 1) * width <==> x < width
  {
    y * width + x
  }

  /** Multiplying by the same factor keeps the order. */
  lemma MulMonotone(a: nat, b: nat, c: nat)
    requires a <= b
    ensures a * c <= b * c
  {
  }

  /** The slot past the end of row `y` is the first slot of row `y + 1`. */
  lemma RowStep(width: nat, y: nat)
    ensures Idx(width, width, y) == Idx(width, 0, y + 1)
  {
    assert (y + 1) * width == y * width + width;
  }

  /** Rows up to the bottom edge start inside the flattened array or just past its end. */
  lemma {:induction false} RowStartBound(width: nat, height: nat, y: nat)
    requires y <= height
    ensures Idx(width, 0, y) <= width * height
  {
    MulMonotone(y, height, width);
  }

  /** The row just past the bottom edge starts exactly at the end of the array. */
  lemma GridEnd(width: nat, height: nat)
    ensures Idx(width, 0, height) == width * height
  {
  }

  /** Every cell of the grid has its slot inside the flattened array. */
  lemma {:induction false} IdxBound(width: nat, height: nat, x: nat, y: nat)
    requires x < width && y < height
    ensures Idx(width, x, y) < width * height
  {
    RowStep(width, y);
    RowStartBound(width, height, y + 1);
  }

  /** The slot of a cell gives back the cell: column by remainder, row by quotient. */
  lemma {:induction false} CellOfIdx(width: nat, x: nat, y: nat)
    requires x < width
    ensures Idx(width, x, y) % width == x
    ensures Idx(width, x, y) / width == y
  {
    var i := Idx(width, x, y);
    var q, r := i / width, i % width;
    assert i == q * width + r;
    assert (y - q) * width == r - x;
    if y > q {
      MulMonotone(1, y - q, width);
    } else if y < q {
      MulMonotone(1, q - y, width);
    }
  }

  /** Every slot of the flattened array is the slot of exactly one grid cell. */
  lemma {:induction false} IdxOfCell(width: nat, height: nat, i: nat)
    requires i < width * height
    ensures 1 <= width && 1 <= height
    ensures i % width < width && i / width < height
    ensures Idx(width, i % width, i / width) == i
  {
    assert width != 0;
    assert height != 0;
    var q, r := i / width, i % width;
    assert i == q * width + r;
    if q >= height {
      MulMonotone(height, q, width);
      assert false;
    }
  }

  /** A cell of the grid has an in-bounds slot that gives back the cell. */
  lemma InGridCellSlot(width: nat, height: nat, x: nat, y: nat)
    ensures x < width && y < height ==>
              Idx(width, x, y) < width * height && Idx(width, x, y) % width == x && Idx(width, x, y) / width == y
  {
    if x < width && y < height {
      IdxBound(width, height, x, y);
      CellOfIdx(width, x, y);
    }
  }

  /** Distinct cells of the grid occupy distinct slots. */
  lemma IdxInjective(width: nat, x1: nat, y1: nat, x2: nat, y2: nat)
    requires x1 < width && x2 < width
    requires Idx(width, x1, y1) == Idx(width, x2, y2)
    ensures x1 == x2 && y1 == y2
  {
    CellOfIdx(width, x1, y1);
    CellOfIdx(width, x2, y2);
  }

  /** Two flattened grids that agree on every cell are equal. */
  lemma {:induction false} CellwiseEqual<T>(s: seq<T>, t: seq<T>, width: nat, height: nat)
    requires |s| == width * height && |t| == width * height
    requires forall x: nat, y: nat {:trigger Idx(width, x, y)} | x < width && y < height ::
               Idx(width, x, y) < |s| && s[Idx(width, x, y)] == t[Idx(width, x, y)]
    ensures s == t
  {
    forall i | 0 <= i < |s|
      ensures s[i] == t[i]
    {
      IdxOfCell(width, height, i);
    }
  }

  // ---------------------------------------------------------------------------
  // Point write
  // ---------------------------------------------------------------------------

  /**
   * The cell, if any, that a write addressed to column `x` and row `y` lands
   * on. The guard is on the flattened slot only, so a column past the right
   * edge spills over into a later row rather than being ignored.
   */
  function WrittenCell(width: nat, height: nat, x: nat, y: nat): (c: Option<(nat, nat)>)
    ensures c.None? <==> Idx(width, x, y) >= width * height
    ensures c.Some? ==> c.value.0 < width && c.value.1 < height
                        && Idx(width, c.value.0, c.value.1) == Idx(width, x, y)
    ensures x < width && y < height ==> c == Some((x, y))
  {
    InGridCellSlot(width, height, x, y);
    var i := Idx(width, x, y);
    if i >= width * height then None
    else IdxOfCell(width, height, i); Some((i % width, i / width))
  }

  /** A write to a row at or past the bottom edge is always ignored. */
  lemma {:induction false} WriteBelowGridIgnored(width: nat, height: nat, x: nat, y: nat)
    requires y >= height
    ensures WrittenCell(width, height, x, y) == None
  {
    MulMonotone(height, y, width);
  }

  /** A column just past the right edge lands on the next row's cell instead. */
  lemma {:induction false} WriteWrapsIntoNextRow(width: nat, height: nat, x: nat, y: nat)
    requires width <= x < 2 * width && y + 1 < height
    ensures WrittenCell(width, height, x, y) == Some((x - width, y + 1))
  {
    assert Idx(width, x, y) == Idx(width, x - width, y + 1);
    IdxBound(width, height, x - width, y + 1);
    CellOfIdx(width, x - width, y + 1);
  }

  // ---------------------------------------------------------------------------
  // Acceleration
  // ---------------------------------------------------------------------------

  /** Clamps a possibly off-grid coordinate onto [0, n). */
  function ClampCoord(c: int, n: nat): (r: nat)
    requires 1 <= n
    ensures r < n
    ensures 0 <= c < n ==> r == c
  {
    if c < 0 then 0 else if c >= n then n - 1 else c
  }

  /**
   * Height seen at a possibly off-grid position when the grid is extended by
   * its nearest edge cell (a zero-gradient boundary).
   */
  function HeightAt(z: seq<real>, width: nat, height: nat, cx: int, cy: int): (r: real)
    requires 1 <= width && 1 <= height && |z| == width * height
    ensures r in z
  {
    var x, y := ClampCoord(cx, width), ClampCoord(cy, height);
    IdxBound(width, height, x, y);
    z[Idx(width, x, y)]
  }

  /**
   * Average of the four von Neumann neighbours' heights minus the cell's own,
   * where a neighbour off the grid is replaced by the cell itself.
   */
  function Acceleration(z: seq<real>, width: nat, height: nat, x: nat, y: nat): (a: real)
    requires 1 <= width && 1 <= height && |z| == width * height
    requires x < width && y < height
    ensures a == (HeightAt(z, width, height, x, y - 1) + HeightAt(z, width, height, x, y + 1)
                  + HeightAt(z, width, height, x - 1, y) + HeightAt(z, width, height, x + 1, y)) / 4.0
                 - HeightAt(z, width, height, x, y)
  {
    IdxBound(width, height, x, y);
    IdxBound(width, height, 0, y);
    var north := if y == 0 then z[Idx(width, x, y)]
                 else (IdxBound(width, height, x, y - 1); z[Idx(width, x, y - 1)]);
    var south := if y == height - 1 then z[Idx(width, x, y)]
                 else (IdxBound(width, height, x, y + 1); z[Idx(width, x, y + 1)]);
    var west := if x == 0 then z[Idx(width, 0, y)]
                else (IdxBound(width, height, x - 1, y); z[Idx(width, x - 1, y)]);
    var east := if x == width - 1 then z[Idx(width, x, y)]
                else (IdxBound(width, height, x + 1, y); z[Idx(width, x + 1, y)]);
    (north + south + west + east) / 4.0 - z[Idx(width, x, y)]
  }

  /** On a one-cell grid every neighbour is the cell itself. */
  lemma SingleCellAccelerationIsZero(z: seq<real>)
    requires |z| == 1
    ensures Acceleration(z, 1, 1, 0, 0) == 0.0
  {
  }

  /** Where all four neighbours are as high as the cell, nothing accelerates it. */
  lemma LevelNeighbourhoodAccelerationIsZero(z: seq<real>, width: nat, height: nat, x: nat, y: nat)
    requires 1 <= width && 1 <= height && |z| == width * height
    requires x < width && y < height
    requires HeightAt(z, width, height, x, y - 1) == HeightAt(z, width, height, x, y)
    requires HeightAt(z, width, height, x, y + 1) == HeightAt(z, width, height, x, y)
    requires HeightAt(z, width, height, x - 1, y) == HeightAt(z, width, height, x, y)
    requires HeightAt(z, width, height, x + 1, y) == HeightAt(z, width, height, x, y)
    ensures Acceleration(z, width, height, x, y) == 0.0
  {
  }

  /**
   * The cell's height plus its acceleration is the neighbour average, so it
   * stays within any bounds that hold all heights of the grid.
   */
  lemma {:induction false} AccelerationWithinBounds(z: seq<real>, width: nat, height: nat, x: nat, y: nat, lo: real, hi: real)
    requires 1 <= width && 1 <= height && |z| == width * height
    requires x < width && y < height
    requires forall i :: 0 <= i < |z| ==> lo <= z[i] <= hi
    ensures lo <= HeightAt(z, width, height, x, y) + Acceleration(z, width, height, x, y) <= hi
  {
    var n := HeightAt(z, width, height, x, y - 1);
    var s := HeightAt(z, width, height, x, y + 1);
    var w := HeightAt(z, width, height, x - 1, y);
    var e := HeightAt(z, width, height, x + 1, y);
    var c := HeightAt(z, width, height, x, y);
    ElementWithinBounds(z, lo, hi, n);
    ElementWithinBounds(z, lo, hi, s);
    ElementWithinBounds(z, lo, hi, w);
    ElementWithinBounds(z, lo, hi, e);
    assert c + Acceleration(z, width, height, x, y) == (n + s + w + e) / 4.0;
  }

  /** On a grid whose heights are all equal, no cell accelerates. */
  lemma {:induction false} FlatAccelerationIsZero(z: seq<real>, width: nat, height: nat, x: nat, y: nat, c: real)
    requires 1 <= width && 1 <= height && |z| == width * height
    requires x < width && y < height
    requires forall i :: 0 <= i < |z| ==> z[i] == c
    ensures Acceleration(z, width, height, x, y) == 0.0
  {
    ElementWithinBounds(z, c, c, HeightAt(z, width, height, x, y));
    AccelerationWithinBounds(z, width, height, x, y, c, c);
  }

  /** A value taken from the grid obeys any bounds that hold for all its heights. */
  lemma ElementWithinBounds(z: seq<real>, lo: real, hi: real, h: real)
    requires forall i :: 0 <= i < |z| ==> lo <= z[i] <= hi
    requires h in z
    ensures lo <= h <= hi
  {
    var i :| 0 <= i < |z| && z[i] == h;
  }

  // ---------------------------------------------------------------------------
  // The two passes of a step, as functions of the pre-step state
  // ---------------------------------------------------------------------------

  /** The value nearest to `v` in [lo, hi]. */
  function Clamp(v: real, lo: real, hi: real): (r: real)
    requires lo <= hi
    ensures lo <= r <= hi
    ensures lo <= v <= hi ==> r == v
    ensures v < lo ==> r == lo
    ensures hi < v ==> r == hi
  {
    var r := if v < lo then lo else v;
    if r > hi then hi else r
  }

  /** A velocity after adding an acceleration to it and damping the sum. */
  function DampedVelocity(v: real, a: real): (r: real)
    ensures 0.0 <= v + a ==> 0.0 <= r <= v + a
    ensures v + a <= 0.0 ==> v + a <= r <= 0.0
    ensures r == 0.0 <==> v + a == 0.0
  {
    (v + a) * DampeningFactor
  }

  /**
   * Velocities after pass 1: each cell's velocity plus its acceleration,
   * computed from the heights `z` as they stand before the step, then damped.
   */
  function StepVelocity(z: seq<real>, dz: seq<real>, width: nat, height: nat): (v: seq<real>)
    requires |z| == width * height && |dz| == width * height
    ensures |v| == width * height
  {
    seq(width * height, i requires 0 <= i < width * height =>
          IdxOfCell(width, height, i);
          DampedVelocity(dz[i], Acceleration(z, width, height, i % width, i / width)))
  }

  /** Pass 1 sets the velocity of cell (x, y) from its old velocity and its acceleration. */
  lemma {:induction false} StepVelocityAt(z: seq<real>, dz: seq<real>, width: nat, height: nat, x: nat, y: nat)
    requires |z| == width * height && |dz| == width * height
    requires x < width && y < height
    ensures Idx(width, x, y) < width * height
    ensures StepVelocity(z, dz, width, height)[Idx(width, x, y)]
            == DampedVelocity(dz[Idx(width, x, y)], Acceleration(z, width, height, x, y))
  {
    IdxBound(width, height, x, y);
    CellOfIdx(width, x, y);
  }

  /** A height moved at velocity `v` for `dt` seconds, clamped to [0, 1]. */
  function MovedHeight(h: real, v: real, dt: real): (r: real)
    ensures 0.0 <= r <= 1.0
    ensures 0.0 <= h + v * dt <= 1.0 ==> r == h + v * dt
  {
    Clamp(h + v * dt, 0.0, 1.0)
  }

  /** A height in [0, 1] with no velocity does not move. */
  lemma RestingHeightStays(h: real, v: real, dt: real)
    requires 0.0 <= h <= 1.0 && v == 0.0
    ensures MovedHeight(h, v, dt) == h
  {
  }

  /**
   * Heights after pass 2: each height moved by its new velocity over `dt`
   * seconds, then clamped to [0, 1].
   */
  function StepHeight(z: seq<real>, v: seq<real>, dt: real): (r: seq<real>)
    requires |v| == |z|
    ensures |r| == |z|
    ensures forall i :: 0 <= i < |r| ==> 0.0 <= r[i] <= 1.0
  {
    seq(|z|, i requires 0 <= i < |z| => MovedHeight(z[i], v[i], dt))
  }

  /** On a flat grid at rest, pass 1 leaves every velocity at zero. */
  lemma {:induction false} FlatStillVelocityUnchanged(z: seq<real>, dz: seq<real>, width: nat, height: nat, c: real)
    requires |z| == width * height && |dz| == width * height
    requires forall i :: 0 <= i < |z| ==> z[i] == c
    requires forall i :: 0 <= i < |dz| ==> dz[i] == 0.0
    ensures StepVelocity(z, dz, width, height) == dz
  {
    var v := StepVelocity(z, dz, width, height);
    forall x: nat, y: nat | x < width && y < height
      ensures Idx(width, x, y) < |v| && v[Idx(width, x, y)] == dz[Idx(width, x, y)]
    {
      FlatAccelerationIsZero(z, width, height, x, y, c);
      StepVelocityAt(z, dz, width, height, x, y);
    }
    CellwiseEqual(v, dz, width, height);
  }

  /** A flat grid at rest within [0, 1] is left exactly as it is by a step. */
  lemma {:induction false} FlatStillFieldIsFixedPoint(z: seq<real>, dz: seq<real>, width: nat, height: nat, c: real, dt: real)
    requires |z| == width * height && |dz| == width * height
    requires 0.0 <= c <= 1.0
    requires forall i :: 0 <= i < |z| ==> z[i] == c
    requires forall i :: 0 <= i < |dz| ==> dz[i] == 0.0
    ensures StepVelocity(z, dz, width, height) == dz
    ensures StepHeight(z, StepVelocity(z, dz, width, height), dt) == z
  {
    FlatStillVelocityUnchanged(z, dz, width, height, c);
    var r := StepHeight(z, dz, dt);
    forall i | 0 <= i < |z|
      ensures r[i] == z[i]
    {
      RestingHeightStays(z[i], dz[i], dt);
    }
  }

  /** A move that stays within [0, 1] is not altered by the clamp. */
  lemma {:induction false} StepHeightInRangeUnclamped(z: seq<real>, v: seq<real>, dt: real, i: nat)
    requires |v| == |z| && i < |z|
    requires 0.0 <= z[i] + v[i] * dt <= 1.0
    ensures StepHeight(z, v, dt)[i] == z[i] + v[i] * dt
  {
  }

  /** With no time elapsed, pass 2 only clamps the heights. */
  lemma ZeroDtOnlyClamps(z: seq<real>, v: seq<real>)
    requires |v| == |z|
    ensures StepHeight(z, v, 0.0) == seq(|z|, i requires 0 <= i < |z| => Clamp(z[i], 0.0, 1.0))
    ensures (forall i :: 0 <= i < |z| ==> 0.0 <= z[i] <= 1.0) ==> StepHeight(z, v, 0.0) == z
  {
  }

  // ---------------------------------------------------------------------------
  // The grid engine
  // ---------------------------------------------------------------------------

  class Heightfield {
    var width: nat
    var height: nat
    /** Height of each cell, row-major. */
    var z: array<real>
    /** Velocity of each cell's height, row-major. */
    var dz: array<real>

    /** Both arrays hold exactly one value per cell and are distinct. */
    ghost predicate Valid()
      reads this
    {
      z.Length == width * height && dz.Length == width * height && z != dz
    }

    /** A grid with every height at `InitialHeight` and every velocity zero. */
    constructor (width: nat, height: nat)
      ensures Valid() && fresh(z) && fresh(dz)
      ensures this.width == width && this.height == height
      ensures z[..] == seq(width * height, _ => InitialHeight)
      ensures dz[..] == seq(width * height, _ => 0.0)
    {
      this.width := width;
      this.height := height;
      z := new real[width * height](_ => InitialHeight);
      dz := new real[width * height](_ => 0.0);
    }

    /**
     * Overwrites the height at column `x`, row `y` with `value`, unclamped,
     * unless the flattened slot lies past the end of the array.
     */
    method SetHeight(x: nat, y: nat, value: real)
      requires Valid()
      modifies z
      ensures Valid() && width == old(width) && height == old(height)
      ensures match WrittenCell(width, height, x, y)
              case None => z[..] == old(z[..])
              case Some((cx, cy)) => z[..] == old(z[..])[Idx(width, cx, cy) := value]
      ensures dz[..] == old(dz[..])
    {
      var i := Idx(width, x, y);
      if i >= z.Length {
        return;
      }
      z[i] := value;
    }

    /**
     * Advances the grid by `dt` seconds: pass 1 updates every velocity from
     * the pre-step heights, pass 2 then moves and clamps every height.
     */
    method Step(dt: real)
      requires Valid() && 0.0 <= dt
      modifies z, dz
      ensures Valid() && width == old(width) && height == old(height)
      ensures dz[..] == StepVelocity(old(z[..]), old(dz[..]), width, height)
      ensures z[..] == StepHeight(old(z[..]), dz[..], dt)
      ensures forall i :: 0 <= i < z.Length ==> 0.0 <= z[i] <= 1.0
    {
      UpdateVelocities();
      UpdateHeights(dt);
    }

    /** Pass 1 of a step: adds each cell's acceleration to its velocity and damps it. */
    method UpdateVelocities()
      requires Valid()
      modifies dz
      ensures Valid()
      ensures dz[..] == StepVelocity(z[..], old(dz[..]), width, height)
    {
      ghost var z0, dz0 := z[..], dz[..];
      ghost var v := StepVelocity(z0, dz0, width, height);
      var y := 0;
      while y < height
        invariant 0 <= y <= height
        invariant Idx(width, 0, y) <= dz.Length
        invariant z[..] == z0
        invariant forall i :: 0 <= i < Idx(width, 0, y) ==> dz[i] == v[i]
        invariant forall i :: Idx(width, 0, y) <= i < dz.Length ==> dz[i] == dz0[i]
      {
        var x := 0;
        while x < width
          invariant 0 <= x <= width
          invariant Idx(width, x, y) <= dz.Length
          invariant z[..] == z0
          invariant forall i :: 0 <= i < Idx(width, x, y) ==> dz[i] == v[i]
          invariant forall i :: Idx(width, x, y) <= i < dz.Length ==> dz[i] == dz0[i]
        {
          IdxBound(width, height, x, y);
          StepVelocityAt(z0, dz0, width, height, x, y);
          var i := Idx(width, x, y);
          dz[i] := dz[i] + Acceleration(z[..], width, height, x, y);
          dz[i] := dz[i] * DampeningFactor;
          x := x + 1;
        }
        RowStep(width, y);
        y := y + 1;
      }
      GridEnd(width, height);
      assert dz[..] == v;
    }

    /** Pass 2 of a step: moves each height by its velocity over `dt` seconds and clamps it. */
    method UpdateHeights(dt: real)
      requires Valid() && 0.0 <= dt
      modifies z
      ensures Valid()
      ensures z[..] == StepHeight(old(z[..]), dz[..], dt)
    {
      ghost var z0, v := z[..], dz[..];
      var y := 0;
      while y < height
        invariant 0 <= y <= height
        invariant Idx(width, 0, y) <= z.Length
        invariant dz[..] == v
        invariant forall i :: 0 <= i < Idx(width, 0, y) ==> z[i] == MovedHeight(z0[i], v[i], dt)
        invariant forall i :: Idx(width, 0, y) <= i < z.Length ==> z[i] == z0[i]
      {
        var x := 0;
        while x < width
          invariant 0 <= x <= width
          invariant Idx(width, x, y) <= z.Length
          invariant dz[..] == v
          invariant forall i :: 0 <= i < Idx(width, x, y) ==> z[i] == MovedHeight(z0[i], v[i], dt)
          invariant forall i :: Idx(width, x, y) <= i < z.Length ==> z[i] == z0[i]
        {
          IdxBound(width, height, x, y);
          var i := Idx(width, x, y);
          z[i] := z[i] + dz[Idx(width, x, y)] * dt;
          z[i] := Clamp(z[i], 0.0, 1.0);
          x := x + 1;
        }
        RowStep(width, y);
        y := y + 1;
      }
      GridEnd(width, height);
      assert z[..] == StepHeight(z0, v, dt);
    }
  }

  /**
   * A 3-by-3 grid splashed to 1.0 at its centre and stepped by one second:
   * the centre falls, an edge neighbour rises and a corner is untouched.
   */
  method CentreSplash() returns (centre: real, centreVelocity: real, edge: real, corner: real)
    ensures centreVelocity == -0.8982 && centre == 0.1018
    ensures edge == 0.32455 && corner == 0.1
  {
    var field := new Heightfield(3, 3);
    field.SetHeight(1, 1, 1.0);
    ghost var z0, dz0 := field.z[..], field.dz[..];
    assert Idx(3, 1, 1) == 4;
    assert z0 == [0.1, 0.1, 0.1, 0.1, 1.0, 0.1, 0.1, 0.1, 0.1];
    assert dz0 == [0.0, 0.0, 0.0, 0.0, 0.0, 0.0, 0.0, 0.0, 0.0];
    SplashStep(z0, dz0);
    field.Step(1.0);
    centre, centreVelocity := field.z[4], field.dz[4];
    edge, corner := field.z[1], field.z[0];
  }

  /** One one-second step of the splashed 3-by-3 grid, cell by cell. */
  lemma SplashStep(z: seq<real>, dz: seq<real>)
    requires z == [0.1, 0.1, 0.1, 0.1, 1.0, 0.1, 0.1, 0.1, 0.1]
    requires dz == [0.0, 0.0, 0.0, 0.0, 0.0, 0.0, 0.0, 0.0, 0.0]
    ensures StepVelocity(z, dz, 3, 3)[4] == -0.8982
    ensures StepHeight(z, StepVelocity(z, dz, 3, 3), 1.0)[4] == 0.1018
    ensures StepHeight(z, StepVelocity(z, dz, 3, 3), 1.0)[1] == 0.32455
    ensures StepHeight(z, StepVelocity(z, dz, 3, 3), 1.0)[0] == 0.1
  {
    SplashAccelerations(z);
    StepVelocityAt(z, dz, 3, 3, 1, 1);
    StepVelocityAt(z, dz, 3, 3, 1, 0);
    StepVelocityAt(z, dz, 3, 3, 0, 0);
    var v := StepVelocity(z, dz, 3, 3);
    assert Idx(3, 1, 1) == 4 && Idx(3, 1, 0) == 1 && Idx(3, 0, 0) == 0;
    assert v[4] == -0.8982 && v[1] == 0.22455 && v[0] == 0.0;
    var r := StepHeight(z, v, 1.0);
    assert r[4] == MovedHeight(1.0, -0.8982, 1.0);
    assert r[1] == MovedHeight(0.1, 0.22455, 1.0);
    assert r[0] == MovedHeight(0.1, 0.0, 1.0);
  }

  /** Accelerations on a 3-by-3 grid at 0.1 everywhere except 1.0 at its centre. */
  lemma SplashAccelerations(z: seq<real>)
    requires z == [0.1, 0.1, 0.1, 0.1, 1.0, 0.1, 0.1, 0.1, 0.1]
    ensures Acceleration(z, 3, 3, 1, 1) == -0.9
    ensures Acceleration(z, 3, 3, 1, 0) == 0.225
    ensures Acceleration(z, 3, 3, 0, 0) == 0.0
  {
    assert HeightAt(z, 3, 3, 1, 0) == 0.1 && HeightAt(z, 3, 3, 1, 2) == 0.1;
    assert HeightAt(z, 3, 3, 0, 1) == 0.1 && HeightAt(z, 3, 3, 2, 1) == 0.1;
    assert HeightAt(z, 3, 3, 1, 1) == 1.0 && HeightAt(z, 3, 3, 1, -1) == 0.1;
    assert HeightAt(z, 3, 3, 0, 0) == 0.1 && HeightAt(z, 3, 3, 2, 0) == 0.1;
    assert HeightAt(z, 3, 3, 0, -1) == 0.1 && HeightAt(z, 3, 3, -1, 0) == 0.1;
  }
}
