# Heightfield grid engine, modelled in Dafny

This project models the fluid-surface engine of `ferilous_fluids`: a
`Heightfield` over a fixed `width × height` grid that keeps two flattened
row-major arrays, `z` (the height of each cell) and `dz` (the vertical velocity
of that height). A driver creates the grid once, optionally writes single
heights, and advances it once per frame with `step(dt)`.

`heightfield.dfy` holds one module, `Heightfield`:

- `Heightfield.Heightfield` is a class with the source's fields `width`,
  `height`, `z` and `dz` (two `array<real>`). It has a constructor (the
  source's `new`) and the methods `SetHeight` and `Step`. `Valid()` states the
  shape invariant: both arrays have exactly `width * height` slots and are
  distinct objects.
- `Step` runs the source's two loops in order. Each loop is its own method:
  `UpdateVelocities` (pass 1, adding acceleration and damping) and
  `UpdateHeights` (pass 2, moving and clamping). Both keep the source's nested
  `for y / for x` loops and their in-place writes. Each method is proved
  against a specification function of the pre-step state. For pass 1 that
  function is `StepVelocity`, and for pass 2 it is `StepHeight`.
- `Idx` is the source's `get_z_idx`. `Acceleration` is `get_acceleration`,
  written as a function of the height sequence. Its postcondition gives an
  independent definition: look up the four neighbours with their coordinates
  clamped onto the grid (`HeightAt`), which is the zero-gradient boundary.
- `WrittenCell` is the bounds check of `set_height`. The check is on the
  flattened slot, not on `x` and `y` one at a time.

Numbers: `f64` becomes `real` and `usize` becomes `nat`. The frame duration
`dt.as_secs_f64()` becomes a `real` parameter that is at least zero. The
damping constant 0.998 and the initial height 0.1 are `DampeningFactor` and
`InitialHeight`.

Two behaviours of `set_height` and `step` are easy to misread. The model
keeps both as the code has them:

- **Out-of-range writes.** `set_height` does not check `x` and `y` one at a
  time. It compares only the flattened slot `y * width + x` with the array
  length. A write to a row at or below the bottom edge is ignored
  (`WriteBelowGridIgnored`). A write to a column past the right edge is not
  ignored: it lands on a cell of a later row (`WriteWrapsIntoNextRow`).
- **Zero `dt`.** A step with `dt = 0` still clamps every height. A height that
  `set_height` put outside [0, 1] is pulled back into range, so the grid is
  left unchanged only when every height is already in range
  (`ZeroDtOnlyClamps`).

## Model

| member | source | states |
|---|---|---|
| `Heightfield.Heightfield.constructor` | src/heightfield.rs:13-20 | a new grid has the given width and height, and both arrays have exactly `width*height` slots; every height is 0.1 and every velocity is 0.0 |
| `Heightfield.Idx` | src/heightfield.rs:33-36 | the slot `y*width + x` of cell (x, y) is at least `x`, and it lies before the start of row `y + 1` exactly when the column is inside the grid; its bound, inverse and injectivity are `IdxBound`, `CellOfIdx`, `IdxOfCell` and `IdxInjective` |
| `Heightfield.IdxBound` | src/heightfield.rs:33-36 | for `x < width` and `y < height`, `y*width + x` is below `width*height`, so every array access in `get_acceleration` and `step` is in bounds |
| `Heightfield.CellOfIdx` | src/heightfield.rs:33-36 | the slot of cell (x, y) gives back `x` as its remainder and `y` as its quotient by `width` (a partner inverse of `get_z_idx`) |
| `Heightfield.IdxOfCell` | src/heightfield.rs:33-36 | every slot below `width*height` is the slot of a grid cell, and that cell is found by remainder and quotient; such a slot exists only on a grid with at least one row and one column |
| `Heightfield.IdxInjective` | src/heightfield.rs:33-36 | two in-grid cells with the same slot are the same cell |
| `Heightfield.WrittenCell` | src/heightfield.rs:25-30 | a write is ignored exactly when the flattened slot is at least `width*height`; otherwise it lands on an in-grid cell with that slot; a write to an in-grid cell lands on that cell |
| `Heightfield.WriteBelowGridIgnored` | src/heightfield.rs:25-29 | a write to any row `y >= height` is ignored, whatever the column |
| `Heightfield.WriteWrapsIntoNextRow` | src/heightfield.rs:25-30 | a column `width <= x < 2*width` in a row above the last lands on column `x - width` of row `y + 1`; it is not ignored |
| `Heightfield.Heightfield.SetHeight` | src/heightfield.rs:23-31 | if the flattened slot is out of range, `z` is unchanged; otherwise only that one slot of `z` changes, and it gets `value` unclamped; `dz`, `width` and `height` never change |
| `Heightfield.Acceleration` | src/heightfield.rs:38-46 | the acceleration is the mean of the north, south, west and east heights minus the cell's own; an off-grid neighbour reads as the nearest grid cell, which is the cell itself |
| `Heightfield.SingleCellAccelerationIsZero` | src/heightfield.rs:40-45 | on a 1×1 grid every neighbour is the cell itself, so the acceleration is 0 |
| `Heightfield.LevelNeighbourhoodAccelerationIsZero` | src/heightfield.rs:40-45 | where all four neighbours are as high as the cell, the acceleration is 0 |
| `Heightfield.AccelerationWithinBounds` | src/heightfield.rs:40-45 | the cell's height plus its acceleration (the neighbour average) stays within any bounds that hold for every height of the grid |
| `Heightfield.FlatAccelerationIsZero` | src/heightfield.rs:40-45 | on a grid whose heights are all equal, every cell's acceleration is 0 |
| `Heightfield.Clamp` | src/heightfield.rs:71 | the result is in [lo, hi]; a value already in range is kept; a value below or above the range gives lo or hi |
| `Heightfield.DampedVelocity` | src/heightfield.rs:56-57 | one cell's velocity update: the acceleration is added and the sum damped by 0.998, which moves it towards zero without changing its sign, and the result is zero exactly when the sum is |
| `Heightfield.StepVelocity` | src/heightfield.rs:50-59 | pass 1 yields exactly one velocity per cell |
| `Heightfield.StepVelocityAt` | src/heightfield.rs:54-57 | after pass 1, the velocity of cell (x, y) is `(old dz + acceleration from the pre-step heights) * 0.998` |
| `Heightfield.MovedHeight` | src/heightfield.rs:70-71 | one cell's height update: the result is in [0, 1], and it is exactly `h + v*dt` whenever that move stays in [0, 1] |
| `Heightfield.StepHeight` | src/heightfield.rs:64-73 | pass 2 yields one height per cell, and every height lies in [0, 1] |
| `Heightfield.StepHeightInRangeUnclamped` | src/heightfield.rs:70-71 | a height whose move `z + v*dt` stays within [0, 1] becomes exactly `z + v*dt` |
| `Heightfield.RestingHeightStays` | src/heightfield.rs:70-71 | a height in [0, 1] with zero velocity keeps its value over any `dt` |
| `Heightfield.ZeroDtOnlyClamps` | src/heightfield.rs:70-71 | with `dt = 0`, pass 2 only clamps every height to [0, 1], so a grid already in range is unchanged |
| `Heightfield.FlatStillVelocityUnchanged` | src/heightfield.rs:45-57 | on a flat grid whose velocities are all 0, pass 1 leaves every velocity at 0 |
| `Heightfield.FlatStillFieldIsFixedPoint` | src/heightfield.rs:48-74 | a flat grid at a height in [0, 1] whose velocities are all 0 is left exactly as it is by a step |
| `Heightfield.Heightfield.UpdateVelocities` | src/heightfield.rs:50-59 | pass 1 sets `dz` to `StepVelocity` of the current heights and the old velocities; it never writes `z` |
| `Heightfield.Heightfield.UpdateHeights` | src/heightfield.rs:64-73 | pass 2 sets `z` to `StepHeight` of the old heights and the current velocities; it never writes `dz` |
| `Heightfield.Heightfield.Step` | src/heightfield.rs:48-74 | the new velocities depend only on the pre-step heights and velocities; the new heights are those heights moved by the new velocities and clamped; every height is in [0, 1] afterwards, even after an out-of-range `set_height`; width, height and array lengths do not change |
| `Heightfield.SplashAccelerations` | src/heightfield.rs:38-46 | on a 3×3 grid at 0.1 with 1.0 at the centre, the centre accelerates by -0.9, an edge cell by 0.225 and a corner by 0 |
| `Heightfield.SplashStep` | src/heightfield.rs:48-74 | one one-second step of that grid gives the centre velocity -0.8982 and height 0.1018, the edge cell height 0.32455, and leaves the corner at 0.1 |
| `Heightfield.CentreSplash` | src/heightfield.rs:13-74 | the same scenario driven through the class: construct 3×3, write 1.0 at (1, 1), step by 1 second, then read back the centre, edge and corner |

## Left out

- `src/main.rs` is not part of this model. It holds the window and event loop, mouse polling, frame timing, and the RGBA pixel-buffer fill and drawing. All of it is input/output around a graphics library.
- The `(height * 255.0) as u8` pixel conversion is left out. It is presentation and depends on float-to-integer cast rules.
- IEEE-754 rounding, NaN propagation through `f64::clamp`, and exact floating-point equality of the 0.998 damping are left out. Heights and velocities are exact reals. No accuracy or convergence property is claimed.
- `usize` overflow of `y * width + x` and of `width * height` is left out. Grid sizes and coordinates are unbounded naturals.
- Heightfield.Acceleration: requires `width >= 1 && height >= 1`, because `height - 1` and `width - 1` would underflow in the source on an empty grid. `step` never calls it on such a grid: its loops do not run, and `Step` needs no such precondition.
- Heightfield.Heightfield.Step: takes `dt` as a real number of seconds that is at least zero. The conversion from `Duration` is not modelled.
- Heightfield.Heightfield.Step: the source's single `step` body is split into two methods, one per loop, which `Step` calls in order. No third pass is added and the loops keep their order.
