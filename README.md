# Feathered-mask compositor of libpag, in Dafny

This project models `pag::FeatherMask` (`src/rendering/graphics/FeatherMask.cpp`).
The class is a graphic that merges the masks of a layer, sampled at one frame, into a single
blurred alpha texture. It covers:

- **Bounds measurement.** The graphic's bounds are measured once, at construction.
  They are a rectangle anchored at the origin. Its far corner is the larger of 0 and the
  largest right edge, and the larger of 0 and the largest bottom edge, of the mask paths, each
  multiplied by `1 + BLUR_EXPEND`.
- **The compositor** (`DrawFeatherMask`). It allocates an accumulation surface of
  `ceil(bounds.right * s)` by `ceil(bounds.bottom * s)` pixels. It sets up one Gaussian-blur
  filter (blurriness 70, all dimensions, no edge repetition). Then it draws one blur pass per
  *processed* mask, in list order. A mask is processed when its path exists at the frame, is
  closed and its mode is not `None`. The result is a snapshot: the texture plus the inverse
  of `MakeScale(s)` as its drawing matrix.
- **The graphic's own operations**: `MakeFrom`, `measureBounds`, `hitTest`, `getPath`, `draw`
  and `makeSnapshot`.

The project has four modules:

- `Wrappers`: the `Option` type.
- `Geometry`: `Rect`, an abstract `Path`, affine `Matrix` with `Invert`, and `Ceil`.
- `Masks`: `MaskData`, `MaskMode` and `Frame`.
- `FeatherMask`: everything else.

The GPU backend is abstract. A texture is recorded as its size and the ordered list of
`BlurPass`es drawn onto it. The outcomes of the backend's fallible steps are an `Allocation`
input: the accumulation surface, the filter initialisation and the final texture.
`ExpandPath` is a function parameter `expandPath`. The value of `BLUR_EXPEND` is a parameter
`blurExpend`; its definition is in a header that is not part of this model.

Three behaviours of the code deserve a note:

1. **The first-mask flag is never cleared.** `isFirst` is set to true and never reset
   (`FeatherMask.cpp:77`, `111-115`). So *every* processed `Subtract` mask has its inversion
   flipped, not only the first one. `PassFor` models this, and `EverySubtractMaskIsFlipped`
   states it.
2. **Bounds measurement needs a path at the frame for every mask.** `MeasureFeatherMaskBounds`
   dereferences each mask's path without a null check (`FeatherMask.cpp:42`). This is the
   precondition `PathsPresent` of `MakeFrom` and the bounds members. The measurement also
   ignores the mask expansion (`BoundsIgnoreExpansion`). The compositor, by contrast, skips
   absent paths.
3. **The surface is used before its null check.** `DrawFeatherMask` calls `getCanvas` and
   `setMatrix` on the surface before it tests the surface for null (`FeatherMask.cpp:82-87`).
   Here the model departs from the code: it returns `None` on a failed allocation (see
   "Left out").

Each mask is rasterised and blurred at unit scale. The mask canvas matrix is only a
translation, and the filter is given scale 1 for both its source and its update
(`FeatherMask.cpp:124-130`). Only the surface sizes and the snapshot matrix depend on the scale
factor. `BlurPass` records both matrices and both filter scales. `PassesDrawnAtUnitScale`
states that the compositor's passes at two scale factors differ only in their surface size.

## Model

| member | source | states |
|---|---|---|
| FeatherMask.MakeFrom | src/rendering/graphics/FeatherMask.cpp:30-36 | no graphic iff the mask list is empty; otherwise the graphic keeps the asset ID, masks and frame, and its bounds are the measured mask bounds |
| FeatherMask.MeasureFeatherMaskBounds | src/rendering/graphics/FeatherMask.cpp:38-52 | the loop's running maxima of right and bottom edges, inflated by `1 + blurExpend`, equal `MaskBounds` |
| FeatherMask.RunningMaxIsMaximum | src/rendering/graphics/FeatherMask.cpp:39-50 | the strictly-greater running maximum from 0 is non-negative, at least every value, and either 0 or one of the values |
| FeatherMask.MaxEdgeIsMaximum | src/rendering/graphics/FeatherMask.cpp:41-50 | the bounds' right (bottom) maximum is the maximum of 0 and every mask path's right (bottom) edge, attained by some mask when non-zero |
| FeatherMask.BoundsCoverMask | src/rendering/graphics/FeatherMask.cpp:38-52 | with `1 + blurExpend >= 0`, every mask's right and bottom edge, inflated by the same factor, lies within the bounds |
| FeatherMask.MaxEdgeMonotone | src/rendering/graphics/FeatherMask.cpp:41-50 | a mask list holding every path of another has right and bottom maxima at least as large |
| FeatherMask.AddingMasksNeverShrinksBounds | src/rendering/graphics/FeatherMask.cpp:38-52 | with `1 + blurExpend >= 0`, adding masks (in any order) never shrinks the bounds' right or bottom edge |
| FeatherMask.BoundsIgnoreExpansion | src/rendering/graphics/FeatherMask.cpp:41-43 | masks with the same paths have the same bounds whatever their expansion, mode or inversion |
| FeatherMask.MeasureBoundsIsConstructionBounds | src/rendering/graphics/FeatherMask.cpp:54-61 | `measureBounds` returns the bounds measured at construction: origin-anchored, with non-negative extent when `1 + blurExpend >= 0` |
| FeatherMask.FeatherMask.HitTest | src/rendering/graphics/FeatherMask.cpp:63-65 | every point hits |
| FeatherMask.FeatherMask.GetPath | src/rendering/graphics/FeatherMask.cpp:67-69 | no path is ever provided |
| FeatherMask.DrawFeatherMask | src/rendering/graphics/FeatherMask.cpp:74-147 | fails iff the surface, the filter initialisation or the texture fails; otherwise the texture is `ceil(right*s)` by `ceil(bottom*s)`, holds exactly the passes of the processed masks in order, and carries `DrawingMatrix(s)` |
| FeatherMask.PassesStep | src/rendering/graphics/FeatherMask.cpp:102-133 | one loop iteration appends exactly one pass for a processed mask and none otherwise |
| FeatherMask.PassesAppend | src/rendering/graphics/FeatherMask.cpp:102-133 | the passes of concatenated mask lists are the concatenation of their passes |
| FeatherMask.SkippedMaskDrawsNothing | src/rendering/graphics/FeatherMask.cpp:103-106 | a mask with an absent or open path, or mode None, contributes nothing and leaves the other passes as they were |
| FeatherMask.PassOfProcessedMask | src/rendering/graphics/FeatherMask.cpp:102-133 | a processed mask's pass sits right after the passes of the masks before it |
| FeatherMask.PassComesFromProcessedMask | src/rendering/graphics/FeatherMask.cpp:102-133 | every pass comes from a processed mask preceded by exactly that many passes (the converse of the row above) |
| FeatherMask.NoPassesIffAllSkipped | src/rendering/graphics/FeatherMask.cpp:102-106 | nothing is drawn iff every mask is skipped |
| FeatherMask.InversionRule | src/rendering/graphics/FeatherMask.cpp:107-119 | a pass is inverted iff the mask's flag differs from "mode is Subtract"; the fill type is toggled exactly then; outline and bounds are the expanded path's |
| FeatherMask.LoneMaskFill | src/rendering/graphics/FeatherMask.cpp:110-118 | a lone non-inverted Subtract mask is drawn with the complement fill, a lone Add mask is not |
| FeatherMask.EverySubtractMaskIsFlipped | src/rendering/graphics/FeatherMask.cpp:77-118 | a non-inverted Subtract mask after another processed mask is drawn inverted too |
| FeatherMask.PassesWellFormed | src/rendering/graphics/FeatherMask.cpp:119-131 | at most one pass per mask; each pass's surface is `ceil(w*s)` by `ceil(h*s)` of the drawn path's bounds; the path is drawn translated to its own origin; the filter reads and updates at scale 1; the pass lands at the path's offset on the feather bounds; it uses the one blur preset |
| FeatherMask.PassesDrawnAtUnitScale | src/rendering/graphics/FeatherMask.cpp:119-131 | at any two scale factors the compositor draws the same number of passes, and matching passes differ only in their mask-surface size |
| FeatherMask.DrawingMatrix | src/rendering/graphics/FeatherMask.cpp:139-142 | for a non-zero scale, the reciprocal scale, a two-sided inverse of `MakeScale(s)`; for zero, the identity left in place |
| FeatherMask.ScaleInversion | src/rendering/graphics/FeatherMask.cpp:139-142 | `MakeScale(s)` inverts iff `s != 0`, to `MakeScale(1/s)` |
| Geometry.Invert | src/rendering/graphics/FeatherMask.cpp:141-142 | the inverse exists iff the determinant is non-zero, and it is a two-sided inverse |
| Geometry.Ceil | src/rendering/graphics/FeatherMask.cpp:79-80 | the least integer not below its argument |
| FeatherMask.FeatherMask.Draw | src/rendering/graphics/FeatherMask.cpp:149-156 | draws the cached snapshot's texture on a hit, otherwise the texture of a fresh render at scale 1 |
| FeatherMask.FeatherMask.MakeSnapshot | src/rendering/graphics/FeatherMask.cpp:158-163 | no snapshot iff the mask list is empty or a backend step fails; otherwise the compositor's snapshot at the given scale |

## Left out

- GPU work (surfaces, canvases, textures, the Gaussian-blur shaders) is not modelled. A texture is its size and the ordered list of blur passes drawn onto it; the pixels the blur produces are not modelled.
- `ExpandPath` is a parameter; `PathUtil` is not part of this model. The compositor is proved for every expansion function.
- Paths are abstract: only their bounds, the closed flag and the inverse-fill flag are modelled. `ToPath` conversion is the identity on that abstraction.
- Single-precision float arithmetic is modelled with reals, so rounding is not captured. The 32-bit overflow of the `int` casts of `ceilf` is not modelled either.
- Matrix perspective entries and the backend's tolerance for a nearly singular determinant are not modelled; `Invert` fails only on an exact zero determinant.
- The value of `BLUR_EXPEND` is not modelled. It is defined in a header that is not part of this model, so it is a parameter `blurExpend`. The bounds monotonicity and covering lemmas require `1 + blurExpend >= 0`.
- DrawFeatherMask: a failed accumulation-surface allocation is modelled as returning `None`. The source first calls `getCanvas` and `setMatrix` on the null surface (`FeatherMask.cpp:82-85`), which has no defined behaviour to model.
- Each per-mask surface is assumed to allocate, because the source draws on it without a null check (`FeatherMask.cpp:122-126`).
- Memory management (the `delete`s, `release`), the commented-out `Trace` calls, and the empty `prepare` are not modelled.
- The render cache is a read-only map from asset ID to snapshot. Cache insertion happens outside this file.
- Draw: requires a cache hit or a successful render. On a cache miss with a failed render, the source dereferences a null snapshot (`FeatherMask.cpp:152-155`), which has no defined behaviour to model.
- MakeFrom: requires a path at the frame for every mask, because the bounds measurement dereferences each path unchecked.
- The JNI and web bindings and the rest of the renderer (layer caches, other graphics) are not part of this model.
