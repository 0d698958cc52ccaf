/**
 * The feathered-mask compositor (pag::FeatherMask): a graphic that turns the
 * masks of a layer, sampled at one frame, into a single blurred alpha
 * snapshot. The GPU backend is abstract: surfaces and textures are recorded
 * as the blur passes drawn onto them, and allocation outcomes are inputs.
 */
module FeatherMask {
  import opened Wrappers
  import opened Geometry
  import opened Masks

  /** The asset identity that keys the render cache. */
  type ID = int

  // ---------------------------------------------------------------------------
  // Bounds measurement
  // ---------------------------------------------------------------------------

  /** Every mask has a path at `layerFrame`: the bounds measurement dereferences it without a check. */
  predicate PathsPresent(masks: seq<MaskData>, layerFrame: Frame)
  {
    forall i :: 0 <= i < |masks| ==> masks[i].maskPath(layerFrame).Some?
  }

  /** The two far edges the bounds measurement tracks. */
  datatype Side = Right | Bottom

  /** The edge of a path's bounds on `side`. */
  function EdgeOf(path: Path, side: Side): real
  {
    match side
    case Right => path.bounds.right
    case Bottom => path.bounds.bottom
  }

  /** The edge on `side` of each mask's path at `layerFrame`, in mask-list order. */
  function Edges(masks: seq<MaskData>, layerFrame: Frame, side: Side): (edges: seq<real>)
    requires PathsPresent(masks, layerFrame)
    ensures |edges| == |masks|
  {
    seq(|masks|, i requires 0 <= i < |masks| => EdgeOf(masks[i].maskPath(layerFrame).value, side))
  }

  /**
   * The running maximum the bounds loop keeps: it starts at 0 and is replaced
   * by an edge only when the edge is strictly greater.
   */
  function RunningMax(xs: seq<real>): real
  {
    if xs == [] then 0.0
    else
      var m := RunningMax(xs[..|xs| - 1]);
      if xs[|xs| - 1] > m then xs[|xs| - 1] else m
  }

  /** The largest edge on `side` over all masks, or 0 when none is positive. */
  function MaxEdge(masks: seq<MaskData>, layerFrame: Frame, side: Side): real
    requires PathsPresent(masks, layerFrame)
  {
    RunningMax(Edges(masks, layerFrame, side))
  }

  /**
   * The rectangle MeasureFeatherMaskBounds returns: anchored at the origin, its
   * far corner the largest edges inflated by `blurExpend` (the BLUR_EXPEND margin).
   */
  function MaskBounds(masks: seq<MaskData>, layerFrame: Frame, blurExpend: real): Rect
    requires PathsPresent(masks, layerFrame)
  {
    Rect(0.0, 0.0,
         MaxEdge(masks, layerFrame, Right) * (1.0 + blurExpend),
         MaxEdge(masks, layerFrame, Bottom) * (1.0 + blurExpend))
  }

  /** The bounds loop: a running maximum of right and bottom edges, inflated at the end. */
  method MeasureFeatherMaskBounds(masks: seq<MaskData>, layerFrame: Frame, blurExpend: real)
    returns (bounds: Rect)
    requires PathsPresent(masks, layerFrame)
    ensures bounds == MaskBounds(masks, layerFrame, blurExpend)
  {
    var maxRight := 0.0;
    var maxBottom := 0.0;
    for i := 0 to |masks|
      invariant maxRight == RunningMax(Edges(masks, layerFrame, Right)[..i])
      invariant maxBottom == RunningMax(Edges(masks, layerFrame, Bottom)[..i])
    {
      var maskBounds := masks[i].maskPath(layerFrame).value.bounds;
      assert Edges(masks, layerFrame, Right)[..i + 1][..i] == Edges(masks, layerFrame, Right)[..i];
      assert Edges(masks, layerFrame, Bottom)[..i + 1][..i] == Edges(masks, layerFrame, Bottom)[..i];
      if maskBounds.right > maxRight {
        maxRight := maskBounds.right;
      }
      if maskBounds.bottom > maxBottom {
        maxBottom := maskBounds.bottom;
      }
    }
    assert Edges(masks, layerFrame, Right)[..|masks|] == Edges(masks, layerFrame, Right);
    assert Edges(masks, layerFrame, Bottom)[..|masks|] == Edges(masks, layerFrame, Bottom);
    bounds := Rect(0.0, 0.0, maxRight * (1.0 + blurExpend), maxBottom * (1.0 + blurExpend));
  }

  /** The running maximum is the maximum of 0 and all the values. */
  lemma {:induction false} RunningMaxIsMaximum(xs: seq<real>)
    ensures 0.0 <= RunningMax(xs)
    ensures forall i :: 0 <= i < |xs| ==> xs[i] <= RunningMax(xs)
    ensures RunningMax(xs) == 0.0 || exists i :: 0 <= i < |xs| && xs[i] == RunningMax(xs)
  {
    if xs != [] {
      var init := xs[..|xs| - 1];
      RunningMaxIsMaximum(init);
      assert forall i :: 0 <= i < |init| ==> xs[i] == init[i];
      if RunningMax(init) != 0.0 && xs[|xs| - 1] <= RunningMax(init) {
        var j :| 0 <= j < |init| && init[j] == RunningMax(init);
        assert xs[j] == RunningMax(xs);
      }
    }
  }

  /**
   * MaxEdge is the maximum of 0 and every mask's edge on `side`: no edge
   * exceeds it, and it is 0 or some mask's edge.
   */
  lemma MaxEdgeIsMaximum(masks: seq<MaskData>, layerFrame: Frame, side: Side)
    requires PathsPresent(masks, layerFrame)
    ensures 0.0 <= MaxEdge(masks, layerFrame, side)
    ensures forall i :: 0 <= i < |masks| ==> EdgeOf(masks[i].maskPath(layerFrame).value, side) <= MaxEdge(masks, layerFrame, side)
    ensures MaxEdge(masks, layerFrame, side) == 0.0 ||
            exists i :: 0 <= i < |masks| && EdgeOf(masks[i].maskPath(layerFrame).value, side) == MaxEdge(masks, layerFrame, side)
  {
    var edges := Edges(masks, layerFrame, side);
    RunningMaxIsMaximum(edges);
    forall i | 0 <= i < |masks|
      ensures EdgeOf(masks[i].maskPath(layerFrame).value, side) <= MaxEdge(masks, layerFrame, side)
    {
      assert edges[i] == EdgeOf(masks[i].maskPath(layerFrame).value, side);
    }
    if RunningMax(edges) != 0.0 {
      var j :| 0 <= j < |edges| && edges[j] == RunningMax(edges);
      assert edges[j] == EdgeOf(masks[j].maskPath(layerFrame).value, side);
    }
  }

  /** Multiplying by a non-negative factor keeps an inequality. */
  lemma ScaleMonotone(x: real, y: real, c: real)
    requires x <= y && c >= 0.0
    ensures x * c <= y * c
  {
  }

  /** Every path of `masks` at `layerFrame` is also the path of some mask in `more`. */
  predicate PathsContained(masks: seq<MaskData>, more: seq<MaskData>, layerFrame: Frame)
  {
    forall i :: 0 <= i < |masks| ==>
      exists j :: 0 <= j < |more| && more[j].maskPath(layerFrame) == masks[i].maskPath(layerFrame)
  }

  /** The largest edge of a list that holds every path of another is at least as large. */
  lemma MaxEdgeMonotone(masks: seq<MaskData>, more: seq<MaskData>, layerFrame: Frame, side: Side)
    requires PathsPresent(masks, layerFrame) && PathsPresent(more, layerFrame)
    requires PathsContained(masks, more, layerFrame)
    ensures MaxEdge(masks, layerFrame, side) <= MaxEdge(more, layerFrame, side)
  {
    MaxEdgeIsMaximum(masks, layerFrame, side);
    MaxEdgeIsMaximum(more, layerFrame, side);
    if MaxEdge(masks, layerFrame, side) != 0.0 {
      var i :| 0 <= i < |masks| && EdgeOf(masks[i].maskPath(layerFrame).value, side) == MaxEdge(masks, layerFrame, side);
      var j :| 0 <= j < |more| && more[j].maskPath(layerFrame) == masks[i].maskPath(layerFrame);
    }
  }

  /**
   * Adding masks never shrinks the bounds (with a non-negative inflation
   * factor): a list that holds every path of another, in any order and with
   * any masks added, has bounds at least as large.
   */
  lemma AddingMasksNeverShrinksBounds(masks: seq<MaskData>, more: seq<MaskData>, layerFrame: Frame, blurExpend: real)
    requires PathsPresent(masks, layerFrame) && PathsPresent(more, layerFrame)
    requires PathsContained(masks, more, layerFrame)
    requires 1.0 + blurExpend >= 0.0
    ensures MaskBounds(masks, layerFrame, blurExpend).right <= MaskBounds(more, layerFrame, blurExpend).right
    ensures MaskBounds(masks, layerFrame, blurExpend).bottom <= MaskBounds(more, layerFrame, blurExpend).bottom
  {
    MaxEdgeMonotone(masks, more, layerFrame, Right);
    MaxEdgeMonotone(masks, more, layerFrame, Bottom);
    ScaleMonotone(MaxEdge(masks, layerFrame, Right), MaxEdge(more, layerFrame, Right), 1.0 + blurExpend);
    ScaleMonotone(MaxEdge(masks, layerFrame, Bottom), MaxEdge(more, layerFrame, Bottom), 1.0 + blurExpend);
  }

  /**
   * With a non-negative inflation factor, the bounds reach past every mask's
   * right and bottom edge, each inflated by the same factor.
   */
  lemma BoundsCoverMask(masks: seq<MaskData>, i: nat, layerFrame: Frame, blurExpend: real)
    requires PathsPresent(masks, layerFrame) && i < |masks|
    requires 1.0 + blurExpend >= 0.0
    ensures var edges := masks[i].maskPath(layerFrame).value.bounds;
      && edges.right * (1.0 + blurExpend) <= MaskBounds(masks, layerFrame, blurExpend).right
      && edges.bottom * (1.0 + blurExpend) <= MaskBounds(masks, layerFrame, blurExpend).bottom
  {
    MaxEdgeIsMaximum(masks, layerFrame, Right);
    MaxEdgeIsMaximum(masks, layerFrame, Bottom);
    var path := masks[i].maskPath(layerFrame).value;
    ScaleMonotone(EdgeOf(path, Right), MaxEdge(masks, layerFrame, Right), 1.0 + blurExpend);
    ScaleMonotone(EdgeOf(path, Bottom), MaxEdge(masks, layerFrame, Bottom), 1.0 + blurExpend);
  }

  /** The bounds depend on the paths alone: a mask's expansion is not taken into account. */
  lemma BoundsIgnoreExpansion(masks: seq<MaskData>, others: seq<MaskData>, layerFrame: Frame, blurExpend: real)
    requires PathsPresent(masks, layerFrame)
    requires |others| == |masks|
    requires forall i :: 0 <= i < |masks| ==> others[i].maskPath(layerFrame) == masks[i].maskPath(layerFrame)
    ensures PathsPresent(others, layerFrame)
    ensures MaskBounds(others, layerFrame, blurExpend) == MaskBounds(masks, layerFrame, blurExpend)
  {
    assert PathsPresent(others, layerFrame);
    assert Edges(others, layerFrame, Right) == Edges(masks, layerFrame, Right);
    assert Edges(others, layerFrame, Bottom) == Edges(masks, layerFrame, Bottom);
  }

  // ---------------------------------------------------------------------------
  // Compositing
  // ---------------------------------------------------------------------------

  datatype BlurDimensions = All | Horizontal | Vertical

  /** The fast-blur effect settings the compositor configures its filter with. */
  datatype BlurSettings = BlurSettings(blurriness: real, repeatEdgePixels: bool, dimensions: BlurDimensions)

  /** One preset for every mask of every invocation. */
  const FeatherBlur := BlurSettings(70.0, false, All)

  /** Which of the backend's fallible steps succeed in one invocation. */
  datatype Allocation = Allocation(surfaceOk: bool, filterInitOk: bool, textureOk: bool)
  {
    predicate AllOk() { surfaceOk && filterInitOk && textureOk }
  }

  /**
   * One blur pass of the filter: a mask rasterised into a surface of its own
   * and blurred onto the shared accumulation surface.
   */
  datatype BlurPass = BlurPass(
    path: Path,            // the expanded path as drawn, fill inverted when `inverted`
    inverted: bool,        // the effective inversion
    maskBounds: Rect,      // the drawn path's bounds: the filter's source bounds
    width: int,            // mask surface size in pixels
    height: int,
    maskMatrix: Matrix,    // the mask canvas's matrix: the path is drawn at its own origin
    sourceScale: (real, real),  // the scale the filter reads the mask texture at
    filterScale: (real, real),  // the scale the filter is updated with
    targetOffset: Matrix,  // where the blurred mask lands on the accumulation surface
    targetBounds: Rect,    // the filter's target bounds: the whole feather bounds
    blur: BlurSettings)

  /** The accumulation surface's texture: its size and the passes drawn onto it, in order. */
  datatype Texture = Texture(width: int, height: int, passes: seq<BlurPass>)

  /** A texture with the matrix that maps unit-scale local drawing onto it. */
  datatype Snapshot = Snapshot(texture: Texture, matrix: Matrix)

  /** A mask is drawn iff its path at `layerFrame` exists, is closed and its mode is not None. */
  predicate Processed(mask: MaskData, layerFrame: Frame)
  {
    var path := mask.maskPath(layerFrame);
    path.Some? && path.value.closed && mask.maskMode != MaskMode.None
  }

  /**
   * The pass a processed mask produces. The subtract flip is applied to every
   * processed Subtract mask, because the loop's first-mask flag is never cleared.
   */
  function PassFor(mask: MaskData, layerFrame: Frame, bounds: Rect, scaleFactor: real,
                   expandPath: (Path, real) -> Path): BlurPass
    requires Processed(mask, layerFrame)
  {
    var expanded := expandPath(mask.maskPath(layerFrame).value, mask.maskExpansion(layerFrame));
    var inverted := mask.inverted != (mask.maskMode == MaskMode.Subtract);
    var drawn := if inverted then ToggleInverseFillType(expanded) else expanded;
    var mb := drawn.bounds;
    BlurPass(drawn, inverted, mb, Ceil(mb.Width() * scaleFactor), Ceil(mb.Height() * scaleFactor),
             MakeTrans(-mb.X(), -mb.Y()), (1.0, 1.0), (1.0, 1.0), MakeTrans(mb.X(), mb.Y()), bounds, FeatherBlur)
  }

  /** The passes the compositor loop draws over `masks`, in list order. */
  function Passes(masks: seq<MaskData>, layerFrame: Frame, bounds: Rect, scaleFactor: real,
                  expandPath: (Path, real) -> Path): seq<BlurPass>
  {
    if masks == [] then []
    else
      var last := masks[|masks| - 1];
      Passes(masks[..|masks| - 1], layerFrame, bounds, scaleFactor, expandPath)
      + (if Processed(last, layerFrame) then [PassFor(last, layerFrame, bounds, scaleFactor, expandPath)] else [])
  }

  /** What a successful invocation returns. */
  function Rendered(bounds: Rect, masks: seq<MaskData>, layerFrame: Frame, scaleFactor: real,
                    expandPath: (Path, real) -> Path): Snapshot
  {
    Snapshot(Texture(Ceil(bounds.right * scaleFactor), Ceil(bounds.bottom * scaleFactor),
                     Passes(masks, layerFrame, bounds, scaleFactor, expandPath)),
             DrawingMatrix(scaleFactor))
  }

  /**
   * The snapshot's matrix: the inverse of MakeScale(scaleFactor), or the
   * identity when the scale is singular and the inversion fails.
   */
  function DrawingMatrix(scaleFactor: real): (m: Matrix)
    ensures scaleFactor != 0.0 ==> m == MakeScale(1.0 / scaleFactor)
    ensures scaleFactor != 0.0 ==> Concat(m, MakeScale(scaleFactor)) == Identity()
    ensures scaleFactor != 0.0 ==> Concat(MakeScale(scaleFactor), m) == Identity()
    ensures scaleFactor == 0.0 ==> m == Identity()
  {
    ScaleInversion(scaleFactor);
    match Invert(MakeScale(scaleFactor))
    case Some(inverse) => inverse
    case None => Identity()
  }

  /** A uniform scale inverts exactly when it is not zero, and its inverse is the reciprocal scale. */
  lemma ScaleInversion(s: real)
    ensures s == 0.0 ==> Invert(MakeScale(s)).None?
    ensures s != 0.0 ==> Invert(MakeScale(s)) == Some(MakeScale(1.0 / s))
  {
    if s != 0.0 {
      var det := s * s - 0.0 * 0.0;
      assert Determinant(MakeScale(s)) == det;
      var k := 1.0 / det;
      assert det * k == 1.0;
      assert s * (s * k) == 1.0;
      assert s * k == 1.0 / s;
      var m := MakeScale(s);
      assert Invert(m).Some?;
      assert Invert(m).value.scaleX == m.scaleY * k;
      assert Invert(m).value.skewX == 0.0;
      assert Invert(m).value.transX == 0.0;
      assert Invert(m).value.skewY == 0.0;
      assert Invert(m).value.scaleY == m.scaleX * k;
      assert Invert(m).value.transY == 0.0;
      assert Invert(m).value == MakeScale(1.0 / s);
    }
  }

  /**
   * The compositor. It fails (returns None) when the accumulation surface
   * cannot be allocated, the blur filter does not initialise, or the surface
   * yields no texture; otherwise it returns one blur pass per processed mask.
   */
  method DrawFeatherMask(bounds: Rect, masks: seq<MaskData>, layerFrame: Frame, scaleFactor: real,
                         alloc: Allocation, expandPath: (Path, real) -> Path)
    returns (snapshot: Option<Snapshot>)
    ensures snapshot.None? <==> !alloc.AllOk()
    ensures snapshot.Some? ==> snapshot.value == Rendered(bounds, masks, layerFrame, scaleFactor, expandPath)
  {
    var isFirst := true;
    var width := Ceil(bounds.right * scaleFactor);
    var height := Ceil(bounds.bottom * scaleFactor);
    // The source takes the new surface's canvas and sets its matrix to
    // MakeTrans(bounds.x(), bounds.y()) before it checks the surface for null;
    // here the failed allocation returns first.
    if !alloc.surfaceOk {
      return Option.None;
    }
    if !alloc.filterInitOk {
      return Option.None;
    }
    var passes: seq<BlurPass> := [];
    for i := 0 to |masks|
      invariant passes == Passes(masks[..i], layerFrame, bounds, scaleFactor, expandPath)
    {
      PassesStep(masks, i, layerFrame, bounds, scaleFactor, expandPath);
      var mask := masks[i];
      var path := mask.maskPath(layerFrame);
      if path.None? || !path.value.closed || mask.maskMode == MaskMode.None {
        continue;
      }
      var maskPath := expandPath(path.value, mask.maskExpansion(layerFrame));
      var inverted := mask.inverted;
      if isFirst {
        if mask.maskMode == MaskMode.Subtract {
          inverted := !inverted;
        }
      }
      if inverted {
        maskPath := ToggleInverseFillType(maskPath);
      }
      var maskBounds := maskPath.bounds;
      var maskWidth := Ceil(maskBounds.Width() * scaleFactor);
      var maskHeight := Ceil(maskBounds.Height() * scaleFactor);
      var maskMatrix := MakeTrans(-maskBounds.X(), -maskBounds.Y());
      var pass := BlurPass(maskPath, inverted, maskBounds, maskWidth, maskHeight, maskMatrix,
                           (1.0, 1.0), (1.0, 1.0), MakeTrans(maskBounds.X(), maskBounds.Y()), bounds, FeatherBlur);
      assert pass == PassFor(mask, layerFrame, bounds, scaleFactor, expandPath);
      passes := passes + [pass];
    }
    assert masks[..|masks|] == masks;
    if !alloc.textureOk {
      return Option.None;
    }
    var drawingMatrix := Identity();
    var inverse := Invert(MakeScale(scaleFactor));
    if inverse.Some? {
      drawingMatrix := inverse.value;
    }
    assert drawingMatrix == DrawingMatrix(scaleFactor);
    return Some(Snapshot(Texture(width, height, passes), drawingMatrix));
  }

  /** One step of the compositor loop: the passes of a prefix one mask longer. */
  lemma PassesStep(masks: seq<MaskData>, i: nat, layerFrame: Frame, bounds: Rect,
                   scaleFactor: real, expandPath: (Path, real) -> Path)
    requires i < |masks|
    ensures Passes(masks[..i + 1], layerFrame, bounds, scaleFactor, expandPath)
         == Passes(masks[..i], layerFrame, bounds, scaleFactor, expandPath)
            + (if Processed(masks[i], layerFrame) then [PassFor(masks[i], layerFrame, bounds, scaleFactor, expandPath)] else [])
  {
    assert masks[..i + 1][..i] == masks[..i];
  }

  /** The passes of a concatenation are the passes of each part, in order. */
  lemma {:induction false} PassesAppend(a: seq<MaskData>, b: seq<MaskData>, layerFrame: Frame, bounds: Rect,
                                        scaleFactor: real, expandPath: (Path, real) -> Path)
    ensures Passes(a + b, layerFrame, bounds, scaleFactor, expandPath)
         == Passes(a, layerFrame, bounds, scaleFactor, expandPath) + Passes(b, layerFrame, bounds, scaleFactor, expandPath)
    decreases |b|
  {
    if b == [] {
      assert a + b == a;
    } else {
      var init := b[..|b| - 1];
      assert (a + b)[..|a + b| - 1] == a + init;
      PassesAppend(a, init, layerFrame, bounds, scaleFactor, expandPath);
    }
  }

  /** A skipped mask leaves the passes of the others exactly as they were. */
  lemma SkippedMaskDrawsNothing(before: seq<MaskData>, mask: MaskData, after: seq<MaskData>, layerFrame: Frame,
                                bounds: Rect, scaleFactor: real, expandPath: (Path, real) -> Path)
    requires !Processed(mask, layerFrame)
    ensures Passes(before + [mask] + after, layerFrame, bounds, scaleFactor, expandPath)
         == Passes(before + after, layerFrame, bounds, scaleFactor, expandPath)
  {
    PassesAppend(before + [mask], after, layerFrame, bounds, scaleFactor, expandPath);
    PassesAppend(before, [mask], layerFrame, bounds, scaleFactor, expandPath);
    PassesAppend(before, after, layerFrame, bounds, scaleFactor, expandPath);
    assert Passes([mask], layerFrame, bounds, scaleFactor, expandPath) == [] by {
      assert [mask][..0] == [];
    }
  }

  /**
   * A processed mask's pass comes right after the passes of all the masks
   * before it in the list.
   */
  lemma PassOfProcessedMask(masks: seq<MaskData>, i: nat, layerFrame: Frame, bounds: Rect,
                            scaleFactor: real, expandPath: (Path, real) -> Path)
    requires i < |masks| && Processed(masks[i], layerFrame)
    ensures var k := |Passes(masks[..i], layerFrame, bounds, scaleFactor, expandPath)|;
      k < |Passes(masks, layerFrame, bounds, scaleFactor, expandPath)| &&
      Passes(masks, layerFrame, bounds, scaleFactor, expandPath)[k]
        == PassFor(masks[i], layerFrame, bounds, scaleFactor, expandPath)
  {
    assert masks == masks[..i] + [masks[i]] + masks[i + 1..];
    PassesAppend(masks[..i] + [masks[i]], masks[i + 1..], layerFrame, bounds, scaleFactor, expandPath);
    PassesAppend(masks[..i], [masks[i]], layerFrame, bounds, scaleFactor, expandPath);
    assert [masks[i]][..0] == [];
  }

  /**
   * Every pass comes from a processed mask, and the k-th pass from the mask
   * preceded by exactly k passes: together with PassOfProcessedMask, passes
   * and processed masks correspond one to one, in list order.
   */
  lemma {:induction false} PassComesFromProcessedMask(masks: seq<MaskData>, k: nat, layerFrame: Frame, bounds: Rect,
                                                      scaleFactor: real, expandPath: (Path, real) -> Path)
    returns (i: nat)
    requires k < |Passes(masks, layerFrame, bounds, scaleFactor, expandPath)|
    ensures i < |masks| && Processed(masks[i], layerFrame)
    ensures |Passes(masks[..i], layerFrame, bounds, scaleFactor, expandPath)| == k
    ensures Passes(masks, layerFrame, bounds, scaleFactor, expandPath)[k]
         == PassFor(masks[i], layerFrame, bounds, scaleFactor, expandPath)
  {
    var n := |masks| - 1;
    var init := masks[..n];
    var before := Passes(init, layerFrame, bounds, scaleFactor, expandPath);
    if k < |before| {
      i := PassComesFromProcessedMask(init, k, layerFrame, bounds, scaleFactor, expandPath);
      assert masks[..i] == init[..i];
    } else {
      i := n;
      assert masks[..n] == init;
    }
  }

  /** No pass is drawn exactly when every mask is skipped: the accumulation surface stays blank. */
  lemma {:induction false} NoPassesIffAllSkipped(masks: seq<MaskData>, layerFrame: Frame, bounds: Rect,
                                                scaleFactor: real, expandPath: (Path, real) -> Path)
    ensures Passes(masks, layerFrame, bounds, scaleFactor, expandPath) == []
        <==> forall i :: 0 <= i < |masks| ==> !Processed(masks[i], layerFrame)
  {
    if Passes(masks, layerFrame, bounds, scaleFactor, expandPath) != [] {
      var i := PassComesFromProcessedMask(masks, 0, layerFrame, bounds, scaleFactor, expandPath);
    }
    forall i | 0 <= i < |masks| && Processed(masks[i], layerFrame)
      ensures Passes(masks, layerFrame, bounds, scaleFactor, expandPath) != []
    {
      PassOfProcessedMask(masks, i, layerFrame, bounds, scaleFactor, expandPath);
    }
  }

  /**
   * The inversion rule: a processed mask is drawn inverted iff its own flag
   * differs from "its mode is Subtract", and its fill type is toggled exactly
   * then; the drawn path has the expanded path's bounds.
   */
  lemma InversionRule(masks: seq<MaskData>, i: nat, layerFrame: Frame, bounds: Rect,
                      scaleFactor: real, expandPath: (Path, real) -> Path)
    requires i < |masks| && Processed(masks[i], layerFrame)
    ensures var k := |Passes(masks[..i], layerFrame, bounds, scaleFactor, expandPath)|;
      var passes := Passes(masks, layerFrame, bounds, scaleFactor, expandPath);
      var expanded := expandPath(masks[i].maskPath(layerFrame).value, masks[i].maskExpansion(layerFrame));
      k < |passes| &&
      var pass := passes[k];
      && pass.inverted == (masks[i].inverted != (masks[i].maskMode == MaskMode.Subtract))
      && pass.path.inverseFill == (expanded.inverseFill != pass.inverted)
      && pass.path.bounds == expanded.bounds
      && pass.path.closed == expanded.closed
  {
    PassOfProcessedMask(masks, i, layerFrame, bounds, scaleFactor, expandPath);
  }

  /**
   * A pass blurs its drawn path's bounds with the one preset, from a surface of
   * ceil(width * s) by ceil(height * s) pixels, onto the feather bounds at the
   * path's offset; the path is drawn and blurred at unit scale.
   */
  predicate WellFormedPass(pass: BlurPass, bounds: Rect, scaleFactor: real)
  {
    && pass.maskBounds == pass.path.bounds
    && pass.width == Ceil(pass.maskBounds.Width() * scaleFactor)
    && pass.height == Ceil(pass.maskBounds.Height() * scaleFactor)
    && pass.maskMatrix == MakeTrans(-pass.maskBounds.left, -pass.maskBounds.top)
    && pass.sourceScale == (1.0, 1.0) && pass.filterScale == (1.0, 1.0)
    && pass.targetOffset == MakeTrans(pass.maskBounds.left, pass.maskBounds.top)
    && pass.targetBounds == bounds
    && pass.blur == FeatherBlur
  }

  /** Every pass the compositor draws is well formed, and there are no more passes than masks. */
  lemma {:induction false} PassesWellFormed(masks: seq<MaskData>, layerFrame: Frame, bounds: Rect,
                                            scaleFactor: real, expandPath: (Path, real) -> Path)
    ensures |Passes(masks, layerFrame, bounds, scaleFactor, expandPath)| <= |masks|
    ensures forall k :: 0 <= k < |Passes(masks, layerFrame, bounds, scaleFactor, expandPath)| ==>
              WellFormedPass(Passes(masks, layerFrame, bounds, scaleFactor, expandPath)[k], bounds, scaleFactor)
  {
    if masks != [] {
      var init, last := masks[..|masks| - 1], masks[|masks| - 1];
      PassesWellFormed(init, layerFrame, bounds, scaleFactor, expandPath);
      var passes := Passes(masks, layerFrame, bounds, scaleFactor, expandPath);
      var before := Passes(init, layerFrame, bounds, scaleFactor, expandPath);
      if Processed(last, layerFrame) {
        var pass := PassFor(last, layerFrame, bounds, scaleFactor, expandPath);
        assert passes == before + [pass];
        assert WellFormedPass(pass, bounds, scaleFactor);
      } else {
        assert passes == before;
      }
    }
  }

  /**
   * The scale factor sizes the mask surfaces and nothing else: at any two
   * scales the compositor draws the same number of passes, and matching passes
   * differ only in their surface size. Each path is rasterised, blurred and
   * placed at unit scale (PassesWellFormed) whatever `scaleFactor` is.
   */
  lemma {:induction false} PassesDrawnAtUnitScale(masks: seq<MaskData>, layerFrame: Frame, bounds: Rect,
                                                  scaleFactor: real, otherScale: real,
                                                  expandPath: (Path, real) -> Path)
    ensures var passes := Passes(masks, layerFrame, bounds, scaleFactor, expandPath);
      var others := Passes(masks, layerFrame, bounds, otherScale, expandPath);
      && |passes| == |others|
      && forall k :: 0 <= k < |passes| ==> passes[k].(width := others[k].width, height := others[k].height) == others[k]
  {
    if masks != [] {
      var init, last := masks[..|masks| - 1], masks[|masks| - 1];
      PassesDrawnAtUnitScale(init, layerFrame, bounds, scaleFactor, otherScale, expandPath);
      if Processed(last, layerFrame) {
        var passes := Passes(masks, layerFrame, bounds, scaleFactor, expandPath);
        var others := Passes(masks, layerFrame, bounds, otherScale, expandPath);
        assert passes == Passes(init, layerFrame, bounds, scaleFactor, expandPath)
                         + [PassFor(last, layerFrame, bounds, scaleFactor, expandPath)];
        assert others == Passes(init, layerFrame, bounds, otherScale, expandPath)
                         + [PassFor(last, layerFrame, bounds, otherScale, expandPath)];
      }
    }
  }

  /** A lone non-inverted Subtract mask is drawn with the complement fill; a lone Add mask is not. */
  lemma LoneMaskFill(mask: MaskData, layerFrame: Frame, bounds: Rect,
                     scaleFactor: real, expandPath: (Path, real) -> Path)
    requires Processed(mask, layerFrame) && !mask.inverted
    requires mask.maskMode == MaskMode.Subtract || mask.maskMode == MaskMode.Add
    ensures var passes := Passes([mask], layerFrame, bounds, scaleFactor, expandPath);
      |passes| == 1 && (passes[0].inverted <==> mask.maskMode == MaskMode.Subtract)
  {
  }

  /**
   * The subtract flip is not limited to the first processed mask: a second
   * non-inverted Subtract mask is drawn inverted too.
   */
  lemma EverySubtractMaskIsFlipped(first: MaskData, second: MaskData, layerFrame: Frame, bounds: Rect,
                                   scaleFactor: real, expandPath: (Path, real) -> Path)
    requires Processed(first, layerFrame) && Processed(second, layerFrame)
    requires second.maskMode == MaskMode.Subtract && !second.inverted
    ensures var passes := Passes([first, second], layerFrame, bounds, scaleFactor, expandPath);
      |passes| == 2 && passes[1].inverted
  {
    assert [first, second][..1] == [first];
    assert [first][..0] == [];
    assert Passes([first], layerFrame, bounds, scaleFactor, expandPath)
        == [PassFor(first, layerFrame, bounds, scaleFactor, expandPath)];
  }

  // ---------------------------------------------------------------------------
  // The graphic
  // ---------------------------------------------------------------------------

  /** A feathered-mask graphic for one asset at one frame; `bounds` is fixed at construction. */
  datatype FeatherMask = FeatherMask(assetID: ID, masks: seq<MaskData>, layerFrame: Frame, bounds: Rect)
  {
    /** The bounds computed at construction, returned as stored. */
    function MeasureBounds(): Rect
    {
      bounds
    }

    /** Feathered masks do not hit-test precisely: every point counts as a hit. */
    function HitTest(x: real, y: real): (hit: bool)
      ensures hit
    {
      true
    }

    /** A feathered mask is a raster, not a path: no path is ever returned. */
    function GetPath(): (found: bool)
      ensures !found
    {
      false
    }

    /** A snapshot at `scaleFactor`: absent for an empty mask list, otherwise the compositor's result. */
    method MakeSnapshot(alloc: Allocation, scaleFactor: real, expandPath: (Path, real) -> Path)
      returns (snapshot: Option<Snapshot>)
      ensures snapshot.None? <==> masks == [] || !alloc.AllOk()
      ensures snapshot.Some? ==> snapshot.value == Rendered(bounds, masks, layerFrame, scaleFactor, expandPath)
    {
      if masks == [] {
        return Option.None;
      }
      snapshot := DrawFeatherMask(bounds, masks, layerFrame, scaleFactor, alloc, expandPath);
    }

    /**
     * Draws the cached snapshot for `assetID` if there is one, otherwise a
     * fresh one rendered at scale 1; returns the texture drawn. The cache is
     * only read.
     */
    method Draw(renderCache: map<ID, Snapshot>, alloc: Allocation, expandPath: (Path, real) -> Path)
      returns (drawn: Texture)
      requires assetID in renderCache || alloc.AllOk()
      ensures assetID in renderCache ==> drawn == renderCache[assetID].texture
      ensures assetID !in renderCache ==> drawn == Rendered(bounds, masks, layerFrame, 1.0, expandPath).texture
    {
      var snapshot := if assetID in renderCache then Some(renderCache[assetID]) else Option.None;
      if snapshot.None? {
        snapshot := DrawFeatherMask(bounds, masks, layerFrame, 1.0, alloc, expandPath);
      }
      drawn := snapshot.value.texture;
    }
  }

  /**
   * Creates the graphic, computing its bounds once; an empty mask list is
   * rejected.
   */
  function MakeFrom(assetID: ID, masks: seq<MaskData>, layerFrame: Frame, blurExpend: real)
    : (graphic: Option<FeatherMask>)
    requires PathsPresent(masks, layerFrame)
    ensures graphic.None? <==> masks == []
    ensures graphic.Some? ==> graphic.value.assetID == assetID && graphic.value.masks == masks
                              && graphic.value.layerFrame == layerFrame
                              && graphic.value.bounds == MaskBounds(masks, layerFrame, blurExpend)
  {
    if masks == [] then Option.None
    else Some(FeatherMask(assetID, masks, layerFrame, MaskBounds(masks, layerFrame, blurExpend)))
  }

  /**
   * The bounds a graphic reports are those measured when it was made,
   * anchored at the origin and, with a non-negative inflation factor, with
   * non-negative extent.
   */
  lemma MeasureBoundsIsConstructionBounds(assetID: ID, masks: seq<MaskData>, layerFrame: Frame, blurExpend: real)
    requires masks != [] && PathsPresent(masks, layerFrame)
    requires 1.0 + blurExpend >= 0.0
    ensures var rect := MakeFrom(assetID, masks, layerFrame, blurExpend).value.MeasureBounds();
      && rect == MaskBounds(masks, layerFrame, blurExpend)
      && rect.left == 0.0 && rect.top == 0.0 && rect.right >= 0.0 && rect.bottom >= 0.0
  {
    MaxEdgeIsMaximum(masks, layerFrame, Right);
    MaxEdgeIsMaximum(masks, layerFrame, Bottom);
    ScaleMonotone(0.0, MaxEdge(masks, layerFrame, Right), 1.0 + blurExpend);
    ScaleMonotone(0.0, MaxEdge(masks, layerFrame, Bottom), 1.0 + blurExpend);
  }

}
