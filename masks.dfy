/**
 * The per-mask animation data the compositor reads (pag::MaskData). Each
 * animatable property is a function of the frame; the keyframe interpolation
 * behind it is not part of this model.
 */
module Masks {
  import opened Wrappers
  import opened Geometry

  /** A frame number on the layer's timeline. */
  type Frame = int

  /** How a mask combines with the masks before it; `None` disables the mask. */
  datatype MaskMode = None | Add | Subtract | Intersect | Difference

  datatype MaskData = MaskData(
    maskPath: Frame -> Option<Path>,   // the path at a frame, absent (null) at some frames
    maskExpansion: Frame -> real,      // path offset: positive grows, negative shrinks
    maskMode: MaskMode,
    inverted: bool)
}
