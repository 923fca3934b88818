/**
 * The opacity mask of `apply_black_gradient` (gradient.py, lines 50-62):
 * a one-pixel-wide greyscale image, one entry per row of the input image,
 * that says how strongly black is laid over that row. The float arithmetic
 * of the script is taken in exact reals; `int` is truncation toward zero.
 */
module Gradient {
  import opened Numerics

  /**
   * Line 57: `y` in the top half and `height - y` in the bottom half. The
   * bottom half is mirrored with `height - y`, not `height - 1 - y`, so the
   * last row gets 1, not 0.
   */
  function Pos(height: nat, y: nat): (pos: nat)
    requires y < height
    ensures 2 * y < height ==> pos == y
    ensures 2 * y >= height ==> pos == height - y
  {
    if (y as real) < (height as real) / 2.0 then y else height - y
  }

  lemma PosBounds(height: nat, y: nat)
    requires y < height
    ensures 2 * Pos(height, y) <= height
    ensures Pos(height, y) == 0 <==> y == 0
  {
  }

  /** Rows `y` and `height - y` get the same `pos`; row 0 has no partner. */
  lemma PosMirror(height: nat, y: nat)
    requires 1 <= y < height
    ensures Pos(height, y) == Pos(height, height - y)
  {
  }

  /** The last row of a mask at least two rows high gets `pos` 1, where row 0 gets 0. */
  lemma PosLastRow(height: nat)
    requires height >= 2
    ensures Pos(height, height - 1) == 1 && Pos(height, 0) == 0
  {
  }

  /** Line 58, for a row whose mirrored index is `pos`. */
  function Opacity(initialOpacity: real, gradient: real, height: nat, pos: nat): (o: real)
    requires height > 0
    ensures pos == 0 ==> o == initialOpacity * 255.0
    ensures initialOpacity >= 0.0 && gradient * (pos as real) >= height as real ==> o <= 0.0
  {
    (initialOpacity * 255.0) * (1.0 - gradient * (pos as real) / (height as real))
  }

  /** Lines 58-62: the mask value written for row `y`, with non-positive values replaced by 0. */
  function Alpha(initialOpacity: real, gradient: real, height: nat, y: nat): (a: int)
    requires y < height
    ensures a >= 0
    ensures a > 0 <==> Opacity(initialOpacity, gradient, height, Pos(height, y)) >= 1.0
  {
    var a := Trunc(Opacity(initialOpacity, gradient, height, Pos(height, y)));
    if a > 0 then a else 0
  }

  /**
   * Rows `y` and `height - y` (1 <= y < height) get the same value: the mask
   * is symmetric about row `height / 2`, with row 0 left without a partner.
   */
  lemma AlphaMirror(initialOpacity: real, gradient: real, height: nat, y: nat)
    requires 1 <= y < height
    ensures Alpha(initialOpacity, gradient, height, y) == Alpha(initialOpacity, gradient, height, height - y)
  {
    PosMirror(height, y);
  }

  /** Opacity does not increase as `pos` grows. */
  lemma OpacityNonIncreasing(initialOpacity: real, gradient: real, height: nat, p1: nat, p2: nat)
    requires height > 0 && initialOpacity >= 0.0 && gradient >= 0.0 && p1 <= p2
    ensures Opacity(initialOpacity, gradient, height, p1) >= Opacity(initialOpacity, gradient, height, p2)
  {
    var h := height as real;
    var d := gradient * (p2 as real) / h - gradient * (p1 as real) / h;
    assert d == gradient * ((p2 - p1) as real) / h;
    assert d >= 0.0;
    assert Opacity(initialOpacity, gradient, height, p1) - Opacity(initialOpacity, gradient, height, p2)
      == (initialOpacity * 255.0) * d;
  }

  /** A row with a smaller `pos` is at least as dark as one with a larger `pos`. */
  lemma AlphaNonIncreasing(initialOpacity: real, gradient: real, height: nat, y1: nat, y2: nat)
    requires initialOpacity >= 0.0 && gradient >= 0.0
    requires y1 < height && y2 < height && Pos(height, y1) <= Pos(height, y2)
    ensures Alpha(initialOpacity, gradient, height, y1) >= Alpha(initialOpacity, gradient, height, y2)
  {
    OpacityNonIncreasing(initialOpacity, gradient, height, Pos(height, y1), Pos(height, y2));
    TruncMonotone(Opacity(initialOpacity, gradient, height, Pos(height, y2)),
                  Opacity(initialOpacity, gradient, height, Pos(height, y1)));
  }

  /** The top row gets the full initial opacity `int(initial_opacity * 255)`. */
  lemma AlphaTopRow(initialOpacity: real, gradient: real, height: nat)
    requires height > 0 && initialOpacity >= 0.0
    ensures Alpha(initialOpacity, gradient, height, 0) == Trunc(initialOpacity * 255.0)
  {
    assert Opacity(initialOpacity, gradient, height, 0) == initialOpacity * 255.0;
  }

  /** With the documented parameter ranges, no row is darker than the top row, and every value fits a byte. */
  lemma AlphaAtMostInitial(initialOpacity: real, gradient: real, height: nat, y: nat)
    requires y < height && 0.0 <= initialOpacity <= 1.0 && gradient >= 0.0
    ensures Alpha(initialOpacity, gradient, height, y) <= Trunc(initialOpacity * 255.0) <= 255
  {
    AlphaNonIncreasing(initialOpacity, gradient, height, 0, y);
    AlphaTopRow(initialOpacity, gradient, height);
    TruncMonotone(initialOpacity * 255.0, 255.0);
  }

  /** With gradient 0 every row gets the same value; fully opaque black when the initial opacity is 1. */
  lemma AlphaFlat(initialOpacity: real, height: nat, y: nat)
    requires y < height && initialOpacity >= 0.0
    ensures Alpha(initialOpacity, 0.0, height, y) == Trunc(initialOpacity * 255.0)
    ensures initialOpacity == 1.0 ==> Alpha(initialOpacity, 0.0, height, y) == 255
  {
    assert Opacity(initialOpacity, 0.0, height, Pos(height, y)) == initialOpacity * 255.0;
    assert Trunc(255.0) == 255;
  }

  /** A row with `gradient * pos >= height` gets no darkening at all. */
  lemma AlphaVanishes(initialOpacity: real, gradient: real, height: nat, y: nat)
    requires y < height && initialOpacity >= 0.0
    requires gradient * (Pos(height, y) as real) >= height as real
    ensures Alpha(initialOpacity, gradient, height, y) == 0
  {
    var h := height as real;
    var p := Pos(height, y) as real;
    assert gradient * p / h >= 1.0;
    assert (initialOpacity * 255.0) * (1.0 - gradient * p / h) <= 0.0;
  }

  /** With initial opacity 0 the mask is empty, so compositing leaves the image as it was. */
  lemma AlphaZeroOpacity(gradient: real, height: nat, y: nat)
    requires y < height
    ensures Alpha(0.0, gradient, height, y) == 0
  {
    assert Opacity(0.0, gradient, height, Pos(height, y)) == 0.0;
  }

  /** The mask is not symmetric top to bottom: four rows at gradient 3 give 255, 63, 0, 63. */
  lemma TopAndBottomRowsDiffer()
    ensures Alpha(1.0, 3.0, 4, 0) == 255
    ensures Alpha(1.0, 3.0, 4, 1) == 63 && Alpha(1.0, 3.0, 4, 2) == 0 && Alpha(1.0, 3.0, 4, 3) == 63
  {
    assert Opacity(1.0, 3.0, 4, 0) == 255.0;
    assert Opacity(1.0, 3.0, 4, 1) == 63.75;
    assert Opacity(1.0, 3.0, 4, 2) == -127.5;
    assert Trunc(255.0) == 255 && Trunc(63.75) == 63;
  }

  /**
   * Lines 55-62: a mask of `height` entries, initially 0xFF, then one
   * `putpixel` per row in order.
   */
  method BuildAlphaGradient(height: nat, initialOpacity: real, gradient: real)
    returns (alphaGradient: array<int>)
    ensures fresh(alphaGradient) && alphaGradient.Length == height
    ensures forall y :: 0 <= y < height ==> alphaGradient[y] == Alpha(initialOpacity, gradient, height, y)
  {
    alphaGradient := new int[height](_ => 0xFF);
    for y := 0 to height
      invariant forall i :: 0 <= i < y ==> alphaGradient[i] == Alpha(initialOpacity, gradient, height, i)
    {
      var pos := Pos(height, y);
      var a := Trunc(Opacity(initialOpacity, gradient, height, pos));
      if a > 0 {
        alphaGradient[y] := a;
      } else {
        alphaGradient[y] := 0;
      }
    }
  }
}
