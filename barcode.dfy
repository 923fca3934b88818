/**
 * Drawing the barcode (process_video.py, lines 143-150): a black RGB
 * canvas `len(rgb_list)` pixels wide and `int(len(rgb_list) * 9 / 16)`
 * tall, and for the k-th sample (from 0) a vertical line at x = k + 1,
 * from y = 0 to y = image_height inclusive. The canvas is an array
 * indexed `[x, y]`; PIL clips what falls outside it.
 */
module Barcode {
  import opened FrameStream

  const BLACK := Rgb(0, 0, 0)

  /** `int(n * 9 / 16)` with true division: 9n/16 rounded down. */
  function ImageHeight(n: nat): (h: nat)
    ensures 16 * h <= 9 * n < 16 * (h + 1)
  {
    9 * n / 16
  }

  /** The colour every pixel of column `x` ends up with. */
  function ColumnColour(rgbList: seq<Rgb>, x: nat): Rgb
    requires x < |rgbList|
  {
    if x == 0 then BLACK else rgbList[x - 1]
  }

  /** The colours of the columns, left to right. */
  function Row(rgbList: seq<Rgb>): (row: seq<Rgb>)
    ensures |row| == |rgbList|
  {
    seq(|rgbList|, x requires 0 <= x < |rgbList| => ColumnColour(rgbList, x))
  }

  /**
   * Seen left to right, the barcode is a black column followed by every
   * sample but the last, in order: the last sample is never drawn.
   */
  lemma RowIsShiftedSamples(rgbList: seq<Rgb>)
    requires |rgbList| > 0
    ensures Row(rgbList) == [BLACK] + rgbList[..|rgbList| - 1]
  {
    var row := Row(rgbList);
    var expected := [BLACK] + rgbList[..|rgbList| - 1];
    forall x | 0 <= x < |rgbList|
      ensures row[x] == expected[x]
    {
      if x > 0 {
        assert expected[x] == rgbList[..|rgbList| - 1][x - 1];
      }
    }
  }

  /** A stream of 50 frames gives a barcode 50 pixels wide and 28 tall. */
  lemma FiftySampleImage()
    ensures ImageHeight(50) == 28
  {
  }

  /**
   * `draw.line((x, y0, x, y1), fill=colour)`: every pixel of column `x`
   * from `y0` to `y1` inclusive that lies on the canvas takes `colour`.
   */
  method DrawVerticalLine(img: array2<Rgb>, x: nat, y0: nat, y1: nat, colour: Rgb)
    requires y0 <= y1
    modifies img
    ensures forall i, j :: 0 <= i < img.Length0 && 0 <= j < img.Length1 ==>
      img[i, j] == if i == x && y0 <= j <= y1 then colour else old(img[i, j])
  {
    if x < img.Length0 {
      var y := y0;
      while y <= y1 && y < img.Length1
        invariant y0 <= y && (y == y0 || y <= y1 + 1)
        invariant forall i, j :: 0 <= i < img.Length0 && 0 <= j < img.Length1 ==>
          img[i, j] == if i == x && y0 <= j < y then colour else old(img[i, j])
        decreases img.Length1 - y
      {
        img[x, y] := colour;
        y := y + 1;
      }
    }
  }

  /** Lines 143-150: the canvas and the loop that draws one line per sample. */
  method DrawBarcode(rgbList: seq<Rgb>) returns (img: array2<Rgb>)
    ensures fresh(img)
    ensures img.Length0 == |rgbList| && img.Length1 == ImageHeight(|rgbList|)
    ensures forall x, y :: 0 <= x < img.Length0 && 0 <= y < img.Length1 ==>
      img[x, y] == ColumnColour(rgbList, x)
  {
    var imageHeight := ImageHeight(|rgbList|);
    img := new Rgb[|rgbList|, imageHeight]((x, y) => BLACK);
    var xPixel := 1;
    for k := 0 to |rgbList|
      invariant xPixel == k + 1
      invariant forall x, y :: 0 <= x < img.Length0 && 0 <= y < img.Length1 ==>
        img[x, y] == if 1 <= x <= k then rgbList[x - 1] else BLACK
    {
      DrawVerticalLine(img, xPixel, 0, imageHeight, rgbList[k]);
      xPixel := xPixel + 1;
    }
  }
}
