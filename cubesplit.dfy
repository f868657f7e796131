/**
 * The crop boxes of image-manipulation/image-split.py, which cuts a cube-map image laid out
 * as a 3 by 3 grid into six faces. A box is PIL's `(left, upper, right, lower)`; loading,
 * cropping and saving are not modelled.
 */
module CubeSplit {

  datatype CropBox = CropBox(left: int, upper: int, right: int, lower: int)

  datatype Faces = Faces(left: CropBox, right: CropBox, top: CropBox, bottom: CropBox, front: CropBox, back: CropBox)

  /** The six crop boxes for an image `width` by `height`, with `face = size // 3`. */
  function CubeFaces(width: nat, height: nat): Faces
  {
    var fw := width / 3;
    var fh := height / 3;
    Faces(
      CropBox(0, fh, fw, 2 * fh),
      CropBox(2 * fw, fh, 3 * fw, 2 * fh),
      CropBox(fw, 0, 2 * fw, fh),
      CropBox(fw, 2 * fh, 2 * fw, height),
      CropBox(fw, fh, 2 * fw, 2 * fh),
      CropBox(2 * fw, 0, 3 * fw, fh))
  }

  /** Cell `(col, row)` of the 3 by 3 grid of `fw` by `fh` cells. */
  function Cell(col: int, row: int, fw: int, fh: int): CropBox
  {
    CropBox(col * fw, row * fh, (col + 1) * fw, (row + 1) * fh)
  }

  function Width(b: CropBox): int { b.right - b.left }
  function Height(b: CropBox): int { b.lower - b.upper }

  /**
   * Left, right, top, front and back are the grid cells (0, 1), (2, 1), (1, 0), (1, 1) and
   * (2, 0); bottom is cell (1, 2) stretched down to the last row of the image.
   */
  lemma FacesAreCells(width: nat, height: nat)
    ensures var f := CubeFaces(width, height); var fw := width / 3; var fh := height / 3;
      && f.left == Cell(0, 1, fw, fh) && f.right == Cell(2, 1, fw, fh) && f.top == Cell(1, 0, fw, fh)
      && f.front == Cell(1, 1, fw, fh) && f.back == Cell(2, 0, fw, fh)
      && f.bottom == Cell(1, 2, fw, fh).(lower := height)
  {
  }

  /** Five faces are exactly `width // 3` by `height // 3`; the bottom one takes in the `height % 3` leftover rows. */
  lemma FaceSizes(width: nat, height: nat)
    ensures var f := CubeFaces(width, height); var fw := width / 3; var fh := height / 3;
      && Width(f.left) == fw && Width(f.right) == fw && Width(f.top) == fw && Width(f.bottom) == fw
      && Width(f.front) == fw && Width(f.back) == fw
      && Height(f.left) == fh && Height(f.right) == fh && Height(f.top) == fh
      && Height(f.front) == fh && Height(f.back) == fh
      && Height(f.bottom) == fh + height % 3
  {
  }

  /** A box inside the image. */
  predicate InImage(b: CropBox, width: int, height: int)
  {
    0 <= b.left <= b.right <= width && 0 <= b.upper <= b.lower <= height
  }

  /** Every crop box lies within the image. */
  lemma FacesInImage(width: nat, height: nat)
    ensures var f := CubeFaces(width, height);
      && InImage(f.left, width, height) && InImage(f.right, width, height) && InImage(f.top, width, height)
      && InImage(f.bottom, width, height) && InImage(f.front, width, height) && InImage(f.back, width, height)
  {
  }

  /** Two boxes share no interior point. */
  predicate Disjoint(a: CropBox, b: CropBox)
  {
    a.right <= b.left || b.right <= a.left || a.lower <= b.upper || b.lower <= a.upper
  }

  function AsSeq(f: Faces): seq<CropBox>
  {
    [f.left, f.right, f.top, f.bottom, f.front, f.back]
  }

  /** No two faces overlap: every pixel goes to at most one of them. */
  lemma FacesDisjoint(width: nat, height: nat)
    ensures var s := AsSeq(CubeFaces(width, height));
      forall i, j :: 0 <= i < j < 6 ==> Disjoint(s[i], s[j])
  {
  }

  /** When the height divides by three the bottom face is a plain grid cell as well. */
  lemma EvenImageBottomIsCell(width: nat, height: nat)
    requires height % 3 == 0
    ensures CubeFaces(width, height).bottom == Cell(1, 2, width / 3, height / 3)
  {
  }
}
