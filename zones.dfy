/**
 * The zone arithmetic of `parseZones` (src/services/ocr.js:141-154). The
 * caller's fractional cut points have already been scaled by the image width
 * and floored to the integer cut points `xA`, `xB`, `xC`. The code zone runs
 * from 0 to xA, the unit zone from xB to xC and the grade zone from xC to the
 * right edge; the band between xA and xB is not read at all.
 */
module Zones {

  /** A horizontal pixel range handed to `createStrip`: its left edge and its width. */
  datatype Band = Band(start: int, width: int)

  datatype Layout = Layout(code: Band, unit: Band, grade: Band)

  /** The three strips: `createStrip(img, 0, wCode)`, `(img, xB, wUnit)` and `(img, xC, wGrade)`. */
  function ZoneLayout(w: int, xA: int, xB: int, xC: int): (z: Layout)
    ensures z.code.width + z.unit.width + z.grade.width == w - (xB - xA)
    ensures z.code.start == 0 && z.unit.start == xB && z.grade.start == xC
    ensures z.grade.start + z.grade.width == w
    ensures 0 <= xA <= xB <= xC <= w ==>
              z.code.width >= 0 && z.unit.width >= 0 && z.grade.width >= 0
              && z.code.width + z.unit.width + z.grade.width <= w
  {
    var wCode := xA;
    var wUnit := xC - xB;
    var wGrade := w - xC;
    Layout(Band(0, wCode), Band(xB, wUnit), Band(xC, wGrade))
  }

  /** The pixel columns a band covers. */
  predicate InBand(b: Band, col: int) {
    b.start <= col < b.start + b.width
  }

  /**
   * With ordered cut points inside the image, every column lies in at most one
   * zone and inside the image; the columns from xA up to xB lie in none.
   */
  lemma ZonesDisjoint(w: int, xA: int, xB: int, xC: int, col: int)
    requires 0 <= xA <= xB <= xC <= w
    ensures var z := ZoneLayout(w, xA, xB, xC);
      (InBand(z.code, col) || InBand(z.unit, col) || InBand(z.grade, col)) ==> 0 <= col < w
    ensures var z := ZoneLayout(w, xA, xB, xC);
      !(InBand(z.code, col) && InBand(z.unit, col)) &&
      !(InBand(z.code, col) && InBand(z.grade, col)) &&
      !(InBand(z.unit, col) && InBand(z.grade, col))
    ensures var z := ZoneLayout(w, xA, xB, xC);
      xA <= col < xB ==> !InBand(z.code, col) && !InBand(z.unit, col) && !InBand(z.grade, col)
  {
  }
}
