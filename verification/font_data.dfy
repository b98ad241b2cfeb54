/** The per-glyph summary record that the shader indexes by glyph id. */
module FontRecords {
  import opened Utils

  /** A glyph bounding box in font design units, as the parser reports it. */
  datatype Rect = Rect(xMin: int, yMin: int, xMax: int, yMax: int) {
    function Width(): int {
      xMax - xMin
    }

    function Height(): int {
      yMax - yMin
    }

    /** The minimum corner does not lie beyond the maximum corner. */
    predicate WellFormed() {
      xMin <= xMax && yMin <= yMax
    }
  }

  /** The four 32-bit fields of one summary record: where the glyph's curve
      run starts in the shared curve list, where its ordering block starts in
      the shared ordering list, and its size in em units. */
  datatype FontData = FontData(
    curveTexelIndex: nat,
    curveInfoIndex: nat,
    widthInEm: real,
    heightInEm: real)

  /** Size in bytes of one record as laid out for the GPU: four 4-byte fields. */
  const FONT_DATA_SIZE: nat := 16

  /** The width and height value the sentinel record carries. */
  const EMPTY_SIZE: real := -10.0

  /** The record of an outlined glyph whose curves start at `glyphStart` and
      whose ordering block starts at `dataStart`. Both offsets go through a
      truncating cast to 32 bits. */
  function New(glyphStart: nat, dataStart: nat, rect: Rect, unitsPerEm: real): (r: FontData)
    requires unitsPerEm > 0.0
    ensures r.curveTexelIndex < U32_MODULUS && r.curveInfoIndex < U32_MODULUS
    ensures glyphStart < U32_MODULUS ==> r.curveTexelIndex == glyphStart
    ensures dataStart < U32_MODULUS ==> r.curveInfoIndex == dataStart
    ensures r.widthInEm * unitsPerEm == rect.Width() as real
    ensures r.heightInEm * unitsPerEm == rect.Height() as real
    ensures rect.WellFormed() ==> r.widthInEm >= 0.0 && r.heightInEm >= 0.0
  {
    FontData(
      AsU32(glyphStart),
      AsU32(dataStart),
      rect.Width() as real / unitsPerEm,
      rect.Height() as real / unitsPerEm)
  }

  /** The sentinel record of a glyph without an outline. */
  function Empty(): (r: FontData)
    ensures r.curveTexelIndex == 0 && r.curveInfoIndex == 0
    ensures r.widthInEm < 0.0 && r.heightInEm < 0.0
  {
    FontData(0, 0, EMPTY_SIZE, EMPTY_SIZE)
  }

  /** A consumer can tell the sentinel from any real record by its size. */
  predicate IsEmpty(d: FontData) {
    d.widthInEm < 0.0
  }

  /** No record built from a well-formed box is mistaken for the sentinel,
      while the sentinel itself is recognised. */
  lemma EmptyIsDistinguishable(glyphStart: nat, dataStart: nat, rect: Rect, unitsPerEm: real)
    requires unitsPerEm > 0.0
    ensures IsEmpty(Empty())
    ensures rect.WellFormed() ==> !IsEmpty(New(glyphStart, dataStart, rect, unitsPerEm))
    ensures rect.WellFormed() ==> New(glyphStart, dataStart, rect, unitsPerEm) != Empty()
  {
  }
}
