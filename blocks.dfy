/** The records the pipeline passes between its stages: the span and line
    structure produced by page-text extraction, and the text block built from
    it. Coordinates and sizes are reals; y grows downwards. */
module Blocks {

  /** An optional value; usable with `:-`, where None propagates. */
  datatype Option<T> = None | Some(value: T) {
    predicate IsFailure() { None? }

    function PropagateFailure<U>(): Option<U>
      requires None?
    {
      None
    }

    function Extract(): T
      requires Some?
    {
      value
    }
  }

  /** A rectangle (x0, y0, x1, y1). */
  datatype BBox = BBox(x0: real, y0: real, x1: real, y1: real)

  /** One run of text in one font. */
  datatype Span = Span(text: string, bbox: BBox, size: real, font: string, flags: nat)

  datatype Line = Line(spans: seq<Span>)

  /** One reconstructed text block: text, page (1-based), bbox, page size,
      and the font size, family and style flags of its representative span. */
  datatype Block = Block(
    text: string,
    page: int,
    bbox: BBox,
    pageWidth: real,
    pageHeight: real,
    fontSize: real,
    fontFamily: string,
    flags: nat)

  /** A heading as classify_headings emits it: level ("H1".."H3"), cleaned
      text, and the page, font size and bbox of its block. */
  datatype Heading = Heading(level: string, text: string, page: int, fontSize: real, bbox: BBox)

  /** An outline entry: level, text and page only. */
  datatype Entry = Entry(level: string, text: string, page: int)

  /** `flags & 16` */
  predicate IsBold(flags: nat) { (flags / 16) % 2 == 1 }

  /** `flags & 2` */
  predicate IsItalic(flags: nat) { (flags / 2) % 2 == 1 }

  /** r lies inside outer. */
  predicate Inside(r: BBox, outer: BBox) {
    outer.x0 <= r.x0 && outer.y0 <= r.y0 && r.x1 <= outer.x1 && r.y1 <= outer.y1
  }

  /** All spans of all lines, in reading order. */
  function AllSpans(lines: seq<Line>): seq<Span> {
    if lines == [] then [] else AllSpans(lines[..|lines| - 1]) + lines[|lines| - 1].spans
  }

  lemma AllSpansStep(lines: seq<Line>, i: nat)
    requires i < |lines|
    ensures AllSpans(lines[..i + 1]) == AllSpans(lines[..i]) + lines[i].spans
  {
    assert lines[..i + 1][..i] == lines[..i];
  }
}
