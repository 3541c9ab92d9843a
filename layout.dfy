/**
 * The records the structure-inference engine passes between its stages:
 * text spans as the PDF extractor reports them, the logical lines built by
 * merging spans, heading levels, heading candidates and outline entries.
 * Sizes and coordinates are in points; pages are 0-based.
 */
module Layout {

  /** One text span: its text, font size, bold flag, page and bounding box. */
  datatype Span = Span(text: string, size: real, bold: bool, page: nat, x0: real, y0: real, x1: real, y1: real)
  {
    /** The extractor records "line_height" as the box's height. */
    function LineHeight(): real {
      y1 - y0
    }
  }

  /**
   * A logical line made of one or more consecutive spans. It has no line
   * height: the merged record does not carry that key.
   */
  datatype Line = Line(text: string, size: real, bold: bool, page: nat, x0: real, y0: real, x1: real, y1: real)

  /** H0 is the level given to the document title's section marker. */
  datatype Level = H0 | H1 | H2 | H3

  /** A heading candidate found by the classifier, with its position for sorting. */
  datatype Candidate = Candidate(level: Level, text: string, page: nat, y0: real, x0: real)

  /** One entry of the final outline. */
  datatype Entry = Entry(level: Level, text: string, page: nat)
}
