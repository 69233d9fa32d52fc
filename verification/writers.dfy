/** The output side of rendering: an append-only character sink, and the
    outcome of a render that may stop part-way with an exception. */
module Writers {

  /** A character stream that can only be appended to. Writes never fail:
      the sink's I/O errors are not modelled. */
  datatype Writer = Writer(text: string) {

    function Write(s: string): (r: Writer)
      ensures r.text == text + s
    {
      Writer(text + s)
    }
  }

  lemma AppendAssociates(a: string, b: string, c: string)
    ensures a + (b + c) == (a + b) + c
  {
  }

  /** The exceptions a render can raise. */
  datatype Failure = IllegalArgument(message: string)

  /** A completed render, or one that threw after writing `out`. */
  datatype Rendered = Done(out: Writer) | Aborted(out: Writer, failure: Failure)
}
