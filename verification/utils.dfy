/** The captured result of one external tool run (src/utils.h). */
module Utils {

  /**
   What a tool run hands back: its standard output, already split into
   lines, and its standard error text. Splitting the output into lines is
   not part of this model.
   */
  datatype ProcOutput = ProcOutput(lines: seq<string>, err: string)

  /** A run failed exactly when it wrote something to standard error. */
  function HasError(o: ProcOutput): (b: bool)
    ensures b <==> o.err != ""
  {
    |o.err| > 0
  }
}
