/**
 * The legacy program of main.cpp (version 0.1.0). Its tokenizer, reading
 * loop, reverse tables, CLR transform and column distances are copies of
 * the ones in utils.cpp, mat.cpp and coda.cpp, and are not modelled twice.
 * It differs in two places: its own `parse_data_line` always replaces a
 * zero count, and its table is pre-filled with zero rather than with the
 * pseudo-count.
 */
module Legacy {
  import opened Wrappers
  import opened Elements
  import opened Mat
  import opened Coda

  /**
   * main.cpp:149-172: the length is converted first, then the count, and a
   * zero count always becomes 0.05. This is the parser of element.cpp with
   * zero replacement switched on.
   */
  function ParseDataLineLegacy(tokens: seq<string>, parseFloat: FloatParser, parseInt: IntParser)
    : (r: Result<Element, ParseError>)
    requires |tokens| == 4
    ensures r == ParseDataLine(tokens, true, parseFloat, parseInt)
  {
    match parseFloat(tokens[2])
    case None => Failure(BadLength)
    case Some(len) =>
      match parseInt(tokens[3])
      case None => Failure(BadCount)
      case Some(raw) => Success(Element(tokens[0], tokens[1], 0, 0, len, if raw == 0 then 0.05 else raw as real))
  }

  /**
   * main.cpp:261-328: a legacy run. Reading is the loop of coda.cpp (its
   * parser agrees with `ParseDataLineLegacy`), and the table is pre-filled
   * with zero.
   */
  method LegacyAnalyse(lines: seq<string>, parseFloat: FloatParser, parseInt: IntParser,
                       log: real -> real, sqrt: SqrtFunction)
    returns (r: Result<Outcome, IngestError>)
    requires ReadAll(lines, parseFloat, parseInt).Success? ==>
      NonZeroLengths(ReadAll(lines, parseFloat, parseInt).value.elements)
    ensures ReadAll(lines, parseFloat, parseInt).Failure? ==>
      r == Failure(ReadAll(lines, parseFloat, parseInt).error)
    ensures ReadAll(lines, parseFloat, parseInt).Success? ==>
      r.Success? && Produced(r.value, ReadAll(lines, parseFloat, parseInt).value, 0.0, log, sqrt)
    ensures r.Success? ==> fresh(r.value.clr) && fresh(r.value.distances) && r.value.clr != r.value.distances
  {
    r := Run(lines, parseFloat, parseInt, 0.0, log, sqrt);
  }

  /** Two observations: OTU "A" in sample "s1" and OTU "B" in sample "s2", each with count 1 over length 1. */
  function TwoObservations(): (es: seq<Element>)
    ensures NonZeroLengths(es)
  {
    [Element("s1", "A", 0, 0, 1.0, 1.0), Element("s2", "B", 1, 1, 1.0, 1.0)]
  }

  /**
   * main.cpp:295-303: with the zero pre-fill, OTU "B" is zero in sample "s1"
   * because no line mentions the pair, so the CLR transform of that column
   * takes the logarithm of zero.
   */
  lemma ZeroPrefillReachesLog(log: real -> real)
    ensures TableColumn(TwoObservations(), 2, 0, 0.0) == [100.0, 0.0]
    ensures Clr(TableColumn(TwoObservations(), 2, 0, 0.0), log)[1] == log(0.0) - MeanLog([100.0, 0.0], log)
  {
    var es := TwoObservations();
    assert es[..1] == [es[0]];
    assert Cell(es, 0, 0, 0.0) == 100.0;
    assert Cell(es, 1, 0, 0.0) == 0.0;
  }

  /** coda.cpp:119 on the same observations: the unobserved cell holds the pseudo-count, so every logarithm is of a positive value. */
  lemma PseudoCountPrefillIsPositive()
    ensures TableColumn(TwoObservations(), 2, 0, ZeroReplacement) == [100.0, ZeroReplacement]
    ensures forall r :: 0 <= r < 2 ==> TableColumn(TwoObservations(), 2, 0, ZeroReplacement)[r] > 0.0
  {
    var es := TwoObservations();
    assert es[..1] == [es[0]];
    assert Cell(es, 0, 0, ZeroReplacement) == 100.0;
    assert Cell(es, 1, 0, ZeroReplacement) == ZeroReplacement;
  }
}
