/**
 * One observation of the input (element.h, element.cpp): a sample, an OTU,
 * the OTU's length and its count, parsed from the four fields of a record.
 *
 * `std::stof` and `std::stoi` are not part of this model: they are passed in
 * as partial parsers, `None` standing for the exceptions they throw.
 */
module Elements {
  import opened Wrappers

  /** The pseudo-count a zero count is replaced by (element.h). */
  const ZeroReplacement: real := 0.05

  type FloatParser = string -> Option<real>
  type IntParser = string -> Option<int>

  datatype Element = Element(
    sample: string,
    otu: string,
    sampleIndex: nat,
    otuIndex: nat,
    otuLen: real,
    count: real)

  /** Which conversion threw: `stof` on the length or `stoi` on the count. */
  datatype ParseError = BadLength | BadCount

  /**
   * element.cpp:20-42. The length is converted first, then the count; a zero
   * count becomes the pseudo-count when `replaceZeros` holds.
   */
  function ParseDataLine(tokens: seq<string>, replaceZeros: bool, parseFloat: FloatParser, parseInt: IntParser)
    : (r: Result<Element, ParseError>)
    requires |tokens| == 4
    ensures parseFloat(tokens[2]).None? ==> r == Failure(BadLength)
    ensures parseFloat(tokens[2]).Some? && parseInt(tokens[3]).None? ==> r == Failure(BadCount)
    ensures r.Success? <==> parseFloat(tokens[2]).Some? && parseInt(tokens[3]).Some?
    ensures r.Success? ==>
      && r.value.sample == tokens[0] && r.value.otu == tokens[1]
      && r.value.sampleIndex == 0 && r.value.otuIndex == 0
      && r.value.otuLen == parseFloat(tokens[2]).value
    ensures r.Success? ==>
      var raw := parseInt(tokens[3]).value;
      && (raw != 0 ==> r.value.count == raw as real)
      && (raw == 0 ==> r.value.count == if replaceZeros then ZeroReplacement else 0.0)
      && (replaceZeros && raw >= 0 ==> r.value.count > 0.0)
  {
    match parseFloat(tokens[2])
    case None => Failure(BadLength)
    case Some(len) =>
      match parseInt(tokens[3])
      case None => Failure(BadCount)
      case Some(raw) =>
        var count := if replaceZeros && raw == 0 then ZeroReplacement else raw as real;
        Success(Element(tokens[0], tokens[1], 0, 0, len, count))
  }

  /** element.cpp:46-49: hits per 100 length units. */
  function NormalizeCount(e: Element): (r: real)
    requires e.otuLen != 0.0
    ensures r * e.otuLen == 100.0 * e.count
    ensures e.count > 0.0 && e.otuLen > 0.0 ==> r > 0.0
    ensures e.count == 0.0 ==> r == 0.0
  {
    e.count / e.otuLen * 100.0
  }
}
