/**
 * The discrete part of `main` in coda.cpp. Tab-separated records are read
 * one line at a time into a single reused four-slot token array and parsed
 * into elements. Samples and OTUs are given dense indexes, and a count
 * below one is tallied as a zero. The reverse tables are built, and the
 * OTU x sample table is pre-filled and then overwritten element by element.
 * Finally the CLR transform and the column distances are applied.
 *
 * The lines of the input file are a parameter. An exception thrown while
 * reading (too many fields, or a failed `stof`/`stoi`) ends the program;
 * here it is the `Failure` of the run.
 */
module Coda {
  import opened Wrappers
  import opened Utils
  import opened Elements
  import opened Indexing
  import opened Mat

  /** The size of the token array every line is split into (coda.cpp:38). */
  const FieldCount: nat := 4

  /** Why reading stops: the fixed-array `split` or `parse_data_line` threw. */
  datatype IngestError = TooManyFields | BadNumber(cause: ParseError)

  /** Everything the reading loop carries from one line to the next. */
  datatype Reader = Reader(
    slots: seq<string>,
    sampleIndex: Index,
    otuIndex: Index,
    elements: seq<Element>,
    zeroCounts: nat)

  /** The state before the first line: four empty token strings and nothing read. */
  function Start(): (st: Reader)
    ensures |st.slots| == FieldCount && st.elements == [] && st.zeroCounts == 0
    ensures st.sampleIndex == map[] && st.otuIndex == map[]
  {
    Reader(seq(FieldCount, _ => ""), map[], map[], [], 0)
  }

  /** The sample names of `es`, in order. */
  function Samples(es: seq<Element>): (keys: seq<string>)
    ensures |keys| == |es| && forall i :: 0 <= i < |es| ==> keys[i] == es[i].sample
  {
    seq(|es|, i requires 0 <= i < |es| => es[i].sample)
  }

  /** The OTU names of `es`, in order. */
  function Otus(es: seq<Element>): (keys: seq<string>)
    ensures |keys| == |es| && forall i :: 0 <= i < |es| ==> keys[i] == es[i].otu
  {
    seq(|es|, i requires 0 <= i < |es| => es[i].otu)
  }

  /** Appending an element appends its names. */
  lemma NamesSnoc(es: seq<Element>, e: Element)
    ensures Samples(es + [e]) == Samples(es) + [e.sample]
    ensures Otus(es + [e]) == Otus(es) + [e.otu]
  {
    assert forall i :: 0 <= i < |es| ==> (es + [e])[i] == es[i];
  }

  /** The number of elements whose count is below one, as the zero counter tallies them. */
  function CountBelowOne(es: seq<Element>): nat
  {
    if es == [] then 0
    else CountBelowOne(es[..|es| - 1]) + if es[|es| - 1].count < 1.0 then 1 else 0
  }

  /**
   * coda.cpp:81-95: a parsed element is taken in. Both names are registered,
   * the element takes their indexes and is appended, and a count below one
   * is tallied.
   */
  function Accept(st: Reader, slots: seq<string>, parsed: Element): (r: Reader)
    ensures r.slots == slots
    ensures |r.elements| == |st.elements| + 1 && r.elements[..|st.elements|] == st.elements
    ensures var e := r.elements[|st.elements|];
      && e == parsed.(sampleIndex := e.sampleIndex, otuIndex := e.otuIndex)
      && r.elements == st.elements + [e]
      && e.sample in r.sampleIndex && e.sampleIndex == r.sampleIndex[e.sample]
      && e.otu in r.otuIndex && e.otuIndex == r.otuIndex[e.otu]
      && r.zeroCounts == st.zeroCounts + (if parsed.count < 1.0 then 1 else 0)
    ensures r.sampleIndex == Register(st.sampleIndex, parsed.sample)
    ensures r.otuIndex == Register(st.otuIndex, parsed.otu)
  {
    var samples := Register(st.sampleIndex, parsed.sample);
    var otus := Register(st.otuIndex, parsed.otu);
    var e := parsed.(sampleIndex := samples[parsed.sample], otuIndex := otus[parsed.otu]);
    Reader(slots, samples, otus, st.elements + [e], st.zeroCounts + if e.count < 1.0 then 1 else 0)
  }

  /**
   * coda.cpp:77-78: one pass of the reading loop. The line is split into the
   * reused slots and parsed with zero replacement; a line with more than
   * four fields, or a field that does not convert, stops the run.
   */
  function ReadLine(st: Reader, line: string, parseFloat: FloatParser, parseInt: IntParser)
    : (r: Result<Reader, IngestError>)
    requires |st.slots| == FieldCount
    ensures r == Failure(TooManyFields) <==> |Tokens(line, Tab)| > FieldCount
    ensures r.Failure? && r != Failure(TooManyFields) ==>
      var parsed := ParseDataLine(Fill(st.slots, Tokens(line, Tab)), true, parseFloat, parseInt);
      parsed.Failure? && r == Failure(BadNumber(parsed.error))
    ensures r.Success? ==>
      var slots := Fill(st.slots, Tokens(line, Tab));
      var parsed := ParseDataLine(slots, true, parseFloat, parseInt);
      parsed.Success? && r.value == Accept(st, slots, parsed.value)
  {
    var pieces := Tokens(line, Tab);
    if |pieces| > FieldCount then Failure(TooManyFields)
    else
      var slots := Fill(st.slots, pieces);
      match ParseDataLine(slots, true, parseFloat, parseInt)
      case Failure(cause) => Failure(BadNumber(cause))
      case Success(parsed) => Success(Accept(st, slots, parsed))
  }

  /** coda.cpp:76-96: the reading loop over `lines`, stopping at the first line that throws. */
  function ReadAll(lines: seq<string>, parseFloat: FloatParser, parseInt: IntParser)
    : (r: Result<Reader, IngestError>)
    ensures r.Success? ==> |r.value.slots| == FieldCount && |r.value.elements| == |lines|
  {
    if lines == [] then Success(Start())
    else
      match ReadAll(lines[..|lines| - 1], parseFloat, parseInt)
      case Failure(e) => Failure(e)
      case Success(st) => ReadLine(st, lines[|lines| - 1], parseFloat, parseInt)
  }

  /**
   * The reading state is consistent: the indexes are those built by
   * registering the names in input order, each element carries its names'
   * indexes, and the zero counter counts the elements whose count is below one.
   */
  ghost predicate Consistent(st: Reader)
  {
    && st.sampleIndex == RegisterAll(Samples(st.elements))
    && st.otuIndex == RegisterAll(Otus(st.elements))
    && (forall i :: 0 <= i < |st.elements| ==>
          && st.elements[i].sample in st.sampleIndex
          && st.elements[i].sampleIndex == st.sampleIndex[st.elements[i].sample]
          && st.elements[i].otu in st.otuIndex
          && st.elements[i].otuIndex == st.otuIndex[st.elements[i].otu])
    && st.zeroCounts == CountBelowOne(st.elements)
  }

  /** coda.cpp:81-95: taking in an element keeps the reading state consistent. */
  lemma AcceptKeepsConsistent(st: Reader, slots: seq<string>, parsed: Element)
    requires Consistent(st)
    ensures Consistent(Accept(st, slots, parsed))
  {
    var st' := Accept(st, slots, parsed);
    var n := |st.elements|;
    var e := st'.elements[n];
    NamesSnoc(st.elements, e);
    RegisterAllSnoc(Samples(st.elements), e.sample);
    RegisterAllSnoc(Otus(st.elements), e.otu);
    forall i | 0 <= i < n + 1
      ensures st'.elements[i].sample in st'.sampleIndex
      ensures st'.elements[i].sampleIndex == st'.sampleIndex[st'.elements[i].sample]
      ensures st'.elements[i].otu in st'.otuIndex
      ensures st'.elements[i].otuIndex == st'.otuIndex[st'.elements[i].otu]
    {
      if i < n {
        assert st'.elements[i] == st.elements[i];
      }
    }
  }

  /** coda.cpp:76-96: every state a successful run reaches is consistent. */
  lemma {:induction false} ReadAllState(lines: seq<string>, parseFloat: FloatParser, parseInt: IntParser)
    requires ReadAll(lines, parseFloat, parseInt).Success?
    ensures Consistent(ReadAll(lines, parseFloat, parseInt).value)
  {
    if lines != [] {
      var init := lines[..|lines| - 1];
      ReadAllState(init, parseFloat, parseInt);
      var st := ReadAll(init, parseFloat, parseInt).value;
      var slots := Fill(st.slots, Tokens(lines[|lines| - 1], Tab));
      AcceptKeepsConsistent(st, slots, ParseDataLine(slots, true, parseFloat, parseInt).value);
    }
  }

  /** The sample and OTU indexes of a consistent state are injective and bound the element indexes. */
  lemma ConsistentIndexesDense(st: Reader)
    requires st.sampleIndex == RegisterAll(Samples(st.elements))
    requires st.otuIndex == RegisterAll(Otus(st.elements))
    requires forall i :: 0 <= i < |st.elements| ==>
      && st.elements[i].sample in st.sampleIndex
      && st.elements[i].sampleIndex == st.sampleIndex[st.elements[i].sample]
      && st.elements[i].otu in st.otuIndex
      && st.elements[i].otuIndex == st.otuIndex[st.elements[i].otu]
    ensures forall k1, k2 :: k1 in st.sampleIndex && k2 in st.sampleIndex && st.sampleIndex[k1] == st.sampleIndex[k2] ==> k1 == k2
    ensures forall k1, k2 :: k1 in st.otuIndex && k2 in st.otuIndex && st.otuIndex[k1] == st.otuIndex[k2] ==> k1 == k2
    ensures forall i :: 0 <= i < |st.elements| ==>
      st.elements[i].sampleIndex < |st.sampleIndex| && st.elements[i].otuIndex < |st.otuIndex|
  {
    IndexIsDense(Samples(st.elements));
    IndexIsDense(Otus(st.elements));
  }

  /** coda.cpp:86-93: the indexes of a successful run are injective and bound the element indexes. */
  lemma ReadAllIndexesDense(lines: seq<string>, parseFloat: FloatParser, parseInt: IntParser)
    requires ReadAll(lines, parseFloat, parseInt).Success?
    ensures var st := ReadAll(lines, parseFloat, parseInt).value;
      && (forall k1, k2 :: k1 in st.sampleIndex && k2 in st.sampleIndex && st.sampleIndex[k1] == st.sampleIndex[k2] ==> k1 == k2)
      && (forall k1, k2 :: k1 in st.otuIndex && k2 in st.otuIndex && st.otuIndex[k1] == st.otuIndex[k2] ==> k1 == k2)
      && (forall i :: 0 <= i < |st.elements| ==>
            st.elements[i].sampleIndex < |st.sampleIndex| && st.elements[i].otuIndex < |st.otuIndex|)
  {
    ReadAllState(lines, parseFloat, parseInt);
    ConsistentIndexesDense(ReadAll(lines, parseFloat, parseInt).value);
  }

  /** Once a line has thrown, the lines after it are never read. */
  lemma {:induction false} FailureIsFinal(lines: seq<string>, p: nat, parseFloat: FloatParser, parseInt: IntParser)
    requires p <= |lines| && ReadAll(lines[..p], parseFloat, parseInt).Failure?
    ensures ReadAll(lines, parseFloat, parseInt) == ReadAll(lines[..p], parseFloat, parseInt)
  {
    if p < |lines| {
      var init := lines[..|lines| - 1];
      assert init[..p] == lines[..p];
      FailureIsFinal(init, p, parseFloat, parseInt);
    } else {
      assert lines[..p] == lines;
    }
  }

  /** utils.cpp:34-37 within coda.cpp:77: a line with more than four fields aborts the run. */
  lemma TooManyFieldsAborts(lines: seq<string>, p: nat, parseFloat: FloatParser, parseInt: IntParser)
    requires p < |lines| && |Tokens(lines[p], Tab)| > FieldCount
    ensures ReadAll(lines, parseFloat, parseInt).Failure?
  {
    var upto := lines[..p + 1];
    assert upto[..p] == lines[..p];
    FailureIsFinal(lines, p + 1, parseFloat, parseInt);
  }

  /**
   * coda.cpp:38, 77-78: the token array is not cleared between lines, so a
   * blank line after a successful one re-parses the previous line's fields
   * and appends a copy of the previous element.
   */
  lemma BlankLineRepeatsPrevious(lines: seq<string>, parseFloat: FloatParser, parseInt: IntParser)
    requires lines != [] && ReadAll(lines, parseFloat, parseInt).Success?
    ensures var before := ReadAll(lines, parseFloat, parseInt).value;
      var after := ReadAll(lines + [""], parseFloat, parseInt);
      && after.Success?
      && after.value.elements == before.elements + [before.elements[|before.elements| - 1]]
  {
    var before := ReadAll(lines, parseFloat, parseInt).value;
    var st := LastAccepted(lines, parseFloat, parseInt);
    var parsed := ParseDataLine(before.slots, true, parseFloat, parseInt).value;
    ReadAllSnoc(lines, "", parseFloat, parseInt);
    BlankLineReusesSlots(before, parseFloat, parseInt);
    AcceptAgainRepeats(st, before.slots, parsed);
  }

  /** Reading one more line continues from the state the earlier lines reached. */
  lemma ReadAllSnoc(lines: seq<string>, line: string, parseFloat: FloatParser, parseInt: IntParser)
    requires ReadAll(lines, parseFloat, parseInt).Success?
    ensures ReadAll(lines + [line], parseFloat, parseInt) == ReadLine(ReadAll(lines, parseFloat, parseInt).value, line, parseFloat, parseInt)
  {
    assert (lines + [line])[..|lines|] == lines;
  }

  /** Reading the prefix one line longer continues from the state the shorter prefix reached. */
  lemma ReadAllNext(lines: seq<string>, i: nat, parseFloat: FloatParser, parseInt: IntParser)
    requires i < |lines| && ReadAll(lines[..i], parseFloat, parseInt).Success?
    ensures ReadAll(lines[..i + 1], parseFloat, parseInt)
      == ReadLine(ReadAll(lines[..i], parseFloat, parseInt).value, lines[i], parseFloat, parseInt)
  {
    PrefixSnoc(lines, i);
    ReadAllSnoc(lines[..i], lines[i], parseFloat, parseInt);
  }

  /** A prefix one longer is the shorter prefix followed by the next line. */
  lemma PrefixSnoc(lines: seq<string>, i: nat)
    requires i < |lines|
    ensures lines[..i + 1] == lines[..i] + [lines[i]]
  {
  }

  /** The state after a successful last line is that line's element taken in, parsed from the slots it left. */
  lemma LastAccepted(lines: seq<string>, parseFloat: FloatParser, parseInt: IntParser) returns (st: Reader)
    requires lines != [] && ReadAll(lines, parseFloat, parseInt).Success?
    ensures var after := ReadAll(lines, parseFloat, parseInt).value;
      && ParseDataLine(after.slots, true, parseFloat, parseInt).Success?
      && after == Accept(st, after.slots, ParseDataLine(after.slots, true, parseFloat, parseInt).value)
  {
    st := ReadAll(lines[..|lines| - 1], parseFloat, parseInt).value;
  }

  /** A blank line has no fields, so it is parsed from the slots exactly as they were left. */
  lemma BlankLineReusesSlots(st: Reader, parseFloat: FloatParser, parseInt: IntParser)
    requires |st.slots| == FieldCount && ParseDataLine(st.slots, true, parseFloat, parseInt).Success?
    ensures ReadLine(st, "", parseFloat, parseInt)
      == Success(Accept(st, st.slots, ParseDataLine(st.slots, true, parseFloat, parseInt).value))
  {
    assert Tokens("", Tab) == [];
    assert Fill(st.slots, []) == st.slots;
  }

  /** Taking in the same parsed element twice appends two equal elements. */
  lemma AcceptAgainRepeats(st: Reader, slots: seq<string>, parsed: Element)
    ensures var once := Accept(st, slots, parsed);
      Accept(once, slots, parsed).elements == once.elements + [once.elements[|once.elements| - 1]]
  {
  }

  /** Every element of `es` has a non-zero length, so its normalised count is defined over the reals. */
  predicate NonZeroLengths(es: seq<Element>)
  {
    forall i :: 0 <= i < |es| ==> es[i].otuLen != 0.0
  }

  /** The value cell (r, c) ends with after the cell writes of `es` over a table pre-filled with `floor`. */
  function Cell(es: seq<Element>, r: nat, c: nat, floor: real): (v: real)
    requires NonZeroLengths(es)
    ensures v == floor || exists i :: 0 <= i < |es| && es[i].otuIndex == r && es[i].sampleIndex == c && v == NormalizeCount(es[i])
  {
    if es == [] then floor
    else
      var e := es[|es| - 1];
      if e.otuIndex == r && e.sampleIndex == c then NormalizeCount(e)
      else
        var v := Cell(es[..|es| - 1], r, c, floor);
        assert forall i :: 0 <= i < |es| - 1 ==> es[..|es| - 1][i] == es[i];
        v
  }

  /** Column `c` of the assembled table, before the CLR transform. */
  function TableColumn(es: seq<Element>, rows: nat, c: nat, floor: real): (col: seq<real>)
    requires NonZeroLengths(es)
    ensures |col| == rows && forall r :: 0 <= r < rows ==> col[r] == Cell(es, r, c, floor)
  {
    seq(rows, r requires 0 <= r < rows => Cell(es, r, c, floor))
  }

  /** coda.cpp:119: a cell no element addresses keeps the pre-fill value. */
  lemma {:induction false} UnaddressedCellKeepsFloor(es: seq<Element>, r: nat, c: nat, floor: real)
    requires NonZeroLengths(es)
    requires forall i :: 0 <= i < |es| ==> es[i].otuIndex != r || es[i].sampleIndex != c
    ensures Cell(es, r, c, floor) == floor
  {
    if es != [] {
      UnaddressedCellKeepsFloor(es[..|es| - 1], r, c, floor);
    }
  }

  /** coda.cpp:126-130: a cell holds the normalised count of the last element addressing it; nothing is summed. */
  lemma {:induction false} LastWriteWins(es: seq<Element>, k: nat, r: nat, c: nat, floor: real)
    requires NonZeroLengths(es) && k < |es|
    requires es[k].otuIndex == r && es[k].sampleIndex == c
    requires forall i :: k < i < |es| ==> es[i].otuIndex != r || es[i].sampleIndex != c
    ensures Cell(es, r, c, floor) == NormalizeCount(es[k])
  {
    if k < |es| - 1 {
      LastWriteWins(es[..|es| - 1], k, r, c, floor);
    }
  }

  /** With a positive pre-fill and positive counts and lengths, every cell entering the CLR is positive. */
  lemma {:induction false} CellsPositive(es: seq<Element>, r: nat, c: nat, floor: real)
    requires NonZeroLengths(es) && floor > 0.0
    requires forall i :: 0 <= i < |es| ==> es[i].count > 0.0 && es[i].otuLen > 0.0
    ensures Cell(es, r, c, floor) > 0.0
  {
    if es != [] {
      CellsPositive(es[..|es| - 1], r, c, floor);
    }
  }

  /** With zero replacement, a parsed count that is not negative is positive, so it keeps the cells positive. */
  lemma {:induction false} ReadAllCountsPositive(lines: seq<string>, parseFloat: FloatParser, parseInt: IntParser)
    requires ReadAll(lines, parseFloat, parseInt).Success?
    requires forall s :: parseInt(s).Some? ==> parseInt(s).value >= 0
    ensures var es := ReadAll(lines, parseFloat, parseInt).value.elements;
      forall i :: 0 <= i < |es| ==> es[i].count > 0.0
  {
    if lines != [] {
      var init := lines[..|lines| - 1];
      ReadAllCountsPositive(init, parseFloat, parseInt);
      var st := ReadAll(init, parseFloat, parseInt).value;
      var slots := Fill(st.slots, Tokens(lines[|lines| - 1], Tab));
      var parsed := ParseDataLine(slots, true, parseFloat, parseInt);
      assert ReadAll(lines, parseFloat, parseInt).value == Accept(st, slots, parsed.value);
      AcceptKeepsCountsPositive(st, slots, parsed.value);
    }
  }

  /** Taking in an element with a positive count keeps every count positive. */
  lemma AcceptKeepsCountsPositive(st: Reader, slots: seq<string>, parsed: Element)
    requires forall i :: 0 <= i < |st.elements| ==> st.elements[i].count > 0.0
    requires parsed.count > 0.0
    ensures var es := Accept(st, slots, parsed).elements;
      forall i :: 0 <= i < |es| ==> es[i].count > 0.0
  {
  }

  /**
   * coda.cpp:119, 126-130: the table of `rows` OTUs by `cols` samples, filled
   * with `floor` and then written once per element, in order.
   */
  method AssembleTable(rows: nat, cols: nat, es: seq<Element>, floor: real) returns (table: array2<real>)
    requires NonZeroLengths(es)
    requires forall i :: 0 <= i < |es| ==> es[i].otuIndex < rows && es[i].sampleIndex < cols
    ensures fresh(table) && table.Length0 == rows && table.Length1 == cols
    ensures forall r, c :: 0 <= r < rows && 0 <= c < cols ==> table[r, c] == Cell(es, r, c, floor)
  {
    table := new real[rows, cols]((_, _) => floor);
    for k := 0 to |es|
      invariant forall r, c :: 0 <= r < rows && 0 <= c < cols ==> table[r, c] == Cell(es[..k], r, c, floor)
    {
      assert es[..k + 1][..k] == es[..k];
      var e := es[k];
      table[e.otuIndex, e.sampleIndex] := NormalizeCount(e);
    }
    assert es[..|es|] == es;
  }

  /**
   * coda.cpp:77-95: one pass of the reading loop. The line is split into the
   * reused token array and parsed; the element is counted, registered,
   * indexed and appended.
   */
  method ReadLineInto(tokens: array<string>, st: Reader, line: string, parseFloat: FloatParser, parseInt: IntParser)
    returns (r: Result<Reader, IngestError>)
    requires tokens.Length == FieldCount && st.slots == tokens[..]
    modifies tokens
    ensures r == ReadLine(st, line, parseFloat, parseInt)
    ensures r.Success? ==> r.value.slots == tokens[..]
  {
    var fits := SplitInto(tokens, line, Tab);
    if !fits {
      return Failure(TooManyFields);
    }
    var parsed := ParseDataLine(tokens[..], true, parseFloat, parseInt);
    if parsed.Failure? {
      return Failure(BadNumber(parsed.error));
    }
    ghost var accepted := Accept(st, tokens[..], parsed.value);
    assert ReadLine(st, line, parseFloat, parseInt) == Success(accepted);
    var element := parsed.value;
    var zeroCounts := st.zeroCounts;
    if element.count < 1.0 {
      zeroCounts := zeroCounts + 1;
    }
    var sampleIndex := Register(st.sampleIndex, element.sample);
    var otuIndex := Register(st.otuIndex, element.otu);
    element := element.(sampleIndex := sampleIndex[element.sample], otuIndex := otuIndex[element.otu]);
    r := Success(Reader(tokens[..], sampleIndex, otuIndex, st.elements + [element], zeroCounts));
    assert r.value == accepted;
  }

  /** coda.cpp:76-96: the reading loop, with the one token array reused for every line. */
  method Ingest(lines: seq<string>, parseFloat: FloatParser, parseInt: IntParser)
    returns (r: Result<Reader, IngestError>)
    ensures r == ReadAll(lines, parseFloat, parseInt)
  {
    var tokens := new string[FieldCount](_ => "");
    var st := Start();
    assert tokens[..] == st.slots;
    var i := 0;
    while i < |lines|
      invariant i <= |lines|
      invariant ReadAll(lines[..i], parseFloat, parseInt) == Success(st)
      invariant tokens.Length == FieldCount && st.slots == tokens[..]
    {
      ReadAllNext(lines, i, parseFloat, parseInt);
      var next := ReadLineInto(tokens, st, lines[i], parseFloat, parseInt);
      if next.Failure? {
        FailureIsFinal(lines, i + 1, parseFloat, parseInt);
        return next;
      }
      st := next.value;
      i := i + 1;
    }
    assert lines[..i] == lines;
    return Success(st);
  }

  /** What one run hands to its output stage: the reverse tables, the CLR table and the distances. */
  datatype Outcome = Outcome(
    indexToSample: map<nat, string>,
    indexToOtu: map<nat, string>,
    clr: array2<real>,
    distances: array2<real>)

  /**
   * The outcome of a run over the reading state `st` with pre-fill `floor`:
   * the reverse tables invert the indexes, the CLR table is the per-column
   * CLR of the assembled table, and the distances are those between its
   * columns.
   */
  ghost predicate Produced(o: Outcome, st: Reader, floor: real, log: real -> real, sqrt: SqrtFunction)
    requires NonZeroLengths(st.elements)
    reads o.clr, o.distances
  {
    && Inverts(o.indexToSample, st.sampleIndex)
    && Inverts(o.indexToOtu, st.otuIndex)
    && o.clr.Length0 == |st.otuIndex| && o.clr.Length1 == |st.sampleIndex|
    && (forall c :: 0 <= c < o.clr.Length1 ==>
          Column(o.clr, c) == Clr(TableColumn(st.elements, |st.otuIndex|, c, floor), log))
    && o.distances.Length0 == o.clr.Length1 && o.distances.Length1 == o.clr.Length1
    && (forall p, q :: 0 <= p < o.clr.Length1 && 0 <= q < o.clr.Length1 ==>
          o.distances[p, q] == if p == q then 0.0 else Distance(Column(o.clr, p), Column(o.clr, q), sqrt))
  }

  /**
   * coda.cpp:76-169 with the table pre-filled with `floor`: read, build the
   * reverse tables, assemble, transform and compute the column distances.
   */
  method Run(lines: seq<string>, parseFloat: FloatParser, parseInt: IntParser, floor: real,
             log: real -> real, sqrt: SqrtFunction)
    returns (r: Result<Outcome, IngestError>)
    requires ReadAll(lines, parseFloat, parseInt).Success? ==>
      NonZeroLengths(ReadAll(lines, parseFloat, parseInt).value.elements)
    ensures ReadAll(lines, parseFloat, parseInt).Failure? ==>
      r == Failure(ReadAll(lines, parseFloat, parseInt).error)
    ensures ReadAll(lines, parseFloat, parseInt).Success? ==>
      r.Success? && Produced(r.value, ReadAll(lines, parseFloat, parseInt).value, floor, log, sqrt)
    ensures r.Success? ==> fresh(r.value.clr) && fresh(r.value.distances) && r.value.clr != r.value.distances
  {
    var read := Ingest(lines, parseFloat, parseInt);
    if read.Failure? {
      return Failure(read.error);
    }
    var st := read.value;
    ReadAllIndexesDense(lines, parseFloat, parseInt);
    var indexToSample := BuildLookup(st.sampleIndex);
    var indexToOtu := BuildLookup(st.otuIndex);
    var table := AssembleTable(|st.otuIndex|, |st.sampleIndex|, st.elements, floor);
    forall c | 0 <= c < table.Length1
      ensures Column(table, c) == TableColumn(st.elements, |st.otuIndex|, c, floor)
    {
    }
    ClrInPlace(table, log);
    var distances := ColwiseDistance(table, sqrt);
    return Success(Outcome(indexToSample, indexToOtu, table, distances));
  }

  /** coda.cpp:76-169: a run with the table pre-filled with the pseudo-count. */
  method Analyse(lines: seq<string>, parseFloat: FloatParser, parseInt: IntParser, log: real -> real, sqrt: SqrtFunction)
    returns (r: Result<Outcome, IngestError>)
    requires ReadAll(lines, parseFloat, parseInt).Success? ==>
      NonZeroLengths(ReadAll(lines, parseFloat, parseInt).value.elements)
    ensures ReadAll(lines, parseFloat, parseInt).Failure? ==>
      r == Failure(ReadAll(lines, parseFloat, parseInt).error)
    ensures ReadAll(lines, parseFloat, parseInt).Success? ==>
      r.Success? && Produced(r.value, ReadAll(lines, parseFloat, parseInt).value, ZeroReplacement, log, sqrt)
    ensures r.Success? ==> fresh(r.value.clr) && fresh(r.value.distances) && r.value.clr != r.value.distances
  {
    r := Run(lines, parseFloat, parseInt, ZeroReplacement, log, sqrt);
  }
}
