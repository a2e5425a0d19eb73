/**
 * The value-level meaning of addPatientsFromFile: the import file as a
 * sequence of lines, folded line by line over the map of records with a
 * 1-based line counter and a list of line-numbered errors.
 */
module ImportSpec {
  import opened Wrappers
  import opened JavaText
  import opened Patients
  import opened CollectionCodec

  datatype ImportError = FormatError(line: int) | DuplicateId(line: int, id: string)

  /** The text appended to the report for one error. */
  function Message(e: ImportError): (s: string)
    ensures |s| > 0 && s[|s| - 1] == '\n'
  {
    match e
    case FormatError(n) =>
      "**Error** - Line " + IntToString(n)
      + " - Format Error - line contains incorrect number of data elements.\n"
    case DuplicateId(n, id) =>
      "**Error** - Line " + IntToString(n) + " - Patient id, " + id + ", already exists in record.\n"
  }

  /** The report string: the messages one after another; "" means no error. */
  function Report(es: seq<ImportError>): (r: string)
    ensures r == "" <==> es == []
    ensures es != [] ==> r[|r| - 1] == '\n'
  {
    if es == [] then "" else Report(es[..|es| - 1]) + Message(es[|es| - 1])
  }

  lemma ReportSnoc(es: seq<ImportError>, e: ImportError)
    ensures Report(es + [e]) == Report(es) + Message(e)
  {
    assert (es + [e])[..|es|] == es;
  }

  lemma ReportEmptyIffNoErrors(es: seq<ImportError>)
    ensures Report(es) == "" <==> es == []
  {
    if es != [] {
      assert |Report(es)| >= |Message(es[|es| - 1])| > 0;
    }
  }

  /** A full protein vector, as a line of an import file carries. */
  type ProteinVector = ps: seq<real> | |ps| == Proteins witness seq(Proteins, i => 0.0)

  /**
   * What the loop body finds in one line: a wrong field count, or an id with
   * its protein values (None when one of them is not a number). The values are
   * only looked at when the id is new, as in the source.
   */
  datatype Line = WrongFieldCount | Candidate(id: string, proteins: Option<ProteinVector>)

  /** Splits a line of the import file and parses its 4776 protein fields. */
  function ReadLine(line: string, parse: string -> Option<real>): (r: Line)
    ensures r.WrongFieldCount? <==> |Split(line)| != NewPatientFields
    ensures r.Candidate? ==>
      && r.id == Split(line)[0]
      && (r.proteins.Some? <==> ParseAll(Split(line)[1..], parse).Some?)
  {
    var f := Split(line);
    if |f| != NewPatientFields then WrongFieldCount
    else
      match ParseAll(f[1..], parse)
      case None => Candidate(f[0], None)
      case Some(ps) => Candidate(f[0], Some(ps))
  }

  function ReadLines(lines: seq<string>, parse: string -> Option<real>): (r: seq<Line>)
    ensures |r| == |lines|
  {
    if lines == [] then [] else ReadLines(lines[..|lines| - 1], parse) + [ReadLine(lines[|lines| - 1], parse)]
  }

  lemma {:induction false} ReadLinesAt(lines: seq<string>, parse: string -> Option<real>, i: int)
    requires 0 <= i < |lines|
    ensures ReadLines(lines, parse)[i] == ReadLine(lines[i], parse)
  {
    if i < |lines| - 1 {
      ReadLinesAt(lines[..|lines| - 1], parse, i);
    }
  }

  /** The variables of the import loop: the map, the errors so far, lineCount, and whether an exception ended it. */
  datatype ImportState = ImportState(records: map<string, Record>, errors: seq<ImportError>,
                                     lineCount: int, aborted: bool)

  /**
   * One pass of the loop body. A wrong field count is a format error; a known
   * id is a duplicate error; otherwise a new patient is put. A protein field
   * that does not parse throws, which leaves the loop for good (the catch block).
   */
  function Apply(st: ImportState, l: Line): (r: ImportState)
    ensures forall k :: k in st.records ==> k in r.records && r.records[k] == st.records[k]
    ensures r.aborted ==> r.records == st.records && r.errors == st.errors
    ensures !r.aborted ==> r.lineCount == st.lineCount + 1 && st.errors <= r.errors && |r.errors| <= |st.errors| + 1
  {
    if st.aborted then st
    else
      match l
      case WrongFieldCount =>
        st.(errors := st.errors + [FormatError(st.lineCount)], lineCount := st.lineCount + 1)
      case Candidate(id, ps) =>
        if id in st.records then
          st.(errors := st.errors + [DuplicateId(st.lineCount, id)], lineCount := st.lineCount + 1)
        else if ps.None? then
          st.(aborted := true)
        else
          st.(records := st.records[id := ImportedRecord(id, ps.value)], lineCount := st.lineCount + 1)
  }

  /** The loop over lines already read, starting from the records `m`. */
  function Run(m: map<string, Record>, ls: seq<Line>): ImportState {
    if ls == [] then ImportState(m, [], 1, false)
    else Apply(Run(m, ls[..|ls| - 1]), ls[|ls| - 1])
  }

  /** addPatientsFromFile over the lines of an import file. */
  function Import(m: map<string, Record>, lines: seq<string>, parse: string -> Option<real>): (r: ImportState)
    ensures forall k :: k in m ==> k in r.records && r.records[k] == m[k]
    ensures forall k :: k in r.records && k !in m ==> IsImported(k, r.records[k])
  {
    RunKeepsExisting(m, ReadLines(lines, parse));
    RunAddsImported(m, ReadLines(lines, parse));
    Run(m, ReadLines(lines, parse))
  }

  /** The loop's variables after the first n lines of the file, read one at a time. */
  function ImportPrefix(m: map<string, Record>, lines: seq<string>, parse: string -> Option<real>, n: nat): ImportState
    requires n <= |lines|
  {
    if n == 0 then ImportState(m, [], 1, false)
    else Apply(ImportPrefix(m, lines, parse, n - 1), ReadLine(lines[n - 1], parse))
  }

  lemma {:induction false} ImportPrefixRun(m: map<string, Record>, lines: seq<string>, parse: string -> Option<real>, n: nat)
    requires n <= |lines|
    ensures ImportPrefix(m, lines, parse, n) == Run(m, ReadLines(lines, parse)[..n])
  {
    if n > 0 {
      ImportPrefixRun(m, lines, parse, n - 1);
      RunSnoc(m, ReadLines(lines, parse), n - 1);
      ReadLinesAt(lines, parse, n - 1);
    }
  }

  /** Reading every line one at a time is the import. */
  lemma ImportPrefixAll(m: map<string, Record>, lines: seq<string>, parse: string -> Option<real>)
    ensures ImportPrefix(m, lines, parse, |lines|) == Import(m, lines, parse)
  {
    ImportPrefixRun(m, lines, parse, |lines|);
    assert ReadLines(lines, parse)[..|lines|] == ReadLines(lines, parse);
  }

  /** Once an exception has ended the loop, the import is what was done before it. */
  lemma ImportPrefixAborted(m: map<string, Record>, lines: seq<string>, parse: string -> Option<real>, n: nat)
    requires n <= |lines| && ImportPrefix(m, lines, parse, n).aborted
    ensures Import(m, lines, parse) == ImportPrefix(m, lines, parse, n)
  {
    var ls := ReadLines(lines, parse);
    ImportPrefixRun(m, lines, parse, n);
    AbortedRunStays(m, ls[..n], ls[n..]);
    assert ls[..n] + ls[n..] == ls;
  }

  /** How ReadLine classifies a line, in terms of its fields. */
  lemma ReadLineCases(line: string, parse: string -> Option<real>)
    ensures var l, f := ReadLine(line, parse), Split(line);
      && (|f| != NewPatientFields <==> l.WrongFieldCount?)
      && (|f| == NewPatientFields ==>
            && l.id == f[0]
            && (l.proteins.None? <==> ParseAll(f[1..], parse).None?)
            && (l.proteins.Some? ==> l.proteins.value == ParseAll(f[1..], parse).value))
  {
  }

  lemma RunSnoc(m: map<string, Record>, ls: seq<Line>, i: int)
    requires 0 <= i < |ls|
    ensures Run(m, ls[..i + 1]) == Apply(Run(m, ls[..i]), ls[i])
  {
    assert ls[..i + 1][..i] == ls[..i];
  }

  /** Until an exception ends it, the counter is one past the number of lines read. */
  lemma {:induction false} RunLineCount(m: map<string, Record>, ls: seq<Line>)
    requires !Run(m, ls).aborted
    ensures Run(m, ls).lineCount == |ls| + 1
  {
    if ls != [] {
      RunLineCount(m, ls[..|ls| - 1]);
    }
  }

  lemma {:induction false} AbortedRunStays(m: map<string, Record>, ls: seq<Line>, more: seq<Line>)
    requires Run(m, ls).aborted
    ensures Run(m, ls + more) == Run(m, ls)
  {
    if more != [] {
      var init := more[..|more| - 1];
      AbortedRunStays(m, ls, init);
      assert (ls + more)[..|ls + more| - 1] == ls + init;
    } else {
      assert ls + more == ls;
    }
  }

  /**
   * What reading one more line does, with n = |ls| + 1 its 1-based number:
   * a wrong field count adds exactly one format error for line n; a known id
   * adds one duplicate error for line n naming that id and keeps the stored
   * record; a new id with numeric fields adds the imported patient; a field
   * that is not a number ends the import, so no later line changes anything.
   */
  lemma ImportNextLine(m: map<string, Record>, ls: seq<Line>, line: string, more: seq<Line>,
                       parse: string -> Option<real>)
    requires !Run(m, ls).aborted
    ensures var before, after, f := Run(m, ls), Run(m, ls + [ReadLine(line, parse)]), Split(line);
      && (|f| != NewPatientFields ==>
            && after.records == before.records
            && after.errors == before.errors + [FormatError(|ls| + 1)]
            && !after.aborted)
      && (|f| == NewPatientFields && f[0] in before.records ==>
            && after.records == before.records
            && after.errors == before.errors + [DuplicateId(|ls| + 1, f[0])]
            && !after.aborted)
      && (|f| == NewPatientFields && f[0] !in before.records && ParseAll(f[1..], parse).Some? ==>
            && after.records == before.records[f[0] := ImportedRecord(f[0], ParseAll(f[1..], parse).value)]
            && after.errors == before.errors
            && !after.aborted)
      && (|f| == NewPatientFields && f[0] !in before.records && ParseAll(f[1..], parse).None? ==>
            var rest := Run(m, ls + [ReadLine(line, parse)] + more);
            rest.records == before.records && rest.errors == before.errors)
  {
    var l := ReadLine(line, parse);
    RunLineCount(m, ls);
    assert (ls + [l])[..|ls|] == ls;
    if Run(m, ls + [l]).aborted {
      AbortedRunStays(m, ls + [l], more);
    }
  }

  /** Records already present are never replaced: the original wins over a duplicate. */
  lemma {:induction false} RunKeepsExisting(m: map<string, Record>, ls: seq<Line>)
    ensures forall k :: k in m ==> k in Run(m, ls).records && Run(m, ls).records[k] == m[k]
  {
    if ls != [] {
      RunKeepsExisting(m, ls[..|ls| - 1]);
    }
  }

  /**
   * Every record the import adds is a new patient: filed under its own id,
   * with 4776 proteins, response "unk" and the prediction from proteins 3698
   * and 3259.
   */
  predicate IsImported(id: string, rec: Record) {
    |rec.proteins| == Proteins && rec == ImportedRecord(id, rec.proteins)
  }

  lemma {:induction false} RunAddsImported(m: map<string, Record>, ls: seq<Line>)
    ensures forall k :: k in Run(m, ls).records && k !in m ==> IsImported(k, Run(m, ls).records[k])
  {
    if ls != [] {
      var init := ls[..|ls| - 1];
      var l := ls[|ls| - 1];
      RunAddsImported(m, init);
      var st := Run(m, init);
      if !st.aborted && l.Candidate? && l.id !in st.records && l.proteins.Some? {
        var rec := ImportedRecord(l.id, l.proteins.value);
        assert Run(m, ls).records == st.records[l.id := rec];
        assert IsImported(l.id, rec);
      } else {
        assert Run(m, ls).records == st.records;
      }
    }
  }

  /** So an import keeps a well-formed store well formed. */
  lemma RunKeepsWellFormed(m: map<string, Record>, ls: seq<Line>)
    requires WellFormed(m)
    ensures WellFormed(Run(m, ls).records)
  {
    RunAddsImported(m, ls);
    RunKeepsExisting(m, ls);
  }

  /** The errors name lines 1 to |ls|, each at most once, in increasing order. */
  lemma {:induction false} RunErrorsOrdered(m: map<string, Record>, ls: seq<Line>)
    ensures var es := Run(m, ls).errors;
      && (forall i :: 0 <= i < |es| ==> 1 <= es[i].line <= |ls|)
      && (forall i, j :: 0 <= i < j < |es| ==> es[i].line < es[j].line)
      && (forall i :: 0 <= i < |es| ==> es[i].line < Run(m, ls).lineCount)
  {
    if ls != [] {
      var init := ls[..|ls| - 1];
      RunErrorsOrdered(m, init);
      if !Run(m, init).aborted {
        RunLineCount(m, init);
      }
    }
  }
}
