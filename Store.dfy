/**
 * PatientCollection: the keyed store of patients. `patientMap` maps each id
 * to the patient object filed under it and is changed in place by put and
 * remove; the ghost field `records` is the value it denotes, and the value-level modules
 * CollectionCodec and ImportSpec say what loading and importing do to it.
 * File contents are sequences of lines; Double text conversions are the
 * parameters `show` and `parse`.
 */
module Store {
  import opened Wrappers
  import opened JavaText
  import opened Patients
  import opened CollectionCodec
  import opened ImportSpec

  /** The rendering of every record in the iteration order `order`, one after another. */
  function RenderAll(m: map<string, Record>, order: seq<string>, show: real -> string): (r: string)
    requires forall i :: 0 <= i < |order| ==> order[i] in m && |m[order[i]].proteins| >= Protein1
    ensures r == "" <==> order == []
    ensures order != [] ==> r[|r| - 1] == '\n'
  {
    if order == [] then ""
    else RenderAll(m, order[..|order| - 1], show) + Render(m[order[|order| - 1]], show)
  }

  lemma RenderAllSnoc(m: map<string, Record>, order: seq<string>, key: string, show: real -> string)
    requires forall i :: 0 <= i < |order| ==> order[i] in m && |m[order[i]].proteins| >= Protein1
    requires key in m && |m[key].proteins| >= Protein1
    ensures RenderAll(m, order + [key], show) == RenderAll(m, order, show) + Render(m[key], show)
  {
    assert (order + [key])[..|order|] == order;
  }

  /** toString prints exactly one line per patient when no printed part holds a line break. */
  lemma {:induction false} RenderAllLines(m: map<string, Record>, order: seq<string>, show: real -> string)
    requires forall i :: 0 <= i < |order| ==> order[i] in m && |m[order[i]].proteins| >= Protein1
    requires forall i :: 0 <= i < |order| ==> SingleLineParts(m[order[i]], show)
    ensures LineBreaks(RenderAll(m, order, show)) == |order|
  {
    if order != [] {
      var init := order[..|order| - 1];
      RenderAllLines(m, init, show);
      RenderIsOneLine(m[order[|order| - 1]], show);
      LineBreaksAppend(RenderAll(m, init, show), Render(m[order[|order| - 1]], show));
    }
  }

  /** The values of the keys, in the order they were visited; every key must parse. */
  ghost function KeyValues(order: seq<string>): (vs: seq<int>)
    requires forall i :: 0 <= i < |order| ==> ParseInt(order[i]).Some?
    ensures |vs| == |order|
  {
    seq(|order|, i requires 0 <= i < |order| => ParseInt(order[i]).value)
  }

  /** Every value in `values` is the value of some key in `order`. */
  lemma ValueOfSomeKey(order: seq<string>, values: seq<int>, j: int) returns (i: int)
    requires forall i :: 0 <= i < |order| ==> ParseInt(order[i]).Some?
    requires multiset(values) == multiset(KeyValues(order))
    requires 0 <= j < |values|
    ensures 0 <= i < |order| && ParseInt(order[i]) == Some(values[j])
  {
    assert values[j] in multiset(KeyValues(order));
    i :| 0 <= i < |order| && KeyValues(order)[i] == values[j];
  }

  /**
   * When every id is in canonical form (as ""+i prints it), the listed ids
   * are exactly the keys, each parses to the value it was printed from, and
   * they come in increasing numeric order.
   */
  lemma ListedIdsAreKeys(order: seq<string>, values: seq<int>, ids: seq<string>)
    requires forall i :: 0 <= i < |order| ==> ParseInt(order[i]).Some?
    requires forall i :: 0 <= i < |order| ==> IsCanonicalInt(order[i])
    requires SortedAsc(values) && multiset(values) == multiset(KeyValues(order))
    requires |ids| == |values| && forall i :: 0 <= i < |ids| ==> ids[i] == IntToString(values[i])
    ensures forall k :: k in order <==> k in ids
    ensures forall i :: 0 <= i < |ids| ==> ParseInt(ids[i]) == Some(values[i])
    ensures forall i, j :: 0 <= i < j < |ids| ==> ParseInt(ids[i]).value <= ParseInt(ids[j]).value
  {
    forall j | 0 <= j < |ids| ensures ParseInt(ids[j]) == Some(values[j]) && ids[j] in order {
      var i := ValueOfSomeKey(order, values, j);
      ParseIntToString(values[j]);
      assert order[i] == ids[j];
    }
    forall k | k in order ensures k in ids {
      var i :| 0 <= i < |order| && order[i] == k;
      var v := KeyValues(order)[i];
      assert v in multiset(values);
      var j :| 0 <= j < |values| && values[j] == v;
      assert ids[j] == k;
    }
  }

  /**
   * A for-each over a key set part-way through: `left` are the keys still to
   * visit, `order` the keys visited so far, each once.
   */
  ghost predicate Visiting(all: set<string>, left: set<string>, order: seq<string>) {
    && left <= all
    && (forall k :: k in all ==> (k in left <==> k !in order))
    && (forall i :: 0 <= i < |order| ==> order[i] in all)
    && (forall i, j :: 0 <= i < j < |order| ==> order[i] != order[j])
  }

  lemma VisitNext(all: set<string>, left: set<string>, order: seq<string>, k: string)
    requires Visiting(all, left, order) && k in left
    ensures Visiting(all, left - {k}, order + [k])
  {
  }

  lemma VisitDone(all: set<string>, order: seq<string>)
    requires Visiting(all, {}, order)
    ensures Enumerates(order, all)
  {
  }

  /**
   * The loop that parses the 4776 protein fields from position `from` into a
   * protein list; None is the exception raised by a missing field or a bad
   * number.
   */
  method ParseProteins(fields: seq<string>, from: nat, parse: string -> Option<real>)
    returns (r: Option<seq<real>>)
    ensures r == if from + Proteins <= |fields| then ParseAll(fields[from..from + Proteins], parse) else None
  {
    var proteinList: seq<real> := [];
    var i := from;
    while i < from + Proteins
      invariant from <= i <= from + Proteins
      invariant i == from || i <= |fields|
      invariant i <= |fields| ==> ParseAll(fields[from..i], parse) == Some(proteinList)
    {
      if i >= |fields| {
        return None;
      }
      var d := parse(fields[i]);
      if d.None? {
        if from + Proteins <= |fields| {
          assert fields[from..from + Proteins][i - from] == fields[i];
        }
        return None;
      }
      assert fields[from..i + 1][..i - from] == fields[from..i];
      proteinList := proteinList + [d.value];
      i := i + 1;
    }
    assert fields[from..from + Proteins] == fields[from..i];
    r := Some(proteinList);
  }

  /** The second loop of getIds: ""+i of every value, in order. */
  method ShowAll(xs: seq<int>) returns (ss: seq<string>)
    ensures |ss| == |xs| && forall i :: 0 <= i < |xs| ==> ss[i] == IntToString(xs[i])
  {
    ss := [];
    var j := 0;
    while j < |xs|
      invariant 0 <= j <= |xs|
      invariant |ss| == j && forall t :: 0 <= t < j ==> ss[t] == IntToString(xs[t])
    {
      ss := ss + [IntToString(xs[j])];
      j := j + 1;
    }
  }

  class PatientCollection {
    var patientMap: map<string, Patient>
    /** The records the store holds, by id: the current value of each patient object. */
    ghost var records: map<string, Record>

    /**
     * Each patient is filed under its own id and has a full protein vector,
     * and `records` holds their current values.
     */
    ghost predicate Valid()
      reads this, patientMap.Values
    {
      && (forall k :: k in patientMap ==> patientMap[k].id == k && |patientMap[k].proteins| == Proteins)
      && records == map k | k in patientMap :: patientMap[k].Value()
    }

    /**
     * Builds the collection from the lines of a saved collection file
     * (readFile): every readable line is put under its id, a later line
     * replacing an earlier one; the first unreadable line ends the read and
     * keeps what was read before it.
     */
    constructor (lines: seq<string>, parse: string -> Option<real>)
      ensures Valid()
      ensures records == Load(lines, parse).records
    {
      patientMap, records := map[], map[];
      new;
      ghost var st := LoadPrefix(lines, parse, 0);
      var i := 0;
      while i < |lines|
        invariant 0 <= i <= |lines|
        invariant Valid()
        invariant st == LoadPrefix(lines, parse, i)
        invariant !st.aborted && st.records == records
      {
        var stop := LoadLine(lines[i], parse, st, DecodeLine(lines[i], parse));
        if stop {
          LoadPrefixAborted(lines, parse, i + 1);
          return;
        }
        st := LoadStep(st, DecodeLine(lines[i], parse));
        i := i + 1;
      }
      LoadPrefixAll(lines, parse);
    }

    /**
     * The body of readFile's loop for one line: `stop` is the exception a
     * short line or a bad protein value raises. `st` is the loop's state
     * before the line.
     */
    method LoadLine(line: string, parse: string -> Option<real>, ghost st: LoadState, ghost rec: Option<Record>)
      returns (stop: bool)
      requires Valid() && !st.aborted && st.records == records
      requires rec == DecodeLine(line, parse)
      modifies this
      ensures Valid()
      ensures var next := LoadStep(st, rec);
        && stop == next.aborted
        && records == next.records
    {
      var patientData := Split(line);
      var proteinList := ParseProteins(patientData, 3, parse);
      if proteinList.None? {
        return true;
      }
      var p := new Patient.FromPersisted(patientData[2], patientData[0], patientData[1], proteinList.value);
      Put(p);
      stop := false;
    }

    /** The patient filed under `id`, or null. */
    function GetPatient(id: string): (p: Patient?)
      reads this, patientMap.Values
      requires Valid()
      ensures p != null <==> id in records
      ensures p != null ==> p == patientMap[id] && p.id == id && p.Value() == records[id]
    {
      if id in patientMap then patientMap[id] else null
    }

    /**
     * patientMap.put(p.id, p) for a patient object not already in the store:
     * the record is filed under its id and every other entry stays.
     */
    method Put(p: Patient)
      requires Valid() && |p.proteins| == Proteins
      requires forall k :: k in patientMap ==> patientMap[k] != p
      modifies this
      ensures Valid()
      ensures patientMap == old(patientMap)[p.id := p]
      ensures records == old(records)[p.id := p.Value()]
    {
      patientMap := patientMap[p.id := p];
      records := records[p.id := p.Value()];
    }

    /** Removes and returns the patient filed under `id`; null, and no change, when there is none. */
    method RemovePatient(id: string) returns (p: Patient?)
      requires Valid()
      modifies this
      ensures Valid()
      ensures p == old(GetPatient(id))
      ensures patientMap == old(patientMap) - {id}
      ensures records == old(records) - {id}
      ensures p != null ==> p.Value() == old(records)[id]
    {
      if id in patientMap {
        p := patientMap[id];
        patientMap := patientMap - {id};
        records := records - {id};
        return;
      }
      return null;
    }

    /** Sets the response of the patient filed under `id`; does nothing for an unknown id. */
    method SetResultForPatient(id: string, result: string)
      requires Valid()
      modifies this, patientMap.Values
      ensures Valid()
      ensures patientMap == old(patientMap)
      ensures records == if id in old(records) then old(records)[id := old(records)[id].(response := result)]
                           else old(records)
    {
      if id in patientMap {
        var p := GetPatient(id);
        p.SetResponse(result);
        records := records[id := p.Value()];
      }
    }

    /**
     * getIds: every key parsed with Integer.parseInt, sorted ascending, and
     * printed back with ""+i. None is the NumberFormatException a key that is
     * not a 32-bit decimal raises. `order` is the HashMap's iteration order.
     */
    method GetIds() returns (ids: Option<seq<string>>, ghost order: seq<string>, ghost values: seq<int>)
      ensures ids.None? <==> exists k :: k in patientMap && ParseInt(k).None?
      ensures ids.Some? ==>
        && Enumerates(order, patientMap.Keys)
        && (forall i :: 0 <= i < |order| ==> ParseInt(order[i]).Some?)
        && SortedAsc(values) && multiset(values) == multiset(KeyValues(order))
        && |ids.value| == |values|
        && (forall i :: 0 <= i < |values| ==> ids.value[i] == IntToString(values[i]))
      ensures (forall k :: k in patientMap ==> IsCanonicalInt(k)) ==>
        && ids.Some?
        && (forall k :: k in patientMap <==> k in ids.value)
        && (forall i, j :: 0 <= i < j < |ids.value| ==> ParseInt(ids.value[i]).value <= ParseInt(ids.value[j]).value)
    {
      var arr;
      arr, order := ParseKeys();
      if arr.None? {
        return None, order, [];
      }
      var sorted := SortAsc(arr.value);
      var ar := ShowAll(sorted);
      ids, values := Some(ar), sorted;
      if forall k :: k in patientMap ==> IsCanonicalInt(k) {
        forall i | 0 <= i < |order| ensures IsCanonicalInt(order[i]) {
          assert order[i] in patientMap;
        }
        ListedIdsAreKeys(order, values, ar);
      }
    }

    /** The first loop of getIds: Integer.parseInt of every key, in iteration order. */
    method ParseKeys() returns (arr: Option<seq<int>>, ghost order: seq<string>)
      ensures arr.None? <==> exists k :: k in patientMap && ParseInt(k).None?
      ensures arr.Some? ==>
        && Enumerates(order, patientMap.Keys)
        && (forall i :: 0 <= i < |order| ==> ParseInt(order[i]).Some?)
        && arr.value == KeyValues(order)
    {
      var keys := patientMap.Keys;
      var values: seq<int> := [];
      order := [];
      while keys != {}
        invariant Visiting(patientMap.Keys, keys, order)
        invariant forall i :: 0 <= i < |order| ==> ParseInt(order[i]).Some?
        invariant values == KeyValues(order)
        decreases keys
      {
        var s :| s in keys;
        var v := ParseInt(s);
        if v.None? {
          return None, order;
        }
        values := values + [v.value];
        VisitNext(patientMap.Keys, keys, order, s);
        order := order + [s];
        keys := keys - {s};
      }
      VisitDone(patientMap.Keys, order);
      arr := Some(values);
    }

    /**
     * addPatientsFromFile: imports the lines of a new-patient file as
     * ImportSpec.Import describes, and returns the error report.
     */
    method AddPatientsFromFile(lines: seq<string>, parse: string -> Option<real>) returns (report: string)
      requires Valid()
      modifies this
      ensures Valid()
      ensures records == Import(old(records), lines, parse).records
      ensures report == Report(Import(old(records), lines, parse).errors)
    {
      ghost var m0 := records;
      ghost var st := ImportPrefix(m0, lines, parse, 0);
      var toReturn := "";
      var lineCount := 1;
      var i := 0;
      while i < |lines|
        invariant 0 <= i <= |lines|
        invariant Valid()
        invariant st == ImportPrefix(m0, lines, parse, i)
        invariant !st.aborted && st.records == records && st.lineCount == lineCount
        invariant toReturn == Report(st.errors)
      {
        var message, stop := ImportLine(lines[i], lineCount, parse, st, ReadLine(lines[i], parse));
        if stop {
          ImportPrefixAborted(m0, lines, parse, i + 1);
          return toReturn;
        }
        st := Apply(st, ReadLine(lines[i], parse));
        toReturn := toReturn + message;
        lineCount := lineCount + 1;
        i := i + 1;
      }
      ImportPrefixAll(m0, lines, parse);
      report := toReturn;
    }

    /**
     * The body of addPatientsFromFile's loop for one line: `message` is what
     * it appends to the report, `stop` the exception a bad protein value
     * raises. `st` is the loop's state before the line.
     */
    method ImportLine(line: string, lineCount: int, parse: string -> Option<real>, ghost st: ImportState, ghost l: Line)
      returns (message: string, stop: bool)
      requires Valid() && !st.aborted && st.records == records && st.lineCount == lineCount
      requires l == ReadLine(line, parse)
      modifies this
      ensures Valid()
      ensures var next := Apply(st, l);
        && stop == next.aborted
        && (stop ==> next == st.(aborted := true) && records == st.records)
        && (!stop ==>
              && records == next.records
              && next.lineCount == lineCount + 1
              && Report(next.errors) == Report(st.errors) + message)
    {
      var patientData := Split(line);
      ReadLineCases(line, parse);
      message, stop := "", false;
      if |patientData| != NewPatientFields {
        message := "**Error** - Line " + IntToString(lineCount)
          + " - Format Error - line contains incorrect number of data elements.\n";
        ReportSnoc(st.errors, FormatError(lineCount));
      } else if patientData[0] in patientMap {
        message := "**Error** - Line " + IntToString(lineCount) + " - Patient id, " + patientData[0]
          + ", already exists in record.\n";
        ReportSnoc(st.errors, DuplicateId(lineCount, patientData[0]));
      } else {
        stop := ImportPatient(patientData, parse);
        if stop {
          message := "";
        }
      }
    }

    /**
     * The last branch of that body: a line with a new id and 4776 protein
     * fields becomes a patient built by the import constructor, unless a
     * field is not a number (`stop`).
     */
    method ImportPatient(patientData: seq<string>, parse: string -> Option<real>) returns (stop: bool)
      requires Valid() && |patientData| == NewPatientFields
      modifies this
      ensures Valid()
      ensures stop <==> ParseAll(patientData[1..], parse).None?
      ensures stop ==> records == old(records)
      ensures !stop ==>
        records == old(records)[patientData[0] := ImportedRecord(patientData[0], ParseAll(patientData[1..], parse).value)]
    {
      var proteinList := ParseProteins(patientData, 1, parse);
      assert patientData[1..] == patientData[1..1 + Proteins];
      if proteinList.None? {
        return true;
      }
      var p := new Patient.FromImport(patientData[0], proteinList.value);
      Put(p);
      stop := false;
    }

    /**
     * toString: every patient's text, one after another, in the HashMap's
     * iteration order `order`; one line per patient when no printed part
     * holds a line break.
     */
    method ToString(show: real -> string) returns (s: string, ghost order: seq<string>)
      requires Valid()
      ensures Enumerates(order, patientMap.Keys)
      ensures s == RenderAll(records, order, show)
      ensures (forall k :: k in records ==> SingleLineParts(records[k], show)) ==> LineBreaks(s) == |order|
    {
      var keys := patientMap.Keys;
      var toReturn := "";
      order := [];
      while keys != {}
        invariant Visiting(patientMap.Keys, keys, order)
        invariant toReturn == RenderAll(records, order, show)
        decreases keys
      {
        var key :| key in keys;
        toReturn := ShowNext(key, order, toReturn, show);
        VisitNext(patientMap.Keys, keys, order, key);
        order := order + [key];
        keys := keys - {key};
      }
      VisitDone(patientMap.Keys, order);
      s := toReturn;
      if forall k :: k in records ==> SingleLineParts(records[k], show) {
        RenderAllLines(records, order, show);
      }
    }

    /** The body of toString's loop for one key: the text so far, then that patient's text. */
    method ShowNext(key: string, ghost order: seq<string>, toReturn: string, show: real -> string) returns (t: string)
      requires Valid() && key in patientMap
      requires forall i :: 0 <= i < |order| ==> order[i] in patientMap
      requires toReturn == RenderAll(records, order, show)
      ensures t == RenderAll(records, order + [key], show)
    {
      RenderAllSnoc(records, order, key, show);
      t := toReturn + GetPatient(key).ToString(show);
    }

    /**
     * doWrite: one line per patient in the HashMap's iteration order
     * `order`, holding response, prediction, id and the proteins, each
     * followed by a comma. The file name and the file itself are not modelled;
     * the result is the sequence of lines written.
     */
    method WriteFile(show: real -> string) returns (lines: seq<string>, ghost order: seq<string>)
      requires Valid()
      ensures Enumerates(order, patientMap.Keys)
      ensures lines == EncodeAll(records, order, show)
    {
      var keys := patientMap.Keys;
      lines := [];
      order := [];
      while keys != {}
        invariant Visiting(patientMap.Keys, keys, order)
        invariant lines == EncodeAll(records, order, show)
        decreases keys
      {
        var key :| key in keys;
        var p := GetPatient(key);
        var line := WriteLine(p, show);
        lines := lines + [line];
        VisitNext(patientMap.Keys, keys, order, key);
        order := order + [key];
        keys := keys - {key};
      }
      VisitDone(patientMap.Keys, order);
    }

    /** The body of doWrite's loop for one patient: the three text fields, then every protein. */
    static method WriteLine(p: Patient, show: real -> string) returns (line: string)
      ensures line == EncodeLine(p.Value(), show)
    {
      ghost var fs := LineFields(p.Value(), show);
      line := p.rspns + ",";
      JoinTerminatedSnoc([], p.rspns);
      assert [] + [p.rspns] == fs[..1];
      line := line + p.predRspns + ",";
      JoinTerminatedSnoc(fs[..1], p.predRspns);
      assert fs[..1] + [p.predRspns] == fs[..2];
      line := line + p.id + ",";
      JoinTerminatedSnoc(fs[..2], p.id);
      assert fs[..2] + [p.id] == fs[..3];
      var i := 0;
      while i < |p.proteins|
        invariant 0 <= i <= |p.proteins|
        invariant line == JoinTerminated(fs[..3 + i])
      {
        assert fs[..3 + i + 1] == fs[..3 + i] + [show(p.proteins[i])];
        JoinTerminatedSnoc(fs[..3 + i], show(p.proteins[i]));
        line := line + show(p.proteins[i]) + ",";
        i := i + 1;
      }
      assert fs[..3 + i] == fs;
    }
  }

  /**
   * Removing the same id twice: the first call returns the patient filed
   * under it (or null), the second always returns null.
   */
  method RemoveTwice(c: PatientCollection, id: string) returns (first: Patient?, second: Patient?)
    requires c.Valid()
    modifies c
    ensures c.Valid()
    ensures first == old(c.GetPatient(id)) && second == null
    ensures c.records == old(c.records) - {id}
  {
    first := c.RemovePatient(id);
    second := c.RemovePatient(id);
  }
}
