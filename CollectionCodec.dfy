/**
 * The line formats of the patient collection and the value-level meaning of
 * reading a saved collection. A saved line is
 *   response,prediction,id,protein1,...,protein4776,
 * Doubles cross the text boundary through two parameters: `show`
 * (Double.toString) and `parse` (Double.parseDouble, None for a
 * NumberFormatException).
 */
module CollectionCodec {
  import opened Wrappers
  import opened JavaText
  import opened Patients

  /** Proteins per patient, and fields per line of an import file (id first). */
  const Proteins: nat := 4776
  const NewPatientFields: nat := 4777

  /** The store invariant: each record is filed under its own id and has a full protein vector. */
  predicate WellFormed(m: map<string, Record>) {
    forall k :: k in m ==> m[k].id == k && |m[k].proteins| == Proteins
  }

  /** A field that a line reader keeps on one line. */
  predicate LineFree(s: string) {
    '\n' !in s && '\r' !in s
  }

  /**
   * Each of the values `xs` is printed by `show` as a non-empty field
   * without a comma or a line break, which `parse` reads back as that value.
   */
  predicate TextInverseOn(xs: seq<real>, show: real -> string, parse: string -> Option<real>) {
    forall i :: 0 <= i < |xs| ==>
      && parse(show(xs[i])) == Some(xs[i])
      && show(xs[i]) != "" && CommaFree(show(xs[i])) && LineFree(show(xs[i]))
  }

  /**
   * The loop that turns fields into a protein list: every field must parse,
   * and the list holds the parsed values in order.
   */
  function ParseAll(ts: seq<string>, parse: string -> Option<real>): (r: Option<seq<real>>)
    ensures r.Some? <==> forall i :: 0 <= i < |ts| ==> parse(ts[i]).Some?
    ensures r.Some? ==> |r.value| == |ts| && forall i :: 0 <= i < |ts| ==> parse(ts[i]) == Some(r.value[i])
  {
    if ts == [] then Some([])
    else
      var init := ts[..|ts| - 1];
      assert forall i :: 0 <= i < |init| ==> ts[i] == init[i];
      match ParseAll(init, parse)
      case None => None
      case Some(ps) =>
        match parse(ts[|ts| - 1])
        case None => None
        case Some(v) => Some(ps + [v])
  }

  /** The fields doWrite writes for one patient, in order. */
  function LineFields(rec: Record, show: real -> string): (fs: seq<string>)
    ensures |fs| == 3 + |rec.proteins|
  {
    [rec.response, rec.predicted, rec.id] + seq(|rec.proteins|, i requires 0 <= i < |rec.proteins| => show(rec.proteins[i]))
  }

  /** One line of a saved collection, each field followed by a comma. */
  function EncodeLine(rec: Record, show: real -> string): (line: string)
    ensures |line| > 0 && line[|line| - 1] == ','
  {
    var fs := LineFields(rec, show);
    JoinTerminatedSnoc(fs[..|fs| - 1], fs[|fs| - 1]);
    assert fs[..|fs| - 1] + [fs[|fs| - 1]] == fs;
    JoinTerminated(fs)
  }

  /**
   * readFile's handling of one line: split it, parse fields 3 to 4778 as the
   * proteins, and take response, prediction and id from fields 0, 1 and 2.
   * None is the exception a short line (index out of bounds) or a bad number
   * raises. Fields after the 4779th are ignored.
   */
  function DecodeLine(line: string, parse: string -> Option<real>): (r: Option<Record>)
    ensures r.Some? ==> |Split(line)| >= 3 + Proteins
    ensures r.Some? ==> r.value.id == Split(line)[2] && |r.value.proteins| == Proteins
  {
    var f := Split(line);
    if |f| < 3 + Proteins then None
    else
      match ParseAll(f[3..3 + Proteins], parse)
      case None => None
      case Some(ps) => Some(Record(f[2], f[0], f[1], ps))
  }

  /**
   * A record that survives the saved format: its text fields hold no comma
   * and no line break, it has a full protein vector, and each protein is
   * printed as a field that reads back as the same value.
   */
  predicate Persistable(rec: Record, show: real -> string, parse: string -> Option<real>) {
    && CommaFree(rec.response) && CommaFree(rec.predicted) && CommaFree(rec.id)
    && LineFree(rec.response) && LineFree(rec.predicted) && LineFree(rec.id)
    && |rec.proteins| == Proteins
    && TextInverseOn(rec.proteins, show, parse)
  }

  /** Reading back the line written for a patient gives back the same patient. */
  lemma DecodeEncode(rec: Record, show: real -> string, parse: string -> Option<real>)
    requires Persistable(rec, show, parse)
    ensures DecodeLine(EncodeLine(rec, show), parse) == Some(rec)
  {
    var fs := LineFields(rec, show);
    WrittenFieldsSplit(rec, show, parse);
    SplitTerminated(fs);
    WrittenProteinsParse(rec, show, parse);
  }

  /** The written fields hold no comma and the last one is not empty, so split keeps them all. */
  lemma WrittenFieldsSplit(rec: Record, show: real -> string, parse: string -> Option<real>)
    requires Persistable(rec, show, parse)
    ensures var fs := LineFields(rec, show);
      AllCommaFree(fs) && fs[|fs| - 1] != ""
  {
    var fs := LineFields(rec, show);
    forall i | 0 <= i < |fs| ensures CommaFree(fs[i]) {
      if i >= 3 {
        assert fs[i] == show(rec.proteins[i - 3]);
      }
    }
    assert fs[|fs| - 1] == show(rec.proteins[Proteins - 1]);
  }

  /** The written protein fields parse back to the proteins. */
  lemma WrittenProteinsParse(rec: Record, show: real -> string, parse: string -> Option<real>)
    requires Persistable(rec, show, parse)
    ensures ParseAll(LineFields(rec, show)[3..3 + Proteins], parse) == Some(rec.proteins)
  {
    var tokens := LineFields(rec, show)[3..3 + Proteins];
    forall i | 0 <= i < |tokens| ensures parse(tokens[i]) == Some(rec.proteins[i]) {
      assert tokens[i] == show(rec.proteins[i]);
    }
    var ps := ParseAll(tokens, parse);
    assert ps.Some? && |ps.value| == |rec.proteins|;
    assert ps.value == rec.proteins;
  }

  /** What readFile has built so far; `aborted` once an exception ended the read. */
  datatype LoadState = LoadState(records: map<string, Record>, aborted: bool)

  /** One line of readFile: an exception stops the read, otherwise put (a later id overwrites). */
  function LoadStep(st: LoadState, rec: Option<Record>): (r: LoadState)
    ensures r.aborted <==> st.aborted || rec.None?
    ensures forall k :: k in st.records ==> k in r.records
    ensures forall k :: k in r.records && k !in st.records ==> rec.Some? && k == rec.value.id
  {
    if st.aborted then st
    else
      match rec
      case None => st.(aborted := true)
      case Some(r) => st.(records := st.records[r.id := r])
  }

  /** readFile's loop over lines already decoded, into an empty map. */
  function LoadDecoded(recs: seq<Option<Record>>): LoadState {
    if recs == [] then LoadState(map[], false)
    else LoadStep(LoadDecoded(recs[..|recs| - 1]), recs[|recs| - 1])
  }

  function DecodeLines(lines: seq<string>, parse: string -> Option<real>): (r: seq<Option<Record>>)
    ensures |r| == |lines|
  {
    if lines == [] then [] else DecodeLines(lines[..|lines| - 1], parse) + [DecodeLine(lines[|lines| - 1], parse)]
  }

  lemma {:induction false} DecodeLinesAt(lines: seq<string>, parse: string -> Option<real>, i: int)
    requires 0 <= i < |lines|
    ensures DecodeLines(lines, parse)[i] == DecodeLine(lines[i], parse)
  {
    if i < |lines| - 1 {
      DecodeLinesAt(lines[..|lines| - 1], parse, i);
    }
  }

  /** readFile over the lines of a saved collection, into an empty map. */
  function Load(lines: seq<string>, parse: string -> Option<real>): (r: LoadState)
    ensures WellFormed(r.records)
  {
    LoadLinesWellFormed(lines, parse);
    LoadDecoded(DecodeLines(lines, parse))
  }

  /** Every line that decodes gives a full protein vector, so what is loaded is well formed. */
  lemma LoadLinesWellFormed(lines: seq<string>, parse: string -> Option<real>)
    ensures WellFormed(LoadDecoded(DecodeLines(lines, parse)).records)
  {
    var recs := DecodeLines(lines, parse);
    forall i | 0 <= i < |recs| && recs[i].Some? ensures |recs[i].value.proteins| == Proteins {
      DecodeLinesAt(lines, parse, i);
    }
    LoadWellFormed(recs);
  }

  /** readFile's state after the first n lines of the file, read one at a time. */
  function LoadPrefix(lines: seq<string>, parse: string -> Option<real>, n: nat): LoadState
    requires n <= |lines|
  {
    if n == 0 then LoadState(map[], false)
    else LoadStep(LoadPrefix(lines, parse, n - 1), DecodeLine(lines[n - 1], parse))
  }

  lemma {:induction false} LoadPrefixDecoded(lines: seq<string>, parse: string -> Option<real>, n: nat)
    requires n <= |lines|
    ensures LoadPrefix(lines, parse, n) == LoadDecoded(DecodeLines(lines, parse)[..n])
  {
    if n > 0 {
      var recs := DecodeLines(lines, parse);
      LoadPrefixDecoded(lines, parse, n - 1);
      DecodeLinesAt(lines, parse, n - 1);
      LoadSnoc(recs, n - 1);
    }
  }

  lemma LoadSnoc(recs: seq<Option<Record>>, i: int)
    requires 0 <= i < |recs|
    ensures LoadDecoded(recs[..i + 1]) == LoadStep(LoadDecoded(recs[..i]), recs[i])
  {
    assert recs[..i + 1][..i] == recs[..i];
  }

  /** Reading every line one at a time is the load. */
  lemma LoadPrefixAll(lines: seq<string>, parse: string -> Option<real>)
    ensures LoadPrefix(lines, parse, |lines|) == Load(lines, parse)
  {
    LoadPrefixDecoded(lines, parse, |lines|);
    assert DecodeLines(lines, parse)[..|lines|] == DecodeLines(lines, parse);
  }

  /** Once an exception has ended the read, the load is what was read before it. */
  lemma LoadPrefixAborted(lines: seq<string>, parse: string -> Option<real>, n: nat)
    requires n <= |lines| && LoadPrefix(lines, parse, n).aborted
    ensures Load(lines, parse) == LoadPrefix(lines, parse, n)
  {
    var recs := DecodeLines(lines, parse);
    LoadPrefixDecoded(lines, parse, n);
    AbortedLoadStays(recs[..n], recs[n..]);
    assert recs[..n] + recs[n..] == recs;
  }

  /** Whatever the file holds, what is loaded satisfies the store invariant. */
  lemma {:induction false} LoadWellFormed(recs: seq<Option<Record>>)
    requires forall i :: 0 <= i < |recs| && recs[i].Some? ==> |recs[i].value.proteins| == Proteins
    ensures WellFormed(LoadDecoded(recs).records)
  {
    if recs != [] {
      LoadWellFormed(recs[..|recs| - 1]);
    }
  }

  /**
   * A readable line puts its patient under its id, replacing a patient read
   * earlier with the same id; every other entry is kept. An unreadable line
   * ends the read, so the lines after it are never looked at.
   */
  lemma LoadAppend(recs: seq<Option<Record>>, rec: Option<Record>, more: seq<Option<Record>>)
    requires !LoadDecoded(recs).aborted
    ensures rec.Some? ==>
      LoadDecoded(recs + [rec]) == LoadState(LoadDecoded(recs).records[rec.value.id := rec.value], false)
    ensures rec.None? ==>
      LoadDecoded(recs + [rec] + more) == LoadState(LoadDecoded(recs).records, true)
  {
    assert (recs + [rec])[..|recs|] == recs;
    if rec.None? {
      AbortedLoadStays(recs + [rec], more);
    }
  }

  lemma {:induction false} AbortedLoadStays(recs: seq<Option<Record>>, more: seq<Option<Record>>)
    requires LoadDecoded(recs).aborted
    ensures LoadDecoded(recs + more) == LoadDecoded(recs)
  {
    if more != [] {
      var init := more[..|more| - 1];
      AbortedLoadStays(recs, init);
      assert (recs + more)[..|recs + more| - 1] == recs + init;
    } else {
      assert recs + more == recs;
    }
  }

  /** `order` lists every key of `keys` exactly once: one HashMap iteration. */
  ghost predicate Enumerates(order: seq<string>, keys: set<string>) {
    && (forall i, j :: 0 <= i < j < |order| ==> order[i] != order[j])
    && (forall k :: k in keys <==> k in order)
  }

  /** doWrite's output: one line per key, in the iteration order `order`. */
  function EncodeAll(m: map<string, Record>, order: seq<string>, show: real -> string): (lines: seq<string>)
    requires forall i :: 0 <= i < |order| ==> order[i] in m
    ensures |lines| == |order|
  {
    seq(|order|, i requires 0 <= i < |order| => EncodeLine(m[order[i]], show))
  }

  /** The entries of `m` under the keys `ks`, put in the order they are listed. */
  function Restrict(m: map<string, Record>, ks: seq<string>): map<string, Record>
    requires forall i :: 0 <= i < |ks| ==> ks[i] in m
  {
    if ks == [] then map[]
    else Restrict(m, ks[..|ks| - 1])[ks[|ks| - 1] := m[ks[|ks| - 1]]]
  }

  lemma {:induction false} RestrictAgrees(m: map<string, Record>, ks: seq<string>)
    requires forall i :: 0 <= i < |ks| ==> ks[i] in m
    ensures forall k :: k in Restrict(m, ks) <==> k in ks
    ensures forall k :: k in Restrict(m, ks) ==> Restrict(m, ks)[k] == m[k]
  {
    if ks != [] {
      var init := ks[..|ks| - 1];
      RestrictAgrees(m, init);
      assert ks == init + [ks[|ks| - 1]];
    }
  }

  /**
   * Saving a well-formed collection whose labels and ids have no comma, and
   * loading the saved lines, gives back the same collection, whatever order
   * the keys were written in.
   */
  lemma SaveLoadRoundTrip(m: map<string, Record>, order: seq<string>,
                          show: real -> string, parse: string -> Option<real>)
    requires WellFormed(m) && forall k :: k in m ==> Persistable(m[k], show, parse)
    requires Enumerates(order, m.Keys)
    ensures Load(EncodeAll(m, order, show), parse) == LoadState(m, false)
  {
    var recs := DecodeLines(EncodeAll(m, order, show), parse);
    DecodeEncodedLines(m, order, show, parse);
    LoadEncoded(m, order, recs);
    RestrictAll(m, order);
  }

  /** Putting the entries of every key of `m`, in any order, rebuilds `m`. */
  lemma RestrictAll(m: map<string, Record>, order: seq<string>)
    requires Enumerates(order, m.Keys)
    ensures Restrict(m, order) == m
  {
    RestrictAgrees(m, order);
  }

  lemma DecodeEncodedLines(m: map<string, Record>, order: seq<string>,
                           show: real -> string, parse: string -> Option<real>)
    requires forall k :: k in m ==> Persistable(m[k], show, parse)
    requires forall i :: 0 <= i < |order| ==> order[i] in m
    ensures var recs := DecodeLines(EncodeAll(m, order, show), parse);
      forall i :: 0 <= i < |order| ==> recs[i] == Some(m[order[i]])
  {
    var lines := EncodeAll(m, order, show);
    var recs := DecodeLines(lines, parse);
    forall i | 0 <= i < |order| ensures recs[i] == Some(m[order[i]]) {
      DecodeLinesAt(lines, parse, i);
      DecodeEncode(m[order[i]], show, parse);
    }
  }

  lemma {:induction false} LoadEncoded(m: map<string, Record>, order: seq<string>, recs: seq<Option<Record>>)
    requires forall k :: k in m ==> m[k].id == k
    requires forall i :: 0 <= i < |order| ==> order[i] in m
    requires |recs| == |order|
    requires forall i :: 0 <= i < |order| ==> recs[i] == Some(m[order[i]])
    ensures LoadDecoded(recs) == LoadState(Restrict(m, order), false)
  {
    if recs != [] {
      var n := |recs| - 1;
      LoadEncoded(m, order[..n], recs[..n]);
    }
  }
}
