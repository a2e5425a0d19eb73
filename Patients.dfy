/**
 * A patient: id, observed response, predicted response and the vector of
 * protein expression levels. `Record` is the value a patient holds at one
 * moment; `Patient` is the mutable object whose setters update it in place.
 */
module Patients {
  import opened Predictor

  /** 1-based positions of the two proteins the predictor reads. */
  const Protein1: nat := 3698
  const Protein2: nat := 3259

  /** The response of a patient who has not yet been treated. */
  const Unknown: string := "unk"

  datatype Record = Record(id: string, response: string, predicted: string, proteins: seq<real>)

  /** The prediction for a protein vector that holds protein 3698 (and so 3259). */
  function PredictFrom(proteins: seq<real>): string
    requires |proteins| >= Protein1
  {
    Predict(proteins[Protein1 - 1], proteins[Protein2 - 1])
  }

  /** The record the import-path constructor builds. */
  function ImportedRecord(id: string, proteins: seq<real>): (r: Record)
    requires |proteins| >= Protein1
    ensures r.id == id && r.proteins == proteins && r.response == Unknown
    ensures IsPrediction(r.predicted)
    ensures r.predicted == PredCR <==> InCompleteResponseRegion(proteins[Protein1 - 1], proteins[Protein2 - 1])
  {
    Record(id, Unknown, PredictFrom(proteins), proteins)
  }

  /** Number of line breaks in a string. */
  function LineBreaks(s: string): nat {
    if s == [] then 0 else (if s[0] == '\n' then 1 else 0) + LineBreaks(s[1..])
  }

  lemma {:induction false} LineBreaksAppend(a: string, b: string)
    ensures LineBreaks(a + b) == LineBreaks(a) + LineBreaks(b)
  {
    if a != [] {
      assert (a + b)[0] == a[0] && (a + b)[1..] == a[1..] + b;
      LineBreaksAppend(a[1..], b);
    } else {
      assert a + b == b;
    }
  }

  lemma {:induction false} NoLineBreaks(s: string)
    requires '\n' !in s
    ensures LineBreaks(s) == 0
  {
    if s != [] {
      assert s == [s[0]] + s[1..];
      NoLineBreaks(s[1..]);
    }
  }

  /** The printed parts of a record, which have no line break of their own. */
  predicate SingleLineParts(rec: Record, show: real -> string)
    requires |rec.proteins| >= Protein1
  {
    && '\n' !in rec.id && '\n' !in rec.response && '\n' !in rec.predicted
    && '\n' !in show(rec.proteins[Protein1 - 1]) && '\n' !in show(rec.proteins[Protein2 - 1])
  }

  /** Patient.toString after the id, up to its final line break. */
  function RenderTail(rec: Record, show: real -> string): string
    requires |rec.proteins| >= Protein1
  {
    ", [Response] " + rec.response + ", [Predicted] " + rec.predicted
    + ", [Protein 3698] " + show(rec.proteins[Protein1 - 1])
    + ", [Protein 3259] " + show(rec.proteins[Protein2 - 1])
  }

  /**
   * Patient.toString: id, both responses and the two predictor inputs
   * printed by `show` (Double.toString), ending in a line break.
   */
  function Render(rec: Record, show: real -> string): (r: string)
    requires |rec.proteins| >= Protein1
    ensures |r| > 5 + |rec.id| && r[|r| - 1] == '\n'
    ensures r[..5] == "[Id] " && r[5..5 + |rec.id|] == rec.id
  {
    var head := "[Id] " + rec.id;
    var r := head + RenderTail(rec, show) + "\n";
    assert r[..|head|] == head && head[..5] == "[Id] " && head[5..] == rec.id;
    r
  }

  /** When no printed part holds a line break, the text is exactly one line. */
  lemma RenderIsOneLine(rec: Record, show: real -> string)
    requires |rec.proteins| >= Protein1
    requires SingleLineParts(rec, show)
    ensures LineBreaks(Render(rec, show)) == 1
  {
    var body := "[Id] " + rec.id + RenderTail(rec, show);
    assert Render(rec, show) == body + "\n";
    assert '\n' !in body;
    NoLineBreaks(body);
    LineBreaksAppend(body, "\n");
  }

  /** The patient object of src/backend/Patient.java. */
  class Patient {
    var id: string
    var rspns: string
    var predRspns: string
    var proteins: seq<real>

    /** The patient's current field values. */
    function Value(): Record
      reads this
    {
      Record(id, rspns, predRspns, proteins)
    }

    /** Import path: response forced to "unk", prediction computed from the proteins. */
    constructor FromImport(id: string, proteins: seq<real>)
      requires |proteins| >= Protein1
      ensures this.id == id && this.proteins == proteins
      ensures rspns == Unknown
      ensures predRspns == Predict(proteins[Protein1 - 1], proteins[Protein2 - 1])
      ensures Value() == ImportedRecord(id, proteins)
    {
      // the no-argument constructor: an empty protein list, no labels yet
      this.id, rspns, predRspns, this.proteins := "", "", "", [];
      new;
      SetId(id);
      SetProteins(proteins);
      PredictResponse();
      SetResponse(Unknown);
    }

    /** Persisted path: all four fields taken as given, nothing recomputed. */
    constructor FromPersisted(id: string, rspns: string, predRspns: string, proteins: seq<real>)
      ensures Value() == Record(id, rspns, predRspns, proteins)
    {
      this.id, this.rspns, this.predRspns, this.proteins := "", "", "", [];
      new;
      SetId(id);
      SetResponse(rspns);
      SetPredict(predRspns);
      SetProteins(proteins);
    }

    /** Recomputes the prediction from proteins 3698 and 3259 (0-based 3697 and 3258). */
    method PredictResponse()
      requires |proteins| >= Protein1
      modifies this
      ensures Value() == old(Value().(predicted := PredictFrom(proteins)))
      ensures IsPrediction(predRspns)
    {
      predRspns := Predict(proteins[Protein1 - 1], proteins[Protein2 - 1]);
    }

    method SetId(id: string)
      modifies this
      ensures Value() == old(Value()).(id := id)
    {
      this.id := id;
    }

    method SetResponse(rspns: string)
      modifies this
      ensures Value() == old(Value()).(response := rspns)
    {
      this.rspns := rspns;
    }

    method SetProteins(proteins: seq<real>)
      modifies this
      ensures Value() == old(Value()).(proteins := proteins)
    {
      this.proteins := proteins;
    }

    method SetPredict(predRspns: string)
      modifies this
      ensures Value() == old(Value()).(predicted := predRspns)
    {
      this.predRspns := predRspns;
    }

    /** toString: id, both responses and proteins 3698 and 3259, then a line break. */
    function ToString(show: real -> string): (s: string)
      reads this
      requires |proteins| >= Protein1
      ensures |s| > 5 + |id| && s[..5] == "[Id] " && s[5..5 + |id|] == id && s[|s| - 1] == '\n'
      ensures SingleLineParts(Value(), show) ==> LineBreaks(s) == 1
    {
      var r := Render(Value(), show);
      assert SingleLineParts(Value(), show) ==> LineBreaks(r) == 1 by {
        if SingleLineParts(Value(), show) {
          RenderIsOneLine(Value(), show);
        }
      }
      r
    }
  }
}
