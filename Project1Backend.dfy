/**
 * The earlier copy of the backend (Project1/backend): the same decision tree,
 * and a patient whose id is fixed at construction (there is no id setter)
 * and whose protein vector is called `proteinLvl`.
 */
module Project1Backend {
  import Predictor
  import opened Patients

  /** Project1's Predictor.predict: the same nested comparisons as the later copy. */
  function Predict(p1: real, p2: real): (r: string)
    ensures Predictor.IsPrediction(r)
    ensures r == Predictor.PredCR <==> Predictor.InCompleteResponseRegion(p1, p2)
    ensures r == Predictor.Predict(p1, p2)
  {
    if p1 <= 20.903959 then
      "predDP"
    else if p2 <= 22.058599 then
      "predCR"
    else
      "predDP"
  }

  /** The patient object of Project1/backend/Patient.java. */
  class Patient {
    const id: string
    var rspns: string
    var predRspns: string
    var proteinLvl: seq<real>

    /** The patient's current field values. */
    function Value(): Record
      reads this
    {
      Record(id, rspns, predRspns, proteinLvl)
    }

    /** Import path: response "unk", prediction computed from proteins 3698 and 3259. */
    constructor FromImport(id: string, proteinLvl: seq<real>)
      requires |proteinLvl| >= Protein1
      ensures Value() == ImportedRecord(id, proteinLvl)
      ensures Predictor.IsPrediction(predRspns)
    {
      this.id, this.proteinLvl := id, proteinLvl;
      rspns, predRspns := "", "";
      new;
      PredictResponse();
      rspns := Unknown;
    }

    /** Persisted path: all four fields taken as given, nothing recomputed. */
    constructor FromPersisted(id: string, rspns: string, predRspns: string, proteinLvl: seq<real>)
      ensures Value() == Record(id, rspns, predRspns, proteinLvl)
    {
      this.id, this.rspns, this.predRspns, this.proteinLvl := id, rspns, predRspns, proteinLvl;
    }

    /** Recomputes the prediction from proteins 3698 and 3259 (0-based 3697 and 3258). */
    method PredictResponse()
      requires |proteinLvl| >= Protein1
      modifies this
      ensures Value() == old(Value().(predicted := PredictFrom(proteinLvl)))
    {
      predRspns := Predict(proteinLvl[Protein1 - 1], proteinLvl[Protein2 - 1]);
    }

    method SetResponse(rspns: string)
      modifies this
      ensures Value() == old(Value()).(response := rspns)
    {
      this.rspns := rspns;
    }

    method SetProteinLvl(proteinLvl: seq<real>)
      modifies this
      ensures Value() == old(Value()).(proteins := proteinLvl)
    {
      this.proteinLvl := proteinLvl;
    }

    method SetPredict(predRspns: string)
      modifies this
      ensures Value() == old(Value()).(predicted := predRspns)
    {
      this.predRspns := predRspns;
    }

    /** toString: the same text as the later copy prints for the same field values. */
    function ToString(show: real -> string): (s: string)
      reads this
      requires |proteinLvl| >= Protein1
      ensures |s| > 5 + |id| && s[..5] == "[Id] " && s[5..5 + |id|] == id && s[|s| - 1] == '\n'
      ensures SingleLineParts(Value(), show) ==> LineBreaks(s) == 1
    {
      var r := Render(Value(), show);
      assert SingleLineParts(Value(), show) ==> LineBreaks(r) == 1 by {
        if SingleLineParts(Value(), show) {
          RenderIsOneLine(Value(), show);
        }
      }
      r
    }
  }
}
