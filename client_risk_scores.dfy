/** Per-client risk scores of src/lib/mock-data/client-risk-scores.ts: a
    constant table keyed by client id and a lookup that answers `null` for an
    unknown id. */
module ClientRiskScores {
  import opened Types

  /** The five scores of the scoring model, each on a 0–100 scale. */
  datatype RiskScores = RiskScores(
    documentation: int,
    toolSafety: int,
    copyrightCheck: int,
    aiModelTrust: int,
    trainingDataQuality: int)

  predicate InScale(x: int) {
    0 <= x <= 100
  }

  predicate WellScaled(r: RiskScores) {
    InScale(r.documentation) && InScale(r.toolSafety) && InScale(r.copyrightCheck) &&
    InScale(r.aiModelTrust) && InScale(r.trainingDataQuality)
  }

  const CLIENT_IDS: seq<string> := [
    "cl-001", "cl-002", "cl-003", "cl-004", "cl-005", "cl-006",
    "cl-007", "cl-008", "cl-009", "cl-010", "cl-011", "cl-012"
  ]

  const CLIENT_RISK_SCORES: map<string, RiskScores> := map[
    "cl-001" := RiskScores(88, 82, 90, 78, 85),
    "cl-002" := RiskScores(72, 68, 75, 70, 65),
    "cl-003" := RiskScores(92, 88, 95, 85, 90),
    "cl-004" := RiskScores(58, 62, 55, 60, 52),
    "cl-005" := RiskScores(85, 80, 82, 78, 88),
    "cl-006" := RiskScores(75, 72, 78, 68, 70),
    "cl-007" := RiskScores(90, 85, 88, 82, 86),
    "cl-008" := RiskScores(65, 60, 62, 58, 55),
    "cl-009" := RiskScores(78, 74, 70, 72, 68),
    "cl-010" := RiskScores(88, 82, 85, 80, 84),
    "cl-011" := RiskScores(92, 88, 90, 85, 90),
    "cl-012" := RiskScores(48, 52, 45, 50, 42)
  ]

  predicate Distinct(ids: seq<string>) {
    forall i, j :: 0 <= i < j < |ids| ==> ids[i] != ids[j]
  }

  /** A list without repeats has as many distinct elements as entries. */
  lemma {:induction false} DistinctCardinality(ids: seq<string>)
    requires Distinct(ids)
    ensures |set id | id in ids| == |ids|
  {
    if ids != [] {
      var rest := ids[1..];
      DistinctCardinality(rest);
      assert (set id | id in ids) == (set id | id in rest) + {ids[0]};
      assert ids[0] !in rest;
    }
  }

  lemma IdsDistinct()
    ensures Distinct(CLIENT_IDS)
  {}

  lemma KeysAreIds()
    ensures CLIENT_RISK_SCORES.Keys == set id | id in CLIENT_IDS
  {
    assert (set id | id in CLIENT_IDS) == {"cl-001", "cl-002", "cl-003", "cl-004", "cl-005", "cl-006",
                                          "cl-007", "cl-008", "cl-009", "cl-010", "cl-011", "cl-012"};
  }

  lemma AllWellScaled()
    ensures forall id :: id in CLIENT_RISK_SCORES ==> WellScaled(CLIENT_RISK_SCORES[id])
  {
    forall id | id in CLIENT_RISK_SCORES ensures WellScaled(CLIENT_RISK_SCORES[id]) {
      KeysAreIds();
      assert id in CLIENT_IDS;
    }
  }

  /** The table's keys are exactly the twelve ids cl-001 … cl-012, and every
      stored record lies on the 0–100 scale. */
  lemma TableShape()
    ensures CLIENT_RISK_SCORES.Keys == set id | id in CLIENT_IDS
    ensures |CLIENT_RISK_SCORES| == 12
    ensures forall id :: id in CLIENT_RISK_SCORES ==> WellScaled(CLIENT_RISK_SCORES[id])
  {
    KeysAreIds();
    IdsDistinct();
    DistinctCardinality(CLIENT_IDS);
    assert |CLIENT_RISK_SCORES| == |CLIENT_RISK_SCORES.Keys|;
    AllWellScaled();
  }

  /** `getClientRiskScores(clientId)`: the stored record, or `null` (here
      `None`) for an id that is not in the table. A record it returns is
      always on the 0–100 scale. */
  function GetClientRiskScores(clientId: string): (r: Option<RiskScores>)
    ensures r.Some? <==> clientId in CLIENT_RISK_SCORES
    ensures r.Some? ==> r.value == CLIENT_RISK_SCORES[clientId] && WellScaled(r.value)
  {
    TableShape();
    if clientId in CLIENT_RISK_SCORES then Some(CLIENT_RISK_SCORES[clientId]) else None
  }

  /** The lookup answers for exactly the twelve listed ids. */
  lemma LookupDomain(clientId: string)
    ensures GetClientRiskScores(clientId).Some? <==> clientId in CLIENT_IDS
  {
    TableShape();
  }
}
