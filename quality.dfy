/** The derived quality labels of the summary table: the MIMAG-style tier
    rule table (an ordered, first-match-wins `np.select`) and the binary
    GUNC pass/fail flag. Thresholds follow the quality categories of the
    MIMAG reporting standard (Bowers et al. 2017, Table 1). */
module Quality {
  import opened Wrappers

  datatype Tier = Low | Medium | High | NearComplete

  datatype GuncStatus = Pass | Fail

  /** The merged-table columns the rule table reads for one MAG; `None`
      stands for NaN (a MAG absent from the table the column comes from). */
  datatype Metrics = Metrics(
    completeness: Option<real>,
    contamination: Option<real>,
    numTrna: Option<real>,
    numRrna5s: Option<real>,
    numRrna16s: Option<real>,
    numRrna23s: Option<real>)

  // Comparisons with NaN are false, as in numpy.
  predicate Lt(x: Option<real>, bound: real) { x.Some? && x.value < bound }
  predicate Le(x: Option<real>, bound: real) { x.Some? && x.value <= bound }
  predicate Gt(x: Option<real>, bound: real) { x.Some? && x.value > bound }
  predicate Ge(x: Option<real>, bound: real) { x.Some? && x.value >= bound }

  /** The five conditions of the rule table, in the order they are tried. */
  function Conditions(m: Metrics): (conds: seq<bool>)
    ensures |conds| == |TierChoices|
  {
    var c, k := m.completeness, m.contamination;
    [ Lt(c, 50.0) && Lt(k, 10.0),
      Ge(c, 50.0) && Le(c, 90.0) && Lt(k, 10.0),
      Gt(c, 90.0) && Gt(k, 5.0) && Lt(k, 10.0),
      Gt(c, 90.0) && Le(k, 5.0),
      Gt(c, 90.0) && Lt(k, 5.0) && Ge(m.numTrna, 18.0)
        && Gt(m.numRrna5s, 0.0) && Gt(m.numRrna16s, 0.0) && Gt(m.numRrna23s, 0.0) ]
  }

  /** The tier each condition selects. */
  const TierChoices: seq<Tier> := [Low, Medium, Medium, High, NearComplete]

  /** `np.select(conds, choices, default=NaN)`: the choice of the first
      condition that holds, or `None` when none holds. */
  function Select<T>(conds: seq<bool>, choices: seq<T>): (r: Option<T>)
    requires |conds| == |choices|
    ensures r.None? <==> forall i :: 0 <= i < |conds| ==> !conds[i]
    ensures r.Some? ==> exists i :: 0 <= i < |conds| && conds[i] && r.value == choices[i]
                          && forall j :: 0 <= j < i ==> !conds[j]
    decreases |conds|
  {
    if |conds| == 0 then None
    else if conds[0] then Some(choices[0])
    else Select(conds[1..], choices[1..])
  }

  /** First match wins: the rule that decides is the first one that holds,
      whatever the later rules say. */
  lemma {:induction false} SelectFirstMatch<T>(conds: seq<bool>, choices: seq<T>, i: nat)
    requires |conds| == |choices| && i < |conds|
    requires conds[i] && forall j :: 0 <= j < i ==> !conds[j]
    ensures Select(conds, choices) == Some(choices[i])
    decreases i
  {
    if i > 0 {
      SelectFirstMatch(conds[1..], choices[1..], i - 1);
    }
  }

  /** `MIMAG_Quality` of one MAG. */
  function MimagTier(m: Metrics): Option<Tier> {
    Select(Conditions(m), TierChoices)
  }

  /** With completeness and contamination both present, a tier is assigned
      exactly when contamination is below 10. */
  lemma TierDefinedIff(m: Metrics)
    requires m.completeness.Some? && m.contamination.Some?
    ensures MimagTier(m).Some? <==> m.contamination.value < 10.0
  {
    var conds := Conditions(m);
    if m.contamination.value < 10.0 {
      var c := m.completeness.value;
      if c < 50.0 { assert conds[0]; }
      else if c <= 90.0 { assert conds[1]; }
      else if m.contamination.value > 5.0 { assert conds[2]; }
      else { assert conds[3]; }
    } else {
      assert forall i :: 0 <= i < |conds| ==> !conds[i];
    }
  }

  /** A MAG missing completeness or contamination gets no tier. */
  lemma TierNeedsBothScores(m: Metrics)
    requires m.completeness.None? || m.contamination.None?
    ensures MimagTier(m) == None
  {
    var conds := Conditions(m);
    assert forall i :: 0 <= i < |conds| ==> !conds[i];
  }

  /** `Near_Complete` is unreachable: every MAG meeting rule 5 meets
      rule 4 first. */
  lemma NearCompleteNeverAssigned(m: Metrics)
    ensures MimagTier(m) != Some(NearComplete)
  {
    var conds := Conditions(m);
    if conds[4] {
      assert conds[3];
    }
  }

  /** What each assigned tier says about the scores. */
  lemma TierMeaning(m: Metrics)
    ensures MimagTier(m) == Some(Low) ==>
              m.completeness.value < 50.0 && m.contamination.value < 10.0
    ensures MimagTier(m) == Some(Medium) ==>
              50.0 <= m.completeness.value && m.contamination.value < 10.0
              && (m.completeness.value <= 90.0 || m.contamination.value > 5.0)
    ensures MimagTier(m) == Some(High) ==>
              m.completeness.value > 90.0 && m.contamination.value <= 5.0
  {
    var conds := Conditions(m);
    if MimagTier(m).Some? {
      var i :| 0 <= i < |conds| && conds[i] && MimagTier(m).value == TierChoices[i]
               && forall j :: 0 <= j < i ==> !conds[j];
    }
  }

  /** Completeness 95 and contamination 3, with no tRNA or rRNA data, is
      `High`: rule 4 decides before rule 5 is looked at. */
  lemma HighWithoutGeneData()
    ensures MimagTier(Metrics(Some(95.0), Some(3.0), None, None, None, None)) == Some(High)
  {
    var conds := Conditions(Metrics(Some(95.0), Some(3.0), None, None, None, None));
    SelectFirstMatch(conds, TierChoices, 3);
  }

  /** The clade-separation threshold below which GUNC passes a MAG. */
  const GuncThreshold: real := 0.45

  /** `GUNC_Status` of one MAG. */
  function Gunc(score: Option<real>): GuncStatus {
    if Lt(score, GuncThreshold) then Pass else Fail
  }

  /** `Pass` exactly for a present score below 0.45; a missing score fails. */
  lemma GuncPassIff(score: Option<real>)
    ensures Gunc(score) == Pass <==> score.Some? && score.value < 0.45
    ensures score.None? ==> Gunc(score) == Fail
  {
  }
}
