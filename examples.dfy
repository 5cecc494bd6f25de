/**
 * Concrete readings from the static marker table of generateVIPMarkers
 * (src/services/api.js), evaluated by the model's functions: single classifications,
 * and the three Metabolism markers of that table as a small panel.
 */
module VipExamples {
  import opened Markers
  import Patterns
  import CategoryRisks
  import Assessment

  const Crp: Reading := Reading("CRP", "C-Reactive Protein", "Inflammation",
    4.2, "mg/L", false, Thresholds(3.5, 10.0, 20.0))
  const Hdl: Reading := Reading("HDL", "HDL Cholesterol", "Cardiovascular",
    55.0, "mg/dL", true, Thresholds(40.0, 30.0, 20.0))
  const Hba1c: Reading := Reading("HBA1C", "Glycated Hemoglobin", "Metabolism",
    5.8, "%", false, Thresholds(5.6, 6.5, 8.0))
  const Glucose: Reading := Reading("GLUCOSE", "Fasting Glucose", "Metabolism",
    240.0, "mg/dL", false, Thresholds(100.0, 126.0, 200.0))
  const Insulin: Reading := Reading("INSULIN", "Fasting Insulin", "Metabolism",
    8.5, "μIU/mL", false, Thresholds(20.0, 30.0, 50.0))

  /** CRP 4.2 passes only the elevated threshold 3.5: ELEVATED, severity 3, range "0-3.5". */
  lemma CrpIsElevated(show: real -> string)
    ensures Evaluate(Crp, show).status == Elevated
    ensures Evaluate(Crp, show).severity == 3.0
    ensures Evaluate(Crp, show).referenceRange == "0-" + show(3.5)
  {
  }

  /** HDL 55 is lower-is-worse and above 40: NORMAL, severity 0, range ">40". */
  lemma HdlIsNormal(show: real -> string)
    ensures Evaluate(Hdl, show).status == Normal
    ensures Evaluate(Hdl, show).severity == 0.0
    ensures Evaluate(Hdl, show).referenceRange == ">" + show(40.0)
  {
  }

  /** Glucose 240 is above the critical threshold 200: CRITICAL, severity 9. */
  lemma GlucoseIsCritical(show: real -> string)
    ensures Evaluate(Glucose, show).status == Critical
    ensures Evaluate(Glucose, show).severity == 9.0
  {
  }

  /** The Metabolism panel: HbA1c elevated, glucose critical, insulin normal */
  function MetabolismPanel(show: real -> string): seq<Marker> {
    [Evaluate(Hba1c, show), Evaluate(Glucose, show), Evaluate(Insulin, show)]
  }

  lemma SumOfThree(a: Marker, b: Marker, c: Marker)
    ensures SumSeverity([a, b, c]) == a.severity + b.severity + c.severity
    ensures SumSeverity([a, b]) == a.severity + b.severity
  {
    assert [c][1..] == [] && [b][1..] == [];
    assert SumSeverity([c]) == c.severity;
    assert SumSeverity([b]) == b.severity;
    assert [b, c][1..] == [c] && [a, b][1..] == [b];
    assert SumSeverity([b, c]) == b.severity + c.severity;
    assert [a, b, c][1..] == [b, c];
  }

  lemma AbnormalOfThree(a: Marker, b: Marker, c: Marker, codes: set<string>)
    ensures Patterns.Abnormal([a, b, c], codes) ==
      (if Patterns.AbnormalIn(a, codes) then [a] else []) +
      (if Patterns.AbnormalIn(b, codes) then [b] else []) +
      (if Patterns.AbnormalIn(c, codes) then [c] else [])
  {
    assert [c][1..] == [];
    assert Patterns.Abnormal([c], codes) == (if Patterns.AbnormalIn(c, codes) then [c] else []);
    assert [b, c][1..] == [c];
    assert Patterns.Abnormal([b, c], codes) ==
      (if Patterns.AbnormalIn(b, codes) then [b] else []) + (if Patterns.AbnormalIn(c, codes) then [c] else []);
    assert [a, b, c][1..] == [b, c];
  }

  /** The panel's markers all belong to Metabolism and sum to severity 12. */
  lemma MetabolismPanelGroups(show: real -> string)
    ensures Markers.SumSeverity(MetabolismPanel(show)) == 12.0
    ensures CategoryRisks.Categories(MetabolismPanel(show)) == ["Metabolism"]
    ensures CategoryRisks.Members(MetabolismPanel(show), "Metabolism") == MetabolismPanel(show)
  {
    var ms := MetabolismPanel(show);
    assert ms[0].severity == 3.0 && ms[1].severity == 9.0 && ms[2].severity == 0.0;
    SumOfThree(ms[0], ms[1], ms[2]);
    assert ms == [ms[0], ms[1], ms[2]];
    assert ms[..2][..1][..0] == [];
    assert ms[..2][..1] == [ms[0]];
    assert ms[..2] == [ms[0], ms[1]];
  }

  /** Its one category averages (3 + 9 + 0) / 3 = 4 at weight 1.5: a weighted score of 6, MODERATE. */
  lemma MetabolismPanelCategory(show: real -> string)
    ensures CategoryRisks.HasCategory(MetabolismPanel(show), "Metabolism")
    ensures CategoryRisks.RiskOf(MetabolismPanel(show), "Metabolism")
      == CategoryRisks.CategoryRisk(4.0, 1.5, 6.0, 3, CategoryRisks.RiskLevel.Moderate)
  {
    var ms := MetabolismPanel(show);
    MetabolismPanelGroups(show);
    assert ms[0].category == "Metabolism";
    var r := CategoryRisks.RiskOf(ms, "Metabolism");
    assert r == CategoryRisks.GroupRiskOf(ms, 1.5);
    assert r.averageSeverity == 4.0;
  }

  /**
   * The panel's summary has that one category, so the overall score is 4,
   * MODERATE too; a 32-year-old gets a biological age of 30.5.
   */
  lemma MetabolismPanelRisk(show: real -> string)
    ensures CategoryRisks.RisksOf(MetabolismPanel(show)).categories.keys == ["Metabolism"]
    ensures Assessment.OverallRisk(CategoryRisks.RisksOf(MetabolismPanel(show))) == 4.0
    ensures Assessment.RiskCategory(4.0) == CategoryRisks.RiskLevel.Moderate
    ensures Assessment.BiologicalAgeOf(32.0, MetabolismPanel(show)).biologicalAge == 30.5
  {
    var ms := MetabolismPanel(show);
    MetabolismPanelGroups(show);
    MetabolismPanelCategory(show);
    var r := CategoryRisks.RiskOf(ms, "Metabolism");
    var t := CategoryRisks.RiskMap(ms);
    assert "Metabolism" in t && t["Metabolism"] == r;
    assert ["Metabolism"][..0] == [];
    assert CategoryRisks.WeightTotal(t, ["Metabolism"]) == 1.5;
    assert CategoryRisks.ScoreTotal(t, ["Metabolism"]) == 6.0;
    var summary := CategoryRisks.RisksOf(ms);
    assert summary.totalWeight == 1.5;
    assert summary.totalWeightedScore == 6.0;
  }

  /** When Metabolic Syndrome is the only rule that fires, the detector returns its pattern alone. */
  lemma OnlyMetabolicSyndrome(ms: seq<Marker>)
    requires Patterns.Triggered(Patterns.MetabolicSyndrome, ms)
    requires forall k :: 0 <= k < 7 && k != 1 ==> !Patterns.Triggered(Patterns.Catalog[k], ms)
    ensures Patterns.Detect(ms) == [Patterns.Emit(Patterns.MetabolicSyndrome, ms)]
  {
    var cat := Patterns.Catalog;
    var p := Patterns.Emit(cat[1], ms);
    var r0: seq<Patterns.Rule> := [];
    var r1 := r0 + [cat[0]];
    var r2 := r1 + [cat[1]];
    var r3 := r2 + [cat[2]];
    var r4 := r3 + [cat[3]];
    var r5 := r4 + [cat[4]];
    var r6 := r5 + [cat[5]];
    var r7 := r6 + [cat[6]];
    Patterns.DetectWithSnoc(r0, cat[0], ms);
    assert Patterns.DetectWith(r1, ms) == [];
    Patterns.DetectWithSnoc(r1, cat[1], ms);
    assert Patterns.DetectWith(r2, ms) == [p];
    Patterns.DetectWithSnoc(r2, cat[2], ms);
    Patterns.DetectWithSnoc(r3, cat[3], ms);
    Patterns.DetectWithSnoc(r4, cat[4], ms);
    Patterns.DetectWithSnoc(r5, cat[5], ms);
    Patterns.DetectWithSnoc(r6, cat[6], ms);
    assert Patterns.DetectWith(r7, ms) == [p];
    assert r7 == cat;
  }

  /** The abnormal panel markers with a code in `codes`: HbA1c and glucose, as listed. */
  lemma PanelAbnormal(show: real -> string, codes: set<string>)
    ensures Patterns.Abnormal(MetabolismPanel(show), codes) ==
      (if "HBA1C" in codes then [MetabolismPanel(show)[0]] else []) +
      (if "GLUCOSE" in codes then [MetabolismPanel(show)[1]] else [])
  {
    var ms := MetabolismPanel(show);
    var a, b, c := ms[0], ms[1], ms[2];
    assert ms == [a, b, c];
    assert a.status == Elevated && b.status == Critical && c.status == Normal;
    assert a.code == "HBA1C" && b.code == "GLUCOSE";
    AbnormalOfThree(a, b, c, codes);
  }

  /** On the panel only Metabolic Syndrome fires, over HbA1c and glucose. */
  lemma MetabolismPanelFires(show: real -> string)
    ensures Patterns.Triggered(Patterns.MetabolicSyndrome, MetabolismPanel(show))
    ensures forall k :: 0 <= k < 7 && k != 1 ==> !Patterns.Triggered(Patterns.Catalog[k], MetabolismPanel(show))
    ensures Patterns.Abnormal(MetabolismPanel(show), Patterns.MetabolicSyndrome.watch) == MetabolismPanel(show)[..2]
    ensures Patterns.Abnormal(MetabolismPanel(show), Patterns.MetabolicSyndrome.trigger) == MetabolismPanel(show)[..2]
  {
    var ms := MetabolismPanel(show);
    assert ms[..2] == [ms[0], ms[1]];
    var cat := Patterns.Catalog;
    forall k | 0 <= k < 7
      ensures |Patterns.Abnormal(ms, cat[k].trigger)| == (if k == 1 then 2 else if k == 2 then 0 else
        |Patterns.Abnormal(ms, cat[k].watch)|)
      ensures k != 1 ==> |Patterns.Abnormal(ms, cat[k].watch)| <= 1
    {
      PanelAbnormal(show, cat[k].watch);
      PanelAbnormal(show, cat[k].trigger);
    }
    PanelAbnormal(show, Patterns.MetabolicSyndrome.watch);
  }

  /**
   * On that panel the detector reports Metabolic Syndrome alone, over the
   * two abnormal markers with their mean severity 6; Insulin Resistance does
   * not fire, its only trigger marker being normal.
   */
  lemma MetabolismPanelPatterns(show: real -> string)
    ensures Patterns.Detect(MetabolismPanel(show)) == [Patterns.Pattern("Metabolic Syndrome",
      ["HBA1C", "GLUCOSE"], 6.0, 2, Patterns.MetabolicSyndrome.description)]
  {
    var ms := MetabolismPanel(show);
    MetabolismPanelFires(show);
    OnlyMetabolicSyndrome(ms);
    var affected := ms[..2];
    assert affected == [ms[0], ms[1]];
    SumOfThree(ms[0], ms[1], ms[2]);
    assert ms[0].severity == 3.0 && ms[1].severity == 9.0;
    assert Markers.Mean(affected) == 6.0;
    assert Patterns.Codes(affected) == ["HBA1C", "GLUCOSE"];
  }
}
