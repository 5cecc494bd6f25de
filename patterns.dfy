/**
 * The pattern detector detectHealthPatterns (src/services/api.js): seven
 * fixed co-occurrence rules over marker codes, each emitting at most one
 * pattern, in a fixed order.
 */
module Patterns {
  import opened Markers

  /** A detected pattern as the source builds it */
  datatype Pattern = Pattern(
    name: string, markersAffected: seq<string>, severity: real,
    triggerCount: nat, description: string)

  /**
   * One rule of the catalogue: the abnormal markers with a code in `trigger`
   * decide whether it fires, those with a code in `watch` are reported and
   * averaged. For six rules the two sets are the same.
   */
  datatype Rule = Rule(name: string, watch: set<string>, trigger: set<string>, description: string)

  function SimpleRule(name: string, codes: set<string>, description: string): Rule {
    Rule(name, codes, codes, description)
  }

  const ChronicInflammation: Rule := SimpleRule("Chronic Inflammation",
    {"CRP", "IL6", "TNF_ALPHA", "FIBRINOGEN"},
    "Multiple inflammatory markers elevated, indicating chronic inflammatory state")
  const MetabolicSyndrome: Rule := SimpleRule("Metabolic Syndrome",
    {"GLUCOSE", "HBA1C", "INSULIN", "TRIG", "HDL"},
    "Multiple metabolic markers abnormal, indicating metabolic dysregulation")
  const InsulinResistance: Rule := Rule("Insulin Resistance",
    {"INSULIN", "HOMA_IR", "GLUCOSE"}, {"INSULIN", "HOMA_IR"},
    "Insulin resistance detected, indicating impaired glucose metabolism")
  const CardiovascularRisk: Rule := SimpleRule("Cardiovascular Risk",
    {"LDL", "TRIG", "APOB", "CRP"},
    "Multiple cardiovascular markers elevated, indicating increased heart disease risk")
  const LiverStress: Rule := SimpleRule("Liver Stress",
    {"ALT", "GGT"},
    "Liver enzyme elevation detected, indicating hepatic stress or dysfunction")
  const VitaminDeficiency: Rule := SimpleRule("Vitamin Deficiency",
    {"VITD3", "B12", "FERRITIN"},
    "Vitamin/mineral deficiencies detected, requiring supplementation")
  const ThyroidDysfunction: Rule := SimpleRule("Thyroid Dysfunction",
    {"TSH", "T3"},
    "Thyroid hormone imbalance detected, affecting metabolism")

  /** The rules in the order the detector evaluates them */
  const Catalog: seq<Rule> := [ChronicInflammation, MetabolicSyndrome, InsulinResistance,
    CardiovascularRisk, LiverStress, VitaminDeficiency, ThyroidDysfunction]

  /** Position of a rule name in the catalogue, 7 for any other name */
  function RuleIndex(name: string): nat {
    if name == "Chronic Inflammation" then 0
    else if name == "Metabolic Syndrome" then 1
    else if name == "Insulin Resistance" then 2
    else if name == "Cardiovascular Risk" then 3
    else if name == "Liver Stress" then 4
    else if name == "Vitamin Deficiency" then 5
    else if name == "Thyroid Dysfunction" then 6
    else 7
  }

  /** The catalogue's shape: names in RuleIndex order, triggers within watch lists. */
  lemma CatalogShape()
    ensures |Catalog| == 7
    ensures forall k :: 0 <= k < 7 ==> RuleIndex(Catalog[k].name) == k
    ensures forall k :: 0 <= k < 7 ==> Catalog[k].trigger <= Catalog[k].watch
    ensures forall k :: 0 <= k < 7 && k != 2 ==> Catalog[k].trigger == Catalog[k].watch
  {
  }

  /** `markers.filter(m => codes.includes(m.marker_code))` */
  function WithCodes(ms: seq<Marker>, codes: set<string>): seq<Marker> {
    if ms == [] then []
    else (if ms[0].code in codes then [ms[0]] else []) + WithCodes(ms[1..], codes)
  }

  /** `.filter(m => m.status !== 'NORMAL')` */
  function NonNormal(ms: seq<Marker>): seq<Marker> {
    if ms == [] then []
    else (if ms[0].status != Normal then [ms[0]] else []) + NonNormal(ms[1..])
  }

  predicate AbnormalIn(m: Marker, codes: set<string>) {
    m.code in codes && m.status != Normal
  }

  /** The markers with a code in `codes` whose status is not NORMAL, in input order */
  function Abnormal(ms: seq<Marker>, codes: set<string>): (r: seq<Marker>)
    ensures |r| <= |ms|
    ensures forall m :: m in r <==> m in ms && AbnormalIn(m, codes)
  {
    if ms == [] then []
    else
      assert ms == [ms[0]] + ms[1..];
      (if AbnormalIn(ms[0], codes) then [ms[0]] else []) + Abnormal(ms[1..], codes)
  }

  /** The selection keeps input order: it distributes over concatenation. */
  lemma {:induction false} AbnormalAppend(a: seq<Marker>, b: seq<Marker>, codes: set<string>)
    ensures Abnormal(a + b, codes) == Abnormal(a, codes) + Abnormal(b, codes)
  {
    if a == [] {
      assert a + b == b;
    } else {
      assert (a + b)[0] == a[0] && (a + b)[1..] == a[1..] + b;
      AbnormalAppend(a[1..], b, codes);
    }
  }

  /** The source's two filters in a row select the same markers as Abnormal. */
  lemma {:induction false} NonNormalOfWithCodes(ms: seq<Marker>, codes: set<string>)
    ensures NonNormal(WithCodes(ms, codes)) == Abnormal(ms, codes)
  {
    if ms != [] {
      NonNormalOfWithCodes(ms[1..], codes);
      var head := if ms[0].code in codes then [ms[0]] else [];
      NonNormalAppend(head, WithCodes(ms[1..], codes));
    }
  }

  lemma {:induction false} NonNormalAppend(a: seq<Marker>, b: seq<Marker>)
    ensures NonNormal(a + b) == NonNormal(a) + NonNormal(b)
  {
    if a == [] {
      assert a + b == b;
    } else {
      assert (a + b)[0] == a[0] && (a + b)[1..] == a[1..] + b;
      NonNormalAppend(a[1..], b);
    }
  }

  /** Selecting abnormal markers among those with codes `a` selects by the common codes. */
  lemma {:induction false} AbnormalOfWithCodes(ms: seq<Marker>, a: set<string>, b: set<string>)
    ensures Abnormal(WithCodes(ms, a), b) == Abnormal(ms, a * b)
  {
    if ms != [] {
      AbnormalOfWithCodes(ms[1..], a, b);
      var head := if ms[0].code in a then [ms[0]] else [];
      AbnormalAppend(head, WithCodes(ms[1..], a), b);
    }
  }

  /** Fewer watched codes never select more markers. */
  lemma {:induction false} AbnormalSubsetLength(ms: seq<Marker>, a: set<string>, b: set<string>)
    requires a <= b
    ensures |Abnormal(ms, a)| <= |Abnormal(ms, b)|
  {
    if ms != [] {
      AbnormalSubsetLength(ms[1..], a, b);
    }
  }

  function Codes(ms: seq<Marker>): (r: seq<string>)
    ensures |r| == |ms| && forall i :: 0 <= i < |ms| ==> r[i] == ms[i].code
  {
    seq(|ms|, i requires 0 <= i < |ms| => ms[i].code)
  }

  /** The rule fires: more than one abnormal trigger marker (and some marker to report). */
  predicate Triggered(r: Rule, ms: seq<Marker>) {
    |Abnormal(ms, r.trigger)| > 1 && |Abnormal(ms, r.watch)| > 0
  }

  /** The pattern a rule emits: the abnormal watched markers, their mean severity,
      and the number of abnormal trigger markers. */
  function Emit(r: Rule, ms: seq<Marker>): Pattern
    requires |Abnormal(ms, r.watch)| > 0
  {
    var affected := Abnormal(ms, r.watch);
    Pattern(r.name, Codes(affected), Mean(affected), |Abnormal(ms, r.trigger)|, r.description)
  }

  /** Specification: evaluate `rules` in order, keeping the pattern of each one that fires. */
  function DetectWith(rules: seq<Rule>, ms: seq<Marker>): (ps: seq<Pattern>)
    ensures |ps| <= |rules|
  {
    if rules == [] then []
    else
      var last := rules[|rules| - 1];
      DetectWith(rules[..|rules| - 1], ms) + (if Triggered(last, ms) then [Emit(last, ms)] else [])
  }

  /** Specification of detectHealthPatterns */
  function Detect(ms: seq<Marker>): seq<Pattern> {
    DetectWith(Catalog, ms)
  }

  /** One of the six blocks of the source that share the simple shape. */
  method ApplySimpleRule(markers: seq<Marker>, rule: Rule, patterns: seq<Pattern>) returns (result: seq<Pattern>)
    requires rule.trigger == rule.watch
    ensures result == patterns + (if Triggered(rule, markers) then [Emit(rule, markers)] else [])
  {
    var watched := WithCodes(markers, rule.watch);
    var abnormal := NonNormal(watched);
    NonNormalOfWithCodes(markers, rule.watch);
    result := patterns;
    if |abnormal| > 1 {
      var avgSeverity := SumSeverity(abnormal) / |abnormal| as real;
      result := result + [Pattern(rule.name, Codes(abnormal), avgSeverity, |abnormal|, rule.description)];
    }
  }

  /** The block of the source for Insulin Resistance, whose trigger and watch lists differ. */
  method ApplyInsulinRule(markers: seq<Marker>, patterns: seq<Pattern>) returns (result: seq<Pattern>)
    ensures result == patterns + (if Triggered(InsulinResistance, markers) then [Emit(InsulinResistance, markers)] else [])
  {
    var insulinMarkers := WithCodes(markers, InsulinResistance.watch);
    var abnormalInsulin := Abnormal(insulinMarkers, InsulinResistance.trigger);
    AbnormalOfWithCodes(markers, InsulinResistance.watch, InsulinResistance.trigger);
    assert InsulinResistance.watch * InsulinResistance.trigger == InsulinResistance.trigger;
    result := patterns;
    if |abnormalInsulin| > 1 {
      var relevantMarkers := NonNormal(insulinMarkers);
      NonNormalOfWithCodes(markers, InsulinResistance.watch);
      if |relevantMarkers| > 0 {
        var avgSeverity := SumSeverity(relevantMarkers) / |relevantMarkers| as real;
        result := result + [Pattern(InsulinResistance.name, Codes(relevantMarkers), avgSeverity,
                                    |abnormalInsulin|, InsulinResistance.description)];
      }
    }
  }

  /** Evaluating one more rule appends that rule's pattern, if it fires. */
  lemma DetectWithSnoc(rules: seq<Rule>, rule: Rule, ms: seq<Marker>)
    ensures DetectWith(rules + [rule], ms) ==
      DetectWith(rules, ms) + (if Triggered(rule, ms) then [Emit(rule, ms)] else [])
  {
    assert (rules + [rule])[..|rules|] == rules;
  }

  /** detectHealthPatterns: the seven blocks in the source's order */
  method DetectHealthPatterns(markers: seq<Marker>) returns (patterns: seq<Pattern>)
    ensures patterns == Detect(markers)
  {
    ghost var done: seq<Rule> := [];
    patterns := [];
    patterns := ApplySimpleRule(markers, ChronicInflammation, patterns);
    DetectWithSnoc(done, ChronicInflammation, markers);
    done := done + [ChronicInflammation];
    patterns := ApplySimpleRule(markers, MetabolicSyndrome, patterns);
    DetectWithSnoc(done, MetabolicSyndrome, markers);
    done := done + [MetabolicSyndrome];
    patterns := ApplyInsulinRule(markers, patterns);
    DetectWithSnoc(done, InsulinResistance, markers);
    done := done + [InsulinResistance];
    patterns := ApplySimpleRule(markers, CardiovascularRisk, patterns);
    DetectWithSnoc(done, CardiovascularRisk, markers);
    done := done + [CardiovascularRisk];
    patterns := ApplySimpleRule(markers, LiverStress, patterns);
    DetectWithSnoc(done, LiverStress, markers);
    done := done + [LiverStress];
    patterns := ApplySimpleRule(markers, VitaminDeficiency, patterns);
    DetectWithSnoc(done, VitaminDeficiency, markers);
    done := done + [VitaminDeficiency];
    patterns := ApplySimpleRule(markers, ThyroidDysfunction, patterns);
    DetectWithSnoc(done, ThyroidDysfunction, markers);
    done := done + [ThyroidDysfunction];
    assert done == Catalog;
  }

  /** A pattern is in the output exactly when some rule fires and emits it. */
  lemma {:induction false} DetectWithMembers(rules: seq<Rule>, ms: seq<Marker>)
    ensures forall p :: p in DetectWith(rules, ms) <==>
      exists i :: 0 <= i < |rules| && Triggered(rules[i], ms) && p == Emit(rules[i], ms)
  {
    if rules != [] {
      var init := rules[..|rules| - 1];
      DetectWithMembers(init, ms);
      assert forall i :: 0 <= i < |init| ==> init[i] == rules[i];
    }
  }

  /**
   * Each rule of the catalogue is reported exactly when more than one of its
   * trigger markers is abnormal, and then with the pattern it emits.
   */
  lemma RuleFires(ms: seq<Marker>, k: nat)
    requires k < |Catalog|
    ensures (exists p :: p in Detect(ms) && p.name == Catalog[k].name) <==> |Abnormal(ms, Catalog[k].trigger)| > 1
    ensures forall p :: p in Detect(ms) && p.name == Catalog[k].name ==>
      Triggered(Catalog[k], ms) && p == Emit(Catalog[k], ms)
    ensures forall p :: p in Detect(ms) && p.name == Catalog[k].name ==>
      && |Abnormal(ms, Catalog[k].watch)| > 0
      && p.markersAffected == Codes(Abnormal(ms, Catalog[k].watch))
      && p.severity == Mean(Abnormal(ms, Catalog[k].watch))
      && p.triggerCount == |Abnormal(ms, Catalog[k].trigger)|
      && p.description == Catalog[k].description
  {
    CatalogShape();
    DetectWithMembers(Catalog, ms);
    AbnormalSubsetLength(ms, Catalog[k].trigger, Catalog[k].watch);
    if |Abnormal(ms, Catalog[k].trigger)| > 1 {
      assert Emit(Catalog[k], ms) in Detect(ms);
    }
  }

  /** Prefixes of the catalogue emit patterns in strictly increasing rule order. */
  lemma {:induction false} DetectPrefixOrdered(ms: seq<Marker>, k: nat)
    requires k <= |Catalog|
    ensures forall i :: 0 <= i < |DetectWith(Catalog[..k], ms)| ==> RuleIndex(DetectWith(Catalog[..k], ms)[i].name) < k
    ensures forall i, j :: 0 <= i < j < |DetectWith(Catalog[..k], ms)| ==>
      RuleIndex(DetectWith(Catalog[..k], ms)[i].name) < RuleIndex(DetectWith(Catalog[..k], ms)[j].name)
  {
    if k > 0 {
      DetectPrefixOrdered(ms, k - 1);
      assert Catalog[..k][..k - 1] == Catalog[..k - 1];
      CatalogShape();
    }
  }

  /**
   * The output has at most seven patterns, in catalogue order, so no rule
   * name appears twice.
   */
  lemma DetectOrdered(ms: seq<Marker>)
    ensures |Detect(ms)| <= 7
    ensures forall i, j :: 0 <= i < j < |Detect(ms)| ==> RuleIndex(Detect(ms)[i].name) < RuleIndex(Detect(ms)[j].name)
    ensures forall i, j :: 0 <= i < j < |Detect(ms)| ==> Detect(ms)[i].name != Detect(ms)[j].name
  {
    DetectPrefixOrdered(ms, |Catalog|);
    assert Catalog[..|Catalog|] == Catalog;
  }

  /**
   * Every emitted pattern lists at least two markers and counts at least two
   * triggers; the trigger count is the list's length except for Insulin
   * Resistance, where it may be smaller; on the 0..9 scale its severity is too.
   */
  lemma PatternShape(ms: seq<Marker>, p: Pattern)
    requires p in Detect(ms)
    ensures 2 <= p.triggerCount <= |p.markersAffected|
    ensures p.name != InsulinResistance.name ==> p.triggerCount == |p.markersAffected|
    ensures OnSeverityScale(ms) ==> 0.0 <= p.severity <= 9.0
  {
    CatalogShape();
    DetectWithMembers(Catalog, ms);
    var i :| 0 <= i < |Catalog| && Triggered(Catalog[i], ms) && p == Emit(Catalog[i], ms);
    var rule := Catalog[i];
    AbnormalSubsetLength(ms, rule.trigger, rule.watch);
    if OnSeverityScale(ms) {
      MeanBounds(Abnormal(ms, rule.watch), 0.0, 9.0);
    }
  }

  /** No two markers share a code (the source assumes this of a patient's markers). */
  predicate UniqueCodes(ms: seq<Marker>) {
    forall i, j :: 0 <= i < j < |ms| ==> ms[i].code != ms[j].code
  }

  /** Some marker with this code is abnormal. */
  predicate AbnormalPresent(ms: seq<Marker>, code: string) {
    exists m :: m in ms && m.code == code && m.status != Normal
  }

  lemma {:induction false} AbnormalKeepsUniqueCodes(ms: seq<Marker>, codes: set<string>)
    requires UniqueCodes(ms)
    ensures UniqueCodes(Abnormal(ms, codes))
  {
    if ms != [] {
      AbnormalKeepsUniqueCodes(ms[1..], codes);
      var rest := Abnormal(ms[1..], codes);
      forall m | m in rest
        ensures m.code != ms[0].code
      {
        var j :| 0 <= j < |ms[1..]| && ms[1..][j] == m;
        assert ms[j + 1] == m;
      }
    }
  }

  lemma PairAbnormalGivesBoth(ms: seq<Marker>, a: string, b: string)
    requires UniqueCodes(ms) && a != b
    requires |Abnormal(ms, {a, b})| > 1
    ensures AbnormalPresent(ms, a) && AbnormalPresent(ms, b)
  {
    var r := Abnormal(ms, {a, b});
    AbnormalKeepsUniqueCodes(ms, {a, b});
    var x, y := r[0], r[1];
    assert x in r && y in r;
    assert x.code != y.code;
    assert x in ms && AbnormalIn(x, {a, b});
    assert y in ms && AbnormalIn(y, {a, b});
    if x.code == a {
      assert y.code == b;
    } else {
      assert x.code == b && y.code == a;
    }
  }

  lemma BothGivePairAbnormal(ms: seq<Marker>, a: string, b: string)
    requires a != b
    requires AbnormalPresent(ms, a) && AbnormalPresent(ms, b)
    ensures |Abnormal(ms, {a, b})| > 1
  {
    var r := Abnormal(ms, {a, b});
    var ma :| ma in ms && ma.code == a && ma.status != Normal;
    var mb :| mb in ms && mb.code == b && mb.status != Normal;
    assert AbnormalIn(ma, {a, b}) && AbnormalIn(mb, {a, b});
    assert ma in r && mb in r;
    assert ma != mb;
  }

  /**
   * For a two-code watch list, "more than one abnormal" means both codes are
   * abnormal.
   */
  lemma PairAbnormalIffBoth(ms: seq<Marker>, a: string, b: string)
    requires UniqueCodes(ms) && a != b
    ensures |Abnormal(ms, {a, b})| > 1 <==> AbnormalPresent(ms, a) && AbnormalPresent(ms, b)
  {
    if |Abnormal(ms, {a, b})| > 1 {
      PairAbnormalGivesBoth(ms, a, b);
    }
    if AbnormalPresent(ms, a) && AbnormalPresent(ms, b) {
      BothGivePairAbnormal(ms, a, b);
    }
  }

  /** Liver Stress is reported only when both ALT and GGT are abnormal. */
  lemma LiverStressNeedsBoth(ms: seq<Marker>)
    requires UniqueCodes(ms)
    ensures (exists p :: p in Detect(ms) && p.name == "Liver Stress") <==>
      AbnormalPresent(ms, "ALT") && AbnormalPresent(ms, "GGT")
  {
    RuleFires(ms, 4);
    PairAbnormalIffBoth(ms, "ALT", "GGT");
  }

  /** Thyroid Dysfunction is reported only when both TSH and T3 are abnormal. */
  lemma ThyroidDysfunctionNeedsBoth(ms: seq<Marker>)
    requires UniqueCodes(ms)
    ensures (exists p :: p in Detect(ms) && p.name == "Thyroid Dysfunction") <==>
      AbnormalPresent(ms, "TSH") && AbnormalPresent(ms, "T3")
  {
    RuleFires(ms, 6);
    PairAbnormalIffBoth(ms, "TSH", "T3");
  }

  /** Insulin Resistance is reported only when both INSULIN and HOMA_IR are abnormal. */
  lemma InsulinResistanceNeedsBoth(ms: seq<Marker>)
    requires UniqueCodes(ms)
    ensures (exists p :: p in Detect(ms) && p.name == "Insulin Resistance") <==>
      AbnormalPresent(ms, "INSULIN") && AbnormalPresent(ms, "HOMA_IR")
  {
    RuleFires(ms, 2);
    PairAbnormalIffBoth(ms, "INSULIN", "HOMA_IR");
  }
}
