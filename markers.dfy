/**
 * Per-marker classification of the scoring engine (src/services/api.js):
 * the threshold classifier (calculateMarkerStatus), the severity map
 * (calculateSeverity), the reference-range text (generateReferenceRange) and
 * the evaluation of one raw reading (the map at the end of generateVIPMarkers).
 */
module Markers {

  /**
   * A marker status. The engine produces the first four; `Unknown` stands for
   * any other status text a marker may arrive with.
   */
  datatype Status = Normal | Elevated | High | Critical | Unknown {

    /** The text the source stores for a known status */
    function Label(): string
      requires !Unknown?
    {
      match this
      case Normal => "NORMAL"
      case Elevated => "ELEVATED"
      case High => "HIGH"
      case Critical => "CRITICAL"
    }

    /** Position in NORMAL < ELEVATED < HIGH < CRITICAL; Unknown ranks with NORMAL */
    function Rank(): nat {
      match this
      case Normal => 0
      case Elevated => 1
      case High => 2
      case Critical => 3
      case Unknown => 0
    }
  }

  /** Reads a status text; anything but the four names is Unknown. */
  function ParseStatus(text: string): (s: Status)
    ensures !s.Unknown? ==> s.Label() == text
  {
    if text == "NORMAL" then Normal
    else if text == "ELEVATED" then Elevated
    else if text == "HIGH" then High
    else if text == "CRITICAL" then Critical
    else Unknown
  }

  /** Reading back the text of a known status gives the status again. */
  lemma ParseLabel(s: Status)
    requires !s.Unknown?
    ensures ParseStatus(s.Label()) == s
  {
  }

  /**
   * The `severityMap[status] || 0` lookup on a status text: the four names
   * give 0, 3, 6 and 9, and any other text gives 0.
   */
  lemma SeverityOfText(text: string)
    ensures Severity(ParseStatus(text)) ==
      if text == "ELEVATED" then 3
      else if text == "HIGH" then 6
      else if text == "CRITICAL" then 9
      else 0
  {
  }

  /** The threshold triple {elevated, high, critical} of one marker */
  datatype Thresholds = Thresholds(elevated: real, high: real, critical: real)

  /**
   * The thresholds grow toward increasing badness: upward when higher values
   * are worse, downward when lower values are worse. The source never checks
   * this.
   */
  predicate Ordered(t: Thresholds, lowerIsWorse: bool) {
    if lowerIsWorse then t.critical <= t.high <= t.elevated
    else t.elevated <= t.high <= t.critical
  }

  /** `value` is strictly past `threshold` in the bad direction. */
  predicate Beyond(value: real, threshold: real, lowerIsWorse: bool) {
    if lowerIsWorse then value < threshold else value > threshold
  }

  /**
   * calculateMarkerStatus: the worst band whose threshold the value strictly
   * passes, checked critical first; a value equal to a threshold is not past it.
   */
  function Classify(value: real, t: Thresholds, lowerIsWorse: bool): (s: Status)
    ensures !s.Unknown?
  {
    if !lowerIsWorse then
      if value > t.critical then Critical
      else if value > t.high then High
      else if value > t.elevated then Elevated
      else Normal
    else
      if value < t.critical then Critical
      else if value < t.high then High
      else if value < t.elevated then Elevated
      else Normal
  }

  /** Reference definition: how many of the three thresholds the value is past. */
  function ThresholdsPassed(value: real, t: Thresholds, lowerIsWorse: bool): (n: nat)
    ensures n <= 3
  {
    (if Beyond(value, t.elevated, lowerIsWorse) then 1 else 0)
    + (if Beyond(value, t.high, lowerIsWorse) then 1 else 0)
    + (if Beyond(value, t.critical, lowerIsWorse) then 1 else 0)
  }

  /** With ordered thresholds, the status ranks as the number of thresholds passed. */
  lemma ClassifyCountsThresholds(value: real, t: Thresholds, lowerIsWorse: bool)
    requires Ordered(t, lowerIsWorse)
    ensures Classify(value, t, lowerIsWorse).Rank() == ThresholdsPassed(value, t, lowerIsWorse)
  {
  }

  /** Higher-is-worse bands under ordered thresholds, both directions. */
  lemma ClassifyHigherIsWorseBands(value: real, t: Thresholds)
    requires Ordered(t, false)
    ensures Classify(value, t, false) == Normal <==> value <= t.elevated
    ensures Classify(value, t, false) == Elevated <==> t.elevated < value <= t.high
    ensures Classify(value, t, false) == High <==> t.high < value <= t.critical
    ensures Classify(value, t, false) == Critical <==> t.critical < value
  {
  }

  /** Lower-is-worse bands under ordered thresholds, the mirror image. */
  lemma ClassifyLowerIsWorseBands(value: real, t: Thresholds)
    requires Ordered(t, true)
    ensures Classify(value, t, true) == Normal <==> t.elevated <= value
    ensures Classify(value, t, true) == Elevated <==> t.high <= value < t.elevated
    ensures Classify(value, t, true) == High <==> t.critical <= value < t.high
    ensures Classify(value, t, true) == Critical <==> value < t.critical
  {
  }

  /**
   * A value exactly on a threshold lands in the better band (strictly ordered
   * thresholds, so that the bands are not empty).
   */
  lemma ClassifyBoundary(t: Thresholds, lowerIsWorse: bool)
    requires if lowerIsWorse then t.critical < t.high < t.elevated
             else t.elevated < t.high < t.critical
    ensures Classify(t.elevated, t, lowerIsWorse) == Normal
    ensures Classify(t.high, t, lowerIsWorse) == Elevated
    ensures Classify(t.critical, t, lowerIsWorse) == High
  {
  }

  /**
   * The status never improves as the value moves in the bad direction. This
   * holds for any thresholds, ordered or not.
   */
  lemma ClassifyMonotone(v1: real, v2: real, t: Thresholds)
    requires v1 <= v2
    ensures Classify(v1, t, false).Rank() <= Classify(v2, t, false).Rank()
    ensures Classify(v2, t, true).Rank() <= Classify(v1, t, true).Rank()
  {
  }

  function Negated(t: Thresholds): Thresholds {
    Thresholds(-t.elevated, -t.high, -t.critical)
  }

  /** Lower-is-worse classification is higher-is-worse classification of the negated value. */
  lemma ClassifyMirror(value: real, t: Thresholds)
    ensures Classify(value, t, true) == Classify(-value, Negated(t), false)
  {
  }

  /**
   * calculateSeverity: NORMAL 0, ELEVATED 3, HIGH 6, CRITICAL 9, and 0 for any
   * other status.
   */
  function Severity(s: Status): (r: nat)
    ensures r in {0, 3, 6, 9}
    ensures r == 3 * s.Rank()
    ensures r == 0 <==> s == Normal || s == Unknown
  {
    match s
    case Normal => 0
    case Elevated => 3
    case High => 6
    case Critical => 9
    case Unknown => 0
  }

  /** A classified value has severity 0 exactly when it is NORMAL. */
  lemma ClassifiedSeverityZeroIffNormal(value: real, t: Thresholds, lowerIsWorse: bool)
    ensures Severity(Classify(value, t, lowerIsWorse)) == 0 <==> Classify(value, t, lowerIsWorse) == Normal
  {
  }

  /** Severity grows with the value in the bad direction, for any thresholds. */
  lemma SeverityMonotone(v1: real, v2: real, t: Thresholds)
    requires v1 <= v2
    ensures Severity(Classify(v1, t, false)) <= Severity(Classify(v2, t, false))
    ensures Severity(Classify(v2, t, true)) <= Severity(Classify(v1, t, true))
  {
    ClassifyMonotone(v1, v2, t);
  }

  /**
   * generateReferenceRange: "0-" and the elevated threshold when higher is
   * worse, ">" and the elevated threshold when lower is worse. `show` is the
   * number-to-text conversion of the host language.
   */
  function ReferenceRange(t: Thresholds, lowerIsWorse: bool, show: real -> string): (r: string)
    ensures |r| == (if lowerIsWorse then 1 else 2) + |show(t.elevated)|
    ensures r[0] == '>' <==> lowerIsWorse
    ensures r[(if lowerIsWorse then 1 else 2)..] == show(t.elevated)
    ensures lowerIsWorse ==> r[..1] == ">"
    ensures !lowerIsWorse ==> r[..2] == "0-"
  {
    if lowerIsWorse then ">" + show(t.elevated) else "0-" + show(t.elevated)
  }

  /** Only the elevated threshold and the direction enter the reference range. */
  lemma ReferenceRangeDependsOnElevated(t1: Thresholds, t2: Thresholds, lowerIsWorse: bool, show: real -> string)
    requires t1.elevated == t2.elevated
    ensures ReferenceRange(t1, lowerIsWorse, show) == ReferenceRange(t2, lowerIsWorse, show)
  {
  }

  /**
   * The threshold printed in the reference range is the edge of the NORMAL
   * band: with ordered thresholds a value is NORMAL exactly when it is not
   * past the elevated threshold (so a lower-is-worse value equal to it is
   * NORMAL, although the text reads ">").
   */
  lemma NormalBandEdge(value: real, t: Thresholds, lowerIsWorse: bool)
    requires Ordered(t, lowerIsWorse)
    ensures Classify(value, t, lowerIsWorse) == Normal <==> !Beyond(value, t.elevated, lowerIsWorse)
  {
  }

  /** One raw lab reading, before classification */
  datatype Reading = Reading(
    code: string, name: string, category: string,
    value: real, unit: string, lowerIsWorse: bool, thresholds: Thresholds)

  /** A marker as the engine passes it on: the reading plus the derived fields */
  datatype Marker = Marker(
    code: string, name: string, category: string,
    value: real, unit: string, lowerIsWorse: bool, thresholds: Thresholds,
    status: Status, severity: real, referenceRange: string)

  /** The marker's severity is the one its status maps to. */
  predicate SeverityConsistent(m: Marker) {
    m.severity == Severity(m.status) as real
  }

  /** Severities of consistent markers lie on the 0..9 scale. */
  predicate OnSeverityScale(ms: seq<Marker>) {
    forall m :: m in ms ==> 0.0 <= m.severity <= 9.0
  }

  /**
   * The evaluation of one reading in generateVIPMarkers: status from the
   * classifier, severity from the status, reference range from the thresholds;
   * the reading's own fields are kept.
   */
  function Evaluate(r: Reading, show: real -> string): (m: Marker)
    ensures m.code == r.code && m.name == r.name && m.category == r.category
    ensures m.value == r.value && m.unit == r.unit
    ensures m.lowerIsWorse == r.lowerIsWorse && m.thresholds == r.thresholds
    ensures m.status == Classify(r.value, r.thresholds, r.lowerIsWorse)
    ensures m.referenceRange == ReferenceRange(r.thresholds, r.lowerIsWorse, show)
    ensures SeverityConsistent(m) && !m.status.Unknown?
    ensures m.severity == 0.0 <==> m.status == Normal
    ensures 0.0 <= m.severity <= 9.0
  {
    var status := Classify(r.value, r.thresholds, r.lowerIsWorse);
    Marker(r.code, r.name, r.category, r.value, r.unit, r.lowerIsWorse, r.thresholds,
           status, Severity(status) as real, ReferenceRange(r.thresholds, r.lowerIsWorse, show))
  }

  /** The reduce `(sum, m) => sum + m.severity` over a list of markers */
  function SumSeverity(ms: seq<Marker>): real {
    if ms == [] then 0.0 else ms[0].severity + SumSeverity(ms[1..])
  }

  /** Arithmetic mean of the severities */
  function Mean(ms: seq<Marker>): real
    requires |ms| > 0
  {
    SumSeverity(ms) / |ms| as real
  }

  lemma {:induction false} SumSeverityAppend(a: seq<Marker>, b: seq<Marker>)
    ensures SumSeverity(a + b) == SumSeverity(a) + SumSeverity(b)
  {
    if a != [] {
      assert (a + b)[0] == a[0] && (a + b)[1..] == a[1..] + b;
      SumSeverityAppend(a[1..], b);
    } else {
      assert a + b == b;
    }
  }

  /** An upper bound on every severity bounds the sum. */
  lemma {:induction false} SumSeverityAtMost(ms: seq<Marker>, hi: real)
    requires forall m :: m in ms ==> m.severity <= hi
    ensures SumSeverity(ms) <= |ms| as real * hi
  {
    if ms != [] {
      assert ms[0] in ms;
      SumSeverityAtMost(ms[1..], hi);
    }
  }

  /** A lower bound on every severity bounds the sum. */
  lemma {:induction false} SumSeverityAtLeast(ms: seq<Marker>, lo: real)
    requires forall m :: m in ms ==> lo <= m.severity
    ensures |ms| as real * lo <= SumSeverity(ms)
  {
    if ms != [] {
      assert ms[0] in ms;
      SumSeverityAtLeast(ms[1..], lo);
    }
  }

  /** The mean lies between any bounds on the severities. */
  lemma MeanBounds(ms: seq<Marker>, lo: real, hi: real)
    requires |ms| > 0
    requires forall m :: m in ms ==> lo <= m.severity <= hi
    ensures lo <= Mean(ms) <= hi
  {
    SumSeverityAtMost(ms, hi);
    SumSeverityAtLeast(ms, lo);
    var n := |ms| as real;
    assert Mean(ms) * n == SumSeverity(ms);
  }

  /** A sum that reaches an upper bound of all severities means every severity is at it. */
  lemma {:induction false} SumAtUpperBound(ms: seq<Marker>, hi: real)
    requires forall m :: m in ms ==> m.severity <= hi
    requires SumSeverity(ms) == |ms| as real * hi
    ensures forall m :: m in ms ==> m.severity == hi
  {
    if ms != [] {
      assert ms[0] in ms;
      SumSeverityAtMost(ms[1..], hi);
      assert ms[0].severity == hi;
      SumAtUpperBound(ms[1..], hi);
      assert ms == [ms[0]] + ms[1..];
    }
  }

  /** A mean at an upper bound of all severities means every severity is at it. */
  lemma MeanAtUpperBound(ms: seq<Marker>, hi: real)
    requires |ms| > 0
    requires forall m :: m in ms ==> m.severity <= hi
    requires Mean(ms) == hi
    ensures forall m :: m in ms ==> m.severity == hi
  {
    var n := |ms| as real;
    assert SumSeverity(ms) == Mean(ms) * n;
    SumAtUpperBound(ms, hi);
  }
}
