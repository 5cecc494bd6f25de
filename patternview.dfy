/**
 * The pattern panel of the front end (src/components/PatternDetection.jsx):
 * its severity bands and colours, the copy of the pattern list sorted by
 * descending severity, the Critical Patterns count and the marker count
 * shown on each card.
 */
module PatternDetectionView {
  import opened Wrappers
  import Markers
  import Patterns

  type Pattern = Patterns.Pattern

  /** The panel's severity bands */
  datatype SeverityLevel = Low | Moderate | High {
    function Label(): string {
      match this
      case Low => "Low"
      case Moderate => "Moderate"
      case High => "High"
    }
  }

  /** getSeverityLevel: Low below 3, Moderate below 6, else High */
  function SeverityLevelOf(severity: real): SeverityLevel {
    if severity < 3.0 then Low
    else if severity < 6.0 then Moderate
    else High
  }

  /** Each level is the half-open band of severities it covers. */
  lemma SeverityLevelBands(severity: real)
    ensures SeverityLevelOf(severity) == Low <==> severity < 3.0
    ensures SeverityLevelOf(severity) == Moderate <==> 3.0 <= severity < 6.0
    ensures SeverityLevelOf(severity) == High <==> 6.0 <= severity
  {
  }

  /** getSeverityColor: green below 3, orange below 6, else red */
  function SeverityColor(severity: real): string {
    if severity < 3.0 then "#10b981"
    else if severity < 6.0 then "#f59e0b"
    else "#ef4444"
  }

  /** The colour that goes with each level */
  function LevelColor(level: SeverityLevel): string {
    match level
    case Low => "#10b981"
    case Moderate => "#f59e0b"
    case High => "#ef4444"
  }

  /** The colour and the level are banded alike: the colour is always the level's colour, and distinct levels have distinct colours. */
  lemma ColorAgreesWithLevel(severity: real)
    ensures SeverityColor(severity) == LevelColor(SeverityLevelOf(severity))
    ensures forall a: SeverityLevel, b: SeverityLevel :: LevelColor(a) == LevelColor(b) ==> a == b
  {
  }

  /** Patterns in non-increasing order of severity */
  predicate SortedBySeverity(ps: seq<Pattern>) {
    forall i, j :: 0 <= i < j < |ps| ==> ps[i].severity >= ps[j].severity
  }

  /**
   * Insertion of `p` into a list sorted by descending severity, in front of
   * the first pattern it is not less severe than.
   */
  function Insert(p: Pattern, s: seq<Pattern>): (r: seq<Pattern>)
    ensures multiset(r) == multiset(s) + multiset{p}
    ensures |r| == |s| + 1
  {
    if s == [] || p.severity >= s[0].severity then [p] + s
    else
      assert s == [s[0]] + s[1..];
      [s[0]] + Insert(p, s[1..])
  }

  /** Insertion keeps a list sorted. */
  lemma {:induction false} InsertSorted(p: Pattern, s: seq<Pattern>)
    requires SortedBySeverity(s)
    ensures SortedBySeverity(Insert(p, s))
  {
    if s != [] && p.severity < s[0].severity {
      InsertSorted(p, s[1..]);
      forall x | x in s[1..]
        ensures x.severity <= s[0].severity
      {
        var i :| 0 <= i < |s[1..]| && s[1..][i] == x;
        assert s[i + 1] == x;
      }
      InsertBounded(p, s[1..], s[0].severity);
      ConsSorted(s[0], Insert(p, s[1..]));
    }
  }

  /** Inserting below a bound keeps every severity below it. */
  lemma InsertBounded(p: Pattern, s: seq<Pattern>, bound: real)
    requires p.severity <= bound
    requires forall x :: x in s ==> x.severity <= bound
    ensures forall x :: x in Insert(p, s) ==> x.severity <= bound
  {
    forall x | x in Insert(p, s)
      ensures x.severity <= bound
    {
      assert x in multiset(Insert(p, s));
      if x != p {
        assert x in multiset(s);
      }
    }
  }

  /** A sorted list stays sorted under a head at least as severe as all of it. */
  lemma ConsSorted(h: Pattern, rest: seq<Pattern>)
    requires SortedBySeverity(rest)
    requires forall x :: x in rest ==> x.severity <= h.severity
    ensures SortedBySeverity([h] + rest)
  {
    var r := [h] + rest;
    forall i, j | 0 <= i < j < |r|
      ensures r[i].severity >= r[j].severity
    {
      assert r[j] == rest[j - 1];
      if i > 0 {
        assert r[i] == rest[i - 1];
      }
    }
  }

  /**
   * `[...patterns].sort((a, b) => b.severity - a.severity)`: a new list, the
   * same patterns by multiplicity, most severe first; the input is a value
   * and stays as it was.
   */
  function SortBySeverity(ps: seq<Pattern>): (r: seq<Pattern>)
    ensures multiset(r) == multiset(ps)
    ensures |r| == |ps|
    ensures SortedBySeverity(r)
  {
    if ps == [] then []
    else
      assert ps == [ps[0]] + ps[1..];
      InsertSorted(ps[0], SortBySeverity(ps[1..]));
      Insert(ps[0], SortBySeverity(ps[1..]))
  }

  /** The patterns of severity `v`, in list order */
  function OfSeverity(ps: seq<Pattern>, v: real): (r: seq<Pattern>)
    ensures forall p :: p in r <==> p in ps && p.severity == v
  {
    if ps == [] then []
    else
      assert ps == [ps[0]] + ps[1..];
      (if ps[0].severity == v then [ps[0]] else []) + OfSeverity(ps[1..], v)
  }

  lemma OfSeverityCons(x: Pattern, t: seq<Pattern>, v: real)
    ensures OfSeverity([x] + t, v) == (if x.severity == v then [x] else []) + OfSeverity(t, v)
  {
    assert ([x] + t)[0] == x && ([x] + t)[1..] == t;
  }

  /** Insertion puts `p` in front of every pattern of its own severity. */
  lemma {:induction false} InsertOfSeverity(p: Pattern, s: seq<Pattern>, v: real)
    ensures OfSeverity(Insert(p, s), v) == (if p.severity == v then [p] else []) + OfSeverity(s, v)
  {
    if s != [] && p.severity < s[0].severity {
      InsertOfSeverity(p, s[1..], v);
      InsertPastHead(p, s, v);
    } else {
      assert Insert(p, s) == [p] + s;
      OfSeverityCons(p, s, v);
    }
  }

  /** The step of InsertOfSeverity where `p` goes past the head. */
  lemma InsertPastHead(p: Pattern, s: seq<Pattern>, v: real)
    requires s != [] && p.severity < s[0].severity
    requires OfSeverity(Insert(p, s[1..]), v) == (if p.severity == v then [p] else []) + OfSeverity(s[1..], v)
    ensures OfSeverity(Insert(p, s), v) == (if p.severity == v then [p] else []) + OfSeverity(s, v)
  {
    assert Insert(p, s) == [s[0]] + Insert(p, s[1..]);
    OfSeverityCons(s[0], Insert(p, s[1..]), v);
    assert s == [s[0]] + s[1..];
    OfSeverityCons(s[0], s[1..], v);
    SwapDisjoint(if p.severity == v then [p] else [], if s[0].severity == v then [s[0]] else [], OfSeverity(s[1..], v));
  }

  lemma SwapDisjoint(a: seq<Pattern>, b: seq<Pattern>, t: seq<Pattern>)
    requires a == [] || b == []
    ensures b + (a + t) == a + (b + t)
  {
  }

  /**
   * The sort is stable: for every severity, the patterns of that severity
   * appear in the sorted copy in the order they had in the input.
   */
  lemma {:induction false} SortBySeverityStable(ps: seq<Pattern>, v: real)
    ensures OfSeverity(SortBySeverity(ps), v) == OfSeverity(ps, v)
  {
    if ps != [] {
      SortBySeverityStable(ps[1..], v);
      InsertOfSeverity(ps[0], SortBySeverity(ps[1..]), v);
    }
  }

  /** A pattern counted under Critical Patterns */
  predicate IsCritical(p: Pattern) {
    p.severity >= 6.0
  }

  /** `patterns.filter(p => p.severity >= 6).length` */
  function CriticalCount(ps: seq<Pattern>): (n: nat)
    ensures n <= |ps|
  {
    if ps == [] then 0 else (if IsCritical(ps[0]) then 1 else 0) + CriticalCount(ps[1..])
  }

  /** Inserting a pattern adds one to the count exactly when it is critical. */
  lemma {:induction false} CriticalCountInsert(p: Pattern, s: seq<Pattern>)
    ensures CriticalCount(Insert(p, s)) == CriticalCount(s) + (if IsCritical(p) then 1 else 0)
  {
    if s != [] && p.severity < s[0].severity {
      CriticalCountInsert(p, s[1..]);
      assert ([s[0]] + Insert(p, s[1..]))[1..] == Insert(p, s[1..]);
    } else {
      assert ([p] + s)[1..] == s;
    }
  }

  /** Sorting does not change the Critical Patterns count. */
  lemma {:induction false} CriticalCountSorted(ps: seq<Pattern>)
    ensures CriticalCount(SortBySeverity(ps)) == CriticalCount(ps)
  {
    if ps != [] {
      CriticalCountSorted(ps[1..]);
      CriticalCountInsert(ps[0], SortBySeverity(ps[1..]));
    }
  }

  /** A pattern is counted as critical exactly when its card shows the High level. */
  lemma CriticalIsHighLevel(p: Pattern)
    ensures IsCritical(p) <==> SeverityLevelOf(p.severity) == High
  {
  }

  /** In the sorted list the critical patterns come first. */
  lemma {:induction false} CriticalFirst(ps: seq<Pattern>)
    requires SortedBySeverity(ps)
    ensures forall i :: 0 <= i < CriticalCount(ps) ==> IsCritical(ps[i])
    ensures forall i :: CriticalCount(ps) <= i < |ps| ==> !IsCritical(ps[i])
  {
    if ps != [] {
      CriticalFirst(ps[1..]);
      if !IsCritical(ps[0]) {
        CriticalNone(ps);
      } else {
        forall i | 0 <= i < CriticalCount(ps)
          ensures IsCritical(ps[i])
        {
          if i > 0 {
            assert ps[i] == ps[1..][i - 1];
          }
        }
        forall i | CriticalCount(ps) <= i < |ps|
          ensures !IsCritical(ps[i])
        {
          assert ps[i] == ps[1..][i - 1];
        }
      }
    }
  }

  /** A sorted list headed by a non-critical pattern has no critical pattern. */
  lemma {:induction false} CriticalNone(ps: seq<Pattern>)
    requires SortedBySeverity(ps) && ps != [] && !IsCritical(ps[0])
    ensures CriticalCount(ps) == 0
  {
    if |ps| > 1 {
      assert ps[1..][0] == ps[1];
      CriticalNone(ps[1..]);
    }
  }

  /** `pattern.trigger_count || pattern.markers_affected.length` */
  function DisplayedMarkerCount(p: Pattern): (n: nat)
    ensures p.triggerCount != 0 ==> n == p.triggerCount
    ensures p.triggerCount == 0 ==> n == |p.markersAffected|
  {
    if p.triggerCount != 0 then p.triggerCount else |p.markersAffected|
  }

  /**
   * For a pattern the engine detected the card shows its trigger count: the
   * number of affected markers except for Insulin Resistance, where it can
   * be fewer than the markers listed.
   */
  lemma DisplayedCountOfDetected(ms: seq<Markers.Marker>, p: Pattern)
    requires p in Patterns.Detect(ms)
    ensures DisplayedMarkerCount(p) == p.triggerCount <= |p.markersAffected|
    ensures p.name != Patterns.InsulinResistance.name ==> DisplayedMarkerCount(p) == |p.markersAffected|
  {
    Patterns.PatternShape(ms, p);
  }

  /** What the panel shows */
  datatype Panel =
    | NoPatterns
    | Shown(total: nat, sorted: seq<Pattern>, critical: nat)

  /**
   * The component: a missing or empty list takes the "no patterns" branch and
   * nothing else is computed; otherwise the count, the sorted copy and the
   * critical count.
   */
  function PatternPanel(patterns: Option<seq<Pattern>>): (panel: Panel)
    ensures panel.NoPatterns? <==> patterns.None? || patterns.value == []
    ensures panel.Shown? ==> panel.total == |patterns.value| > 0
    ensures panel.Shown? ==> multiset(panel.sorted) == multiset(patterns.value) && SortedBySeverity(panel.sorted)
    ensures panel.Shown? ==> panel.critical == CriticalCount(panel.sorted) <= panel.total
  {
    if patterns.None? || patterns.value == [] then NoPatterns
    else
      var ps := patterns.value;
      CriticalCountSorted(ps);
      Shown(|ps|, SortBySeverity(ps), CriticalCount(ps))
  }
}
