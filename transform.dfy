/**
 * The category-name normalisation of transformAPIResponse
 * (src/services/api.js): backend category names are mapped to the names the
 * front end uses, on every marker and on every key of `category_risks`, and
 * each category's `risk_level` is derived again from its average severity.
 */
module Transform {
  import opened Wrappers
  import opened Tables
  import Markers
  import opened CategoryRisks

  type Marker = Markers.Marker

  /** The `categoryMapping` table */
  const CategoryMapping: map<string, string> := map[
    "Liver" := "Liver Function",
    "Kidney" := "Kidney Function",
    "Hormones" := "Hormones",
    "Inflammation" := "Inflammation",
    "Metabolism" := "Metabolism",
    "Cardiovascular" := "Cardiovascular",
    "Vitamins/Minerals" := "Vitamins/Minerals",
    "Blood Health" := "Blood Health",
    "Thyroid Function" := "Thyroid Function"]

  /**
   * `categoryMapping[c] || c`: only "Liver" and "Kidney" are renamed, every
   * other name, listed or not, is kept.
   */
  function MapCategory(c: string): (r: string)
    ensures c == "Liver" ==> r == "Liver Function"
    ensures c == "Kidney" ==> r == "Kidney Function"
    ensures c != "Liver" && c != "Kidney" ==> r == c
  {
    if c in CategoryMapping then CategoryMapping[c] else c
  }

  /** Mapping a name twice changes nothing more. */
  lemma MapCategoryIdempotent(c: string)
    ensures MapCategory(MapCategory(c)) == MapCategory(c)
    ensures MapCategory(c) != "Liver" && MapCategory(c) != "Kidney"
  {
  }

  /**
   * Every name the mapping produces for a listed backend name has its own
   * weight in the weight table; the two renamed backend names do not.
   */
  lemma MappedNamesAreWeighted()
    ensures forall c :: c in CategoryMapping ==> MapCategory(c) in Weights
    ensures "Liver" !in Weights && CategoryWeight("Liver") == 1.0
    ensures CategoryWeight(MapCategory("Liver")) == 1.2
    ensures CategoryWeight(MapCategory("Kidney")) == 1.2
  {
  }

  /** The `transformedMarkers` map: each marker with its category renamed */
  function NormaliseMarkers(ms: seq<Marker>): (r: seq<Marker>)
    ensures |r| == |ms|
    ensures forall i :: 0 <= i < |ms| ==> r[i] == ms[i].(category := MapCategory(ms[i].category))
  {
    seq(|ms|, i requires 0 <= i < |ms| => ms[i].(category := MapCategory(ms[i].category)))
  }

  /**
   * Normalising twice is normalising once, and normalised markers never
   * carry a backend-only category name.
   */
  lemma NormaliseMarkersIdempotent(ms: seq<Marker>)
    ensures NormaliseMarkers(NormaliseMarkers(ms)) == NormaliseMarkers(ms)
    ensures forall m :: m in NormaliseMarkers(ms) ==> m.category != "Liver" && m.category != "Kidney"
  {
    var once := NormaliseMarkers(ms);
    forall i | 0 <= i < |ms|
      ensures NormaliseMarkers(once)[i] == once[i]
    {
      MapCategoryIdempotent(ms[i].category);
    }
  }

  /** `{...categoryData, risk_level: getRiskLevelFromSeverity(average_severity)}` */
  function Rerated(e: CategoryRisk): (r: CategoryRisk)
    ensures r.riskLevel == RiskLevelFromSeverity(r.averageSeverity)
    ensures r.averageSeverity == e.averageSeverity && r.weight == e.weight
    ensures r.weightedScore == e.weightedScore && r.markersCount == e.markersCount
  {
    e.(riskLevel := RiskLevelFromSeverity(e.averageSeverity))
  }

  /** An entry whose level already matches its average is kept as it is. */
  lemma ReratedKeepsConsistent(e: CategoryRisk)
    requires e.riskLevel == RiskLevelFromSeverity(e.averageSeverity)
    ensures Rerated(e) == e
  {
  }

  /**
   * The object the forEach builds from the entries `keys` of
   * `category_risks`, taken in key order: each assigns the re-rated entry to
   * the name `rename` gives it (MapCategory for the source).
   */
  function Relabel(rename: string -> string, entries: map<string, CategoryRisk>, keys: seq<string>): Table<CategoryRisk>
    requires forall k :: k in keys ==> k in entries
  {
    if keys == [] then Empty()
    else
      var k := keys[|keys| - 1];
      Relabel(rename, entries, keys[..|keys| - 1]).Put(rename(k), Rerated(entries[k]))
  }

  /** The names `rename` gives the keys */
  function MappedNames(rename: string -> string, keys: seq<string>): (r: set<string>)
    ensures forall i :: 0 <= i < |keys| ==> rename(keys[i]) in r
  {
    if keys == [] then {} else MappedNames(rename, keys[..|keys| - 1]) + {rename(keys[|keys| - 1])}
  }

  /** Every name in MappedNames is the name of some key. */
  lemma {:induction false} MappedNamesFrom(rename: string -> string, keys: seq<string>, x: string)
    requires x in MappedNames(rename, keys)
    ensures exists i :: 0 <= i < |keys| && rename(keys[i]) == x
  {
    var front := keys[..|keys| - 1];
    if x != rename(keys[|keys| - 1]) {
      MappedNamesFrom(rename, front, x);
      var i :| 0 <= i < |front| && rename(front[i]) == x;
      assert keys[i] == front[i];
    }
  }

  /** The result is a well-formed object whose keys are exactly the mapped names. */
  lemma {:induction false} RelabelKeys(rename: string -> string, entries: map<string, CategoryRisk>, keys: seq<string>)
    requires forall k :: k in keys ==> k in entries
    ensures Relabel(rename, entries, keys).Valid()
    ensures Relabel(rename, entries, keys).entries.Keys == MappedNames(rename, keys)
  {
    if keys != [] {
      var front := keys[..|keys| - 1];
      var k := keys[|keys| - 1];
      RelabelKeys(rename, entries, front);
      assert Relabel(rename, entries, keys) == Relabel(rename, entries, front).Put(rename(k), Rerated(entries[k]));
    }
  }

  /** Every entry of the result carries the level banded from its average severity. */
  lemma {:induction false} RelabelLevels(rename: string -> string, entries: map<string, CategoryRisk>, keys: seq<string>)
    requires forall k :: k in keys ==> k in entries
    ensures forall c :: c in Relabel(rename, entries, keys).entries ==>
      Relabel(rename, entries, keys).entries[c].riskLevel == RiskLevelFromSeverity(Relabel(rename, entries, keys).entries[c].averageSeverity)
  {
    if keys != [] {
      RelabelLevels(rename, entries, keys[..|keys| - 1]);
    }
  }

  /**
   * The entry under a mapped name is the re-rated entry of the LAST key that
   * maps to it: a later key overwrites an earlier one.
   */
  lemma {:induction false} RelabelLastWins(rename: string -> string, entries: map<string, CategoryRisk>, keys: seq<string>, j: nat)
    requires forall k :: k in keys ==> k in entries
    requires j < |keys|
    requires forall i :: j < i < |keys| ==> rename(keys[i]) != rename(keys[j])
    ensures rename(keys[j]) in Relabel(rename, entries, keys).entries
    ensures Relabel(rename, entries, keys).entries[rename(keys[j])] == Rerated(entries[keys[j]])
  {
    if j < |keys| - 1 {
      var front := keys[..|keys| - 1];
      assert keys[j] == front[j];
      forall i | j < i < |front|
        ensures rename(front[i]) != rename(front[j])
      {
        assert front[i] == keys[i];
      }
      RelabelLastWins(rename, entries, front, j);
    }
  }

  /** Under an injective renaming the last key's name is not among the earlier keys' names. */
  lemma LastNameIsNew(rename: string -> string, entries: map<string, CategoryRisk>, keys: seq<string>)
    requires keys != [] && forall k :: k in keys ==> k in entries
    requires forall i, j :: 0 <= i < j < |keys| ==> rename(keys[i]) != rename(keys[j])
    ensures rename(keys[|keys| - 1]) !in Relabel(rename, entries, keys[..|keys| - 1]).entries
  {
    var front := keys[..|keys| - 1];
    var k := keys[|keys| - 1];
    RelabelKeys(rename, entries, front);
    forall i | 0 <= i < |front|
      ensures rename(front[i]) != rename(k)
    {
      assert front[i] == keys[i];
    }
    if rename(k) in MappedNames(rename, front) {
      MappedNamesFrom(rename, front, rename(k));
    }
  }

  /**
   * When no two keys map to the same name, each key gives its own entry, in
   * the same position of the key order.
   */
  lemma {:induction false} RelabelInjective(rename: string -> string, entries: map<string, CategoryRisk>, keys: seq<string>)
    requires forall k :: k in keys ==> k in entries
    requires forall i, j :: 0 <= i < j < |keys| ==> rename(keys[i]) != rename(keys[j])
    ensures |Relabel(rename, entries, keys).keys| == |keys|
    ensures forall i :: 0 <= i < |keys| ==> Relabel(rename, entries, keys).keys[i] == rename(keys[i])
  {
    if keys != [] {
      var front := keys[..|keys| - 1];
      RelabelInjective(rename, entries, front);
      var k := keys[|keys| - 1];
      var prev := Relabel(rename, entries, front);
      LastNameIsNew(rename, entries, keys);
      assert Relabel(rename, entries, keys).keys == prev.keys + [rename(k)];
      forall i | 0 <= i < |keys|
        ensures Relabel(rename, entries, keys).keys[i] == rename(keys[i])
      {
        if i < |front| {
          assert keys[i] == front[i];
        }
      }
    }
  }

  /**
   * Backend names "Liver" and "Liver Function" collide: the two categories
   * become one, holding the later one's data.
   */
  lemma LiverCollision(a: CategoryRisk, b: CategoryRisk)
    ensures Relabel(MapCategory, map["Liver" := a, "Liver Function" := b], ["Liver", "Liver Function"])
      == Table(["Liver Function"], map["Liver Function" := Rerated(b)])
  {
    var entries := map["Liver" := a, "Liver Function" := b];
    var keys := ["Liver", "Liver Function"];
    assert keys[..1] == ["Liver"];
    assert keys[..1][..0] == [];
    assert ["Liver"][..0] == [];
    assert MapCategory("Liver") == "Liver Function" && MapCategory("Liver Function") == "Liver Function";
    assert Relabel(MapCategory, entries, []) == Empty();
    var first := Relabel(MapCategory, entries, ["Liver"]);
    assert first == Relabel(MapCategory, entries, []).Put(MapCategory("Liver"), Rerated(entries["Liver"]));
    assert first == Table(["Liver Function"], map["Liver Function" := Rerated(a)]);
    assert map["Liver Function" := Rerated(a)]["Liver Function" := Rerated(b)]
      == map["Liver Function" := Rerated(b)];
  }

  /**
   * A well-formed table whose names the renaming keeps and whose levels already
   * band their averages comes out of the re-labelling unchanged.
   */
  lemma RelabelIdentity(rename: string -> string, t: Table<CategoryRisk>)
    requires t.Valid()
    requires forall k :: k in t.keys ==> rename(k) == k
    requires forall k :: k in t.entries ==> t.entries[k].riskLevel == RiskLevelFromSeverity(t.entries[k].averageSeverity)
    ensures Relabel(rename, t.entries, t.keys) == t
  {
    RelabelInjective(rename, t.entries, t.keys);
    RelabelIdentityEntries(rename, t);
  }

  lemma RelabelIdentityEntries(rename: string -> string, t: Table<CategoryRisk>)
    requires t.Valid()
    requires forall k :: k in t.keys ==> rename(k) == k
    requires forall k :: k in t.entries ==> t.entries[k].riskLevel == RiskLevelFromSeverity(t.entries[k].averageSeverity)
    ensures Relabel(rename, t.entries, t.keys).entries == t.entries
  {
    var r := Relabel(rename, t.entries, t.keys);
    RelabelIdentityValues(rename, t);
    forall k | k in r.entries
      ensures k in t.entries
    {
      RelabelKeys(rename, t.entries, t.keys);
      MappedNamesFrom(rename, t.keys, k);
    }
  }

  lemma RelabelIdentityValues(rename: string -> string, t: Table<CategoryRisk>)
    requires t.Valid()
    requires forall k :: k in t.keys ==> rename(k) == k
    requires forall k :: k in t.entries ==> t.entries[k].riskLevel == RiskLevelFromSeverity(t.entries[k].averageSeverity)
    ensures forall k :: k in t.entries ==>
      k in Relabel(rename, t.entries, t.keys).entries && Relabel(rename, t.entries, t.keys).entries[k] == t.entries[k]
  {
    forall k | k in t.entries
      ensures k in Relabel(rename, t.entries, t.keys).entries && Relabel(rename, t.entries, t.keys).entries[k] == t.entries[k]
    {
      var j :| 0 <= j < |t.keys| && t.keys[j] == k;
      RelabelLastWins(rename, t.entries, t.keys, j);
      ReratedKeepsConsistent(t.entries[k]);
    }
  }

  /**
   * The front end's re-labelling leaves the engine's own category table as it
   * is when no marker carries a backend-only category name.
   */
  lemma RelabelKeepsEngineTable(ms: seq<Marker>)
    requires forall m :: m in ms ==> m.category != "Liver" && m.category != "Kidney"
    ensures Relabel(MapCategory, RisksOf(ms).categories.entries, RisksOf(ms).categories.keys) == RisksOf(ms).categories
  {
    var t := RisksOf(ms).categories;
    RisksTable(ms);
    forall k | k in t.keys
      ensures MapCategory(k) == k
    {
      assert HasCategory(ms, k);
    }
    forall k | k in t.entries
      ensures t.entries[k].riskLevel == RiskLevelFromSeverity(t.entries[k].averageSeverity)
    {
      RiskEntry(ms, k);
    }
    RelabelIdentity(MapCategory, t);
  }

  /**
   * The loop over `Object.keys(category_risks)`; when the response has no
   * risk assessment or no `category_risks`, the result is the empty object.
   */
  method TransformCategoryRisks(categoryRisks: Option<Table<CategoryRisk>>) returns (result: Table<CategoryRisk>)
    requires categoryRisks.Some? ==> categoryRisks.value.Valid()
    ensures categoryRisks.None? ==> result == Empty()
    ensures categoryRisks.Some? ==> result == Relabel(MapCategory, categoryRisks.value.entries, categoryRisks.value.keys)
  {
    result := Empty();
    if categoryRisks.Some? {
      var t := categoryRisks.value;
      for i := 0 to |t.keys|
        invariant result == Relabel(MapCategory, t.entries, t.keys[..i])
      {
        assert t.keys[..i + 1][..i] == t.keys[..i];
        var category := t.keys[i];
        var categoryData := t.entries[category];
        var mappedCategory := MapCategory(category);
        result := result.Put(mappedCategory, Rerated(categoryData));
      }
      assert t.keys[..|t.keys|] == t.keys;
    }
  }
}
