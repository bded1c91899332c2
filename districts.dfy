/**
 * The pure part of `loadDistrictsData` in src/pages/Findings.jsx: keep the
 * district features of the three target provinces and add the `province`
 * and `districtName` properties. Fetching and parsing the GeoJSON are not
 * part of this model.
 */
module Districts {
  import opened Wrappers
  import opened Geo

  const TargetProvinces: seq<string> := ["ACEH", "SUMATERA UTARA", "SUMATERA BARAT"]

  /** Reading a property; an absent key reads as `undefined`. */
  function Prop(f: Feature, key: string): Option<string>
  {
    if key in f.properties then Some(f.properties[key]) else None
  }

  /** JavaScript truthiness of a property value: present and not the empty string. */
  predicate Truthy(v: Option<string>)
  {
    v.Some? && v.value != ""
  }

  /** `targetProvinces.includes(f.properties.nmprov)` */
  predicate IsTarget(f: Feature)
  {
    Prop(f, "nmprov").Some? && Prop(f, "nmprov").value in TargetProvinces
  }

  /** Writing a property: `undefined` leaves the key out. */
  function SetProp(props: map<string, string>, key: string, v: Option<string>): map<string, string>
  {
    match v
    case Some(s) => props[key := s]
    case None => props - {key}
  }

  /** The name the source shows for a district: `nmkab || name`. */
  function DistrictName(f: Feature): Option<string>
  {
    if Truthy(Prop(f, "nmkab")) then Prop(f, "nmkab") else Prop(f, "name")
  }

  /** The projection applied to each kept feature. */
  function Project(f: Feature): (g: Feature)
    ensures g.geometry == f.geometry
    ensures Prop(g, "province") == Prop(f, "nmprov")
    ensures Truthy(Prop(f, "nmkab")) ==> Prop(g, "districtName") == Prop(f, "nmkab")
    ensures !Truthy(Prop(f, "nmkab")) ==> Prop(g, "districtName") == Prop(f, "name")
    ensures forall k :: k != "province" && k != "districtName" ==> Prop(g, k) == Prop(f, k)
  {
    var withProvince := SetProp(f.properties, "province", Prop(f, "nmprov"));
    Feature(f.geometry, SetProp(withProvince, "districtName", DistrictName(f)))
  }

  /** `geojson.features.filter(...)` */
  function FilterTargets(fs: seq<Feature>): seq<Feature>
  {
    if fs == [] then []
    else (if IsTarget(fs[0]) then [fs[0]] else []) + FilterTargets(fs[1..])
  }

  /** `filteredFeatures.map(...)` */
  function ProjectAll(fs: seq<Feature>): (gs: seq<Feature>)
    ensures |gs| == |fs|
    ensures forall i :: 0 <= i < |fs| ==> gs[i] == Project(fs[i])
  {
    if fs == [] then [] else [Project(fs[0])] + ProjectAll(fs[1..])
  }

  /** The features `loadDistrictsData` returns for the parsed collection `fs`. */
  function LoadedDistricts(fs: seq<Feature>): seq<Feature>
  {
    ProjectAll(FilterTargets(fs))
  }

  /**
   * A feature as the parsed file delivers it: `properties` is `None` when the
   * member is `null` or missing, as RFC 7946, section 3.2, allows.
   */
  datatype ParsedFeature = ParsedFeature(geometry: Geometry, properties: Option<map<string, string>>)

  predicate HasProperties(p: ParsedFeature)
  {
    p.properties.Some?
  }

  /** The parsed features as `Feature`s, once each one carries a property map. */
  function WithProperties(ps: seq<ParsedFeature>): seq<Feature>
    requires forall i :: 0 <= i < |ps| ==> HasProperties(ps[i])
  {
    seq(|ps|, i requires 0 <= i < |ps| && HasProperties(ps[i]) => Feature(ps[i].geometry, ps[i].properties.value))
  }

  /**
   * `loadDistrictsData` once the file is fetched and parsed. The filter reads
   * `f.properties.nmprov` of every feature, so a single feature without
   * properties throws, and the `catch` returns an empty collection.
   */
  function LoadDistrictsData(ps: seq<ParsedFeature>): seq<Feature>
  {
    if forall i :: 0 <= i < |ps| ==> HasProperties(ps[i]) then LoadedDistricts(WithProperties(ps)) else []
  }

  // ---------------------------------------------------------------------------
  // Properties of the filter

  /** A feature is kept if and only if its `nmprov` is one of the three target provinces. */
  lemma {:induction false} FilterTargetsMembers(fs: seq<Feature>)
    ensures forall f :: f in FilterTargets(fs) <==> f in fs && IsTarget(f)
  {
    if fs != [] {
      FilterTargetsMembers(fs[1..]);
      assert fs == [fs[0]] + fs[1..];
    }
  }

  /** The filter keeps the original order: it distributes over concatenation. */
  lemma {:induction false} FilterTargetsAppend(a: seq<Feature>, b: seq<Feature>)
    ensures FilterTargets(a + b) == FilterTargets(a) + FilterTargets(b)
  {
    if a == [] {
      assert a + b == b;
    } else {
      assert (a + b)[1..] == a[1..] + b;
      FilterTargetsAppend(a[1..], b);
    }
  }

  /** Filtering again removes nothing. */
  lemma {:induction false} FilterTargetsIdempotent(fs: seq<Feature>)
    ensures FilterTargets(FilterTargets(fs)) == FilterTargets(fs)
  {
    if fs != [] {
      FilterTargetsIdempotent(fs[1..]);
      var head := if IsTarget(fs[0]) then [fs[0]] else [];
      FilterTargetsAppend(head, FilterTargets(fs[1..]));
      if IsTarget(fs[0]) {
        assert FilterTargets(head) == head by {
          assert head[1..] == [];
        }
      }
    }
  }

  /**
   * Every loaded district belongs to a target province and carries it as
   * `province`; the loaded list is, in order, the projection of exactly the
   * target features.
   */
  lemma LoadedDistrictsProvince(fs: seq<Feature>)
    ensures forall g :: g in LoadedDistricts(fs) ==> Prop(g, "province").Some? && Prop(g, "province").value in TargetProvinces
    ensures forall f :: f in fs && IsTarget(f) ==> Project(f) in LoadedDistricts(fs)
    ensures |LoadedDistricts(fs)| == |FilterTargets(fs)|
  {
    FilterTargetsMembers(fs);
    var kept := FilterTargets(fs);
    forall g | g in LoadedDistricts(fs)
      ensures Prop(g, "province").Some? && Prop(g, "province").value in TargetProvinces
    {
      var i :| 0 <= i < |kept| && LoadedDistricts(fs)[i] == g;
      assert kept[i] in kept;
    }
    forall f | f in fs && IsTarget(f)
      ensures Project(f) in LoadedDistricts(fs)
    {
      var i :| 0 <= i < |kept| && kept[i] == f;
      assert LoadedDistricts(fs)[i] == Project(f);
    }
  }

  /**
   * The loader's two outcomes: nothing at all when some feature lacks
   * properties; otherwise every loaded district carries a target `province`
   * and every target feature of the file is loaded, projected.
   */
  lemma LoadDistrictsDataOutcomes(ps: seq<ParsedFeature>)
    ensures (exists i :: 0 <= i < |ps| && !HasProperties(ps[i])) ==> LoadDistrictsData(ps) == []
    ensures (forall i :: 0 <= i < |ps| ==> HasProperties(ps[i])) ==>
      && (forall g :: g in LoadDistrictsData(ps) ==> Prop(g, "province").Some? && Prop(g, "province").value in TargetProvinces)
      && (forall i :: 0 <= i < |ps| && IsTarget(Feature(ps[i].geometry, ps[i].properties.value)) ==>
            Project(Feature(ps[i].geometry, ps[i].properties.value)) in LoadDistrictsData(ps))
  {
    if forall i :: 0 <= i < |ps| ==> HasProperties(ps[i]) {
      var fs := WithProperties(ps);
      LoadedDistrictsProvince(fs);
      forall i | 0 <= i < |ps| && IsTarget(Feature(ps[i].geometry, ps[i].properties.value))
        ensures Project(Feature(ps[i].geometry, ps[i].properties.value)) in LoadDistrictsData(ps)
      {
        assert fs[i] in fs;
      }
    }
  }
}
