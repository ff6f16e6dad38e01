/** Which Hetzner locations a NodeClass may place nodes in (locationScope in internal/controllers/nodeclass/validation.go). */
module LocationScope {
  import opened Common
  import opened Sorting
  import opened NodeClassTypes
  import opened InstanceTypes

  // ---------------------------------------------------------------- the catalog's locations

  function AddZones(zones: map<string, string>, locs: seq<SoldIn>): map<string, string>
  {
    if locs == [] then zones
    else
      var n := |locs| - 1;
      var rest := AddZones(zones, locs[..n]);
      if locs[n].deprecated then rest else rest[locs[n].location := locs[n].zone]
  }

  /** Every location where a supported type is sold and not phased out, with its network zone. */
  function ZonesOf(sts: seq<ServerType>): map<string, string>
  {
    if sts == [] then map[]
    else
      var n := |sts| - 1;
      if Supported(sts[n]) then AddZones(ZonesOf(sts[..n]), sts[n].locations) else ZonesOf(sts[..n])
  }

  method CollectZones(sts: seq<ServerType>) returns (zones: map<string, string>)
    ensures zones == ZonesOf(sts)
  {
    zones := map[];
    for i := 0 to |sts|
      invariant zones == ZonesOf(sts[..i])
    {
      assert sts[..i + 1][..i] == sts[..i];
      if !Supported(sts[i]) {
        continue;
      }
      var locs := sts[i].locations;
      var before := zones;
      for j := 0 to |locs|
        invariant zones == AddZones(before, locs[..j])
      {
        assert locs[..j + 1][..j] == locs[..j];
        if locs[j].deprecated {
          continue;
        }
        zones := zones[locs[j].location := locs[j].zone];
      }
      assert locs[..|locs|] == locs;
    }
    assert sts[..|sts|] == sts;
  }

  ghost predicate SoldAt(st: ServerType, name: string)
  {
    Supported(st) && exists l :: l in st.locations && !l.deprecated && l.location == name
  }

  lemma {:induction false} AddZonesKeys(zones: map<string, string>, locs: seq<SoldIn>, name: string)
    ensures name in AddZones(zones, locs) <==>
      name in zones || exists l :: l in locs && !l.deprecated && l.location == name
  {
    if locs != [] {
      var n := |locs| - 1;
      AddZonesKeys(zones, locs[..n], name);
      assert locs == locs[..n] + [locs[n]];
    }
  }

  /** The catalog offers a location exactly when some supported type is sold there. */
  lemma {:induction false} ZonesExact(sts: seq<ServerType>, name: string)
    ensures name in ZonesOf(sts) <==> exists i :: 0 <= i < |sts| && SoldAt(sts[i], name)
  {
    if sts != [] {
      var n := |sts| - 1;
      ZonesExact(sts[..n], name);
      AddZonesKeys(ZonesOf(sts[..n]), sts[n].locations, name);
      assert forall i | 0 <= i < n :: sts[..n][i] == sts[i];
      if i :| 0 <= i < n && SoldAt(sts[i], name) {
        assert SoldAt(sts[..n][i], name);
      }
      if i :| 0 <= i < |sts[..n]| && SoldAt(sts[..n][i], name) {
        assert SoldAt(sts[i], name);
      }
    }
  }

  /** Entry `j` is the last of `locs` that sells in `name`. */
  ghost predicate LastIn(locs: seq<SoldIn>, j: nat, name: string)
  {
    && j < |locs| && !locs[j].deprecated && locs[j].location == name
    && forall k | j < k < |locs| :: locs[k].deprecated || locs[k].location != name
  }

  /** Entry `j` of type `i` is the last of the catalog that sells in `name`. */
  ghost predicate LastOf(sts: seq<ServerType>, i: nat, j: nat, name: string)
  {
    && i < |sts| && Supported(sts[i]) && LastIn(sts[i].locations, j, name)
    && forall k | i < k < |sts| :: !SoldAt(sts[k], name)
  }

  lemma {:induction false} AddZonesLast(zones: map<string, string>, locs: seq<SoldIn>, name: string) returns (j: Option<nat>)
    requires name in AddZones(zones, locs)
    ensures j.Some? ==> LastIn(locs, j.value, name) && AddZones(zones, locs)[name] == locs[j.value].zone
    ensures j.None? ==> name in zones && AddZones(zones, locs)[name] == zones[name]
    ensures j.None? ==> forall k | 0 <= k < |locs| :: locs[k].deprecated || locs[k].location != name
  {
    if locs == [] {
      return None;
    }
    var n := |locs| - 1;
    if !locs[n].deprecated && locs[n].location == name {
      return Some(n);
    }
    j := AddZonesLast(zones, locs[..n], name);
    assert forall k | 0 <= k < n :: locs[..n][k] == locs[k];
  }

  lemma NotSold(st: ServerType, name: string)
    requires forall k | 0 <= k < |st.locations| :: st.locations[k].deprecated || st.locations[k].location != name
    ensures !SoldAt(st, name)
  {
  }

  /** A location's zone is what the last entry selling there says, and there is such an entry. */
  lemma {:induction false} ZoneIsLast(sts: seq<ServerType>, name: string) returns (i: nat, j: nat)
    requires name in ZonesOf(sts)
    ensures LastOf(sts, i, j, name) && ZonesOf(sts)[name] == sts[i].locations[j].zone
  {
    var n := |sts| - 1;
    if Supported(sts[n]) {
      var last := AddZonesLast(ZonesOf(sts[..n]), sts[n].locations, name);
      if last.Some? {
        return n, last.value;
      }
      NotSold(sts[n], name);
    }
    i, j := ZoneIsLast(sts[..n], name);
    assert forall k | 0 <= k < n :: sts[..n][k] == sts[k];
  }

  // ---------------------------------------------------------------- sorted names of a map

  lemma StrLeTotalOrder()
    ensures TotalOrder(StrLe)
  {
    forall x: string, y: string ensures StrLe(x, y) || StrLe(y, x) {
      StrLessTotal(x, y);
    }
    forall x: string, y: string, z: string | StrLe(x, y) && StrLe(y, z) ensures StrLe(x, z) {
      if x != y && y != z {
        StrLessTransitive(x, y, z);
      }
    }
    forall x: string, y: string | StrLe(x, y) && StrLe(y, x) ensures x == y {
      if x != y {
        StrLessAsymmetric(x, y);
      }
    }
  }

  ghost predicate Enumerates(s: seq<string>, names: set<string>)
  {
    Distinct(s) && Members(s) == names
  }

  lemma EnumerationMultiset(s: seq<string>, names: set<string>)
    requires Enumerates(s, names)
    ensures multiset(s) == multiset(names)
  {
    forall x ensures multiset(s)[x] == multiset(names)[x] {
      if x in s {
        var i :| 0 <= i < |s| && s[i] == x;
        assert s == s[..i] + [s[i]] + s[i + 1..];
        assert x !in s[..i] && x !in s[i + 1..];
        assert x in Members(s);
      } else {
        assert x !in Members(s);
      }
    }
  }

  ghost function AnyOrder(names: set<string>): (s: seq<string>)
    ensures Enumerates(s, names)
    decreases |names|
  {
    if names == {} then []
    else
      var x :| x in names;
      var rest := AnyOrder(names - {x});
      assert forall i | 0 <= i < |rest| :: rest[i] in Members(rest);
      assert Members([x] + rest) == {x} + Members(rest);
      [x] + rest
  }

  ghost function SortedNames(names: set<string>): seq<string>
  {
    Sort(AnyOrder(names), StrLe)
  }

  /** Sorting the keys of a map gives one answer, whatever order the map is iterated in. */
  method SortKeys(names: set<string>) returns (out: seq<string>)
    ensures out == SortedNames(names)
  {
    out := [];
    var todo := names;
    while todo != {}
      invariant todo <= names && Distinct(out) && Members(out) == names - todo
      decreases |todo|
    {
      var x :| x in todo;
      todo := todo - {x};
      assert forall i | 0 <= i < |out| :: out[i] in Members(out);
      assert Members(out + [x]) == Members(out) + {x};
      out := out + [x];
    }
    EnumerationMultiset(out, names);
    EnumerationMultiset(AnyOrder(names), names);
    StrLeTotalOrder();
    SortCanonical(out, AnyOrder(names), StrLe);
    out := Sort(out, StrLe);
  }

  /** The names of the set, each once, in ascending order. */
  lemma SortedNamesExact(names: set<string>, x: string)
    ensures x in SortedNames(names) <==> x in names
    ensures forall i, j | 0 <= i < j < |SortedNames(names)| ::
      SortedNames(names)[i] == SortedNames(names)[j] || StrLess(SortedNames(names)[i], SortedNames(names)[j])
    ensures |SortedNames(names)| == |names|
  {
    StrLeTotalOrder();
    SortCorrect(AnyOrder(names), StrLe);
    assert forall i, j | 0 <= i < j < |SortedNames(names)| :: StrLe(SortedNames(names)[i], SortedNames(names)[j]);
    EnumerationMultiset(AnyOrder(names), names);
    assert |multiset(SortedNames(names))| == |multiset(names)|;
    SortMembers(AnyOrder(names), StrLe);
    assert x in AnyOrder(names) <==> x in Members(AnyOrder(names));
  }

  // ---------------------------------------------------------------- the partition

  datatype Scope = Scope(inScope: seq<LocationStatus>, outsideZone: seq<string>, unknown: seq<string>, explicit: bool, zone: string)

  datatype Part = InScopePart | OutsideZonePart | UnknownPart

  /** Excluded by zone only when both zones are known and differ. */
  function PartOf(zones: map<string, string>, networkZone: string, name: string): Part
  {
    if name !in zones then UnknownPart
    else if zones[name] != "" && networkZone != "" && zones[name] != networkZone then OutsideZonePart
    else InScopePart
  }

  ghost function Partition(zones: map<string, string>, networkZone: string, explicit: bool, names: seq<string>): Scope
  {
    if names == [] then Scope([], [], [], explicit, networkZone)
    else
      var n := |names| - 1;
      var rest := Partition(zones, networkZone, explicit, names[..n]);
      var name := names[n];
      if name in names[..n] then rest
      else match PartOf(zones, networkZone, name)
        case UnknownPart => rest.(unknown := rest.unknown + [name])
        case OutsideZonePart => rest.(outsideZone := rest.outsideZone + [name])
        case InScopePart => rest.(inScope := rest.inScope + [LocationStatus(name, zones[name])])
  }

  ghost function CandidateNames(zones: map<string, string>, specLocations: seq<string>): seq<string>
  {
    if specLocations != [] then specLocations else SortedNames(zones.Keys)
  }

  ghost function ScopeOf(sts: seq<ServerType>, specLocations: seq<string>, networkZone: string): Scope
  {
    var zones := ZonesOf(sts);
    Partition(zones, networkZone, specLocations != [], CandidateNames(zones, specLocations))
  }

  /** The sorting loop of locationScope: every candidate once, by where it belongs. */
  method Place(zones: map<string, string>, networkZone: string, explicit: bool, names: seq<string>) returns (out: Scope)
    ensures out == Partition(zones, networkZone, explicit, names)
  {
    out := Scope([], [], [], explicit, networkZone);
    var seen: set<string> := {};
    for i := 0 to |names|
      invariant forall x :: x in seen <==> x in names[..i]
      invariant out == Partition(zones, networkZone, explicit, names[..i])
    {
      assert names[..i + 1][..i] == names[..i];
      assert names[..i + 1] == names[..i] + [names[i]];
      var name := names[i];
      if name in seen {
        continue;
      }
      seen := seen + {name};
      if name !in zones {
        out := out.(unknown := out.unknown + [name]);
      } else if zones[name] != "" && networkZone != "" && zones[name] != networkZone {
        out := out.(outsideZone := out.outsideZone + [name]);
      } else {
        out := out.(inScope := out.inScope + [LocationStatus(name, zones[name])]);
      }
    }
    assert names[..|names|] == names;
  }

  /** locationScope on a fetched catalog; the second result is the catalogEmpty flag. */
  method ComputeScope(sts: seq<ServerType>, specLocations: seq<string>, networkZone: string)
    returns (out: Scope, catalogEmpty: bool)
    ensures out == ScopeOf(sts, specLocations, networkZone)
    ensures catalogEmpty <==> ZonesOf(sts) == map[]
  {
    var zones := CollectZones(sts);
    catalogEmpty := zones == map[];
    var names := specLocations;
    if names == [] {
      names := SortKeys(zones.Keys);
    }
    out := Place(zones, networkZone, specLocations != [], names);
  }

  ghost predicate DistinctNames(locs: seq<LocationStatus>)
  {
    forall i, j | 0 <= i < j < |locs| :: locs[i].name != locs[j].name
  }

  /** Every candidate lands in exactly one part, once, by what the catalog and the network say of it. */
  lemma {:induction false} PartitionExact(zones: map<string, string>, networkZone: string, explicit: bool, names: seq<string>)
    ensures var s := Partition(zones, networkZone, explicit, names);
      && s.explicit == explicit && s.zone == networkZone
      && DistinctNames(s.inScope) && Distinct(s.outsideZone) && Distinct(s.unknown)
      && (forall l :: l in s.inScope <==>
            l.name in names && PartOf(zones, networkZone, l.name).InScopePart? && l == LocationStatus(l.name, zones[l.name]))
      && (forall x :: x in s.outsideZone <==> x in names && PartOf(zones, networkZone, x).OutsideZonePart?)
      && (forall x :: x in s.unknown <==> x in names && PartOf(zones, networkZone, x).UnknownPart?)
  {
    if names != [] {
      var n := |names| - 1;
      PartitionExact(zones, networkZone, explicit, names[..n]);
      assert names == names[..n] + [names[n]];
      var rest := Partition(zones, networkZone, explicit, names[..n]);
      assert forall i | 0 <= i < |rest.inScope| :: rest.inScope[i] in rest.inScope;
    }
  }
}
