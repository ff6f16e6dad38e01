/** Turning the Hetzner catalog into offerings (internal/providers/instancetype/types.go). */
module InstanceTypes {
  import opened Common
  import opened Sorting
  import opened Unavailable

  const HOURS_PER_MONTH := 730.0
  const SUPPORTED_ARCHITECTURE := "x86"

  datatype SoldIn = SoldIn(location: string, zone: string, deprecated: bool)

  /** `prices` holds the monthly net price per location; an absent location does not sell the type. */
  datatype ServerType = ServerType(
    name: string, architecture: string, deprecated: bool,
    prices: map<string, real>, locations: seq<SoldIn>, allocatable: map<string, int>)

  datatype Offering = Offering(location: string, zone: string, price: real, available: bool)

  datatype InstanceType = InstanceType(name: string, offerings: seq<Offering>, allocatable: map<string, int>)

  /** What Build reads of the NodeClass, the catalog's surcharge and the suppression cache. */
  datatype Terms = Terms(locations: seq<string>, publicIPv4: bool, ipv4Monthly: real, suppressed: Key -> bool)

  /** locationFilter: an empty list admits every location. */
  predicate InScope(terms: Terms, location: string)
  {
    terms.locations == [] || location in terms.locations
  }

  predicate Offered(st: ServerType, l: SoldIn, terms: Terms)
  {
    InScope(terms, l.location) && !l.deprecated && l.location in st.prices
  }

  function HourlyPrice(st: ServerType, location: string, terms: Terms): real
    requires location in st.prices
  {
    (st.prices[location] + if terms.publicIPv4 then terms.ipv4Monthly else 0.0) / HOURS_PER_MONTH
  }

  function OfferingFor(st: ServerType, l: SoldIn, terms: Terms): Offering
    requires l.location in st.prices
  {
    Offering(l.location, l.zone, HourlyPrice(st, l.location, terms), !terms.suppressed(Key(st.name, l.location)))
  }

  ghost function OfferingsOf(st: ServerType, locs: seq<SoldIn>, terms: Terms): seq<Offering>
  {
    if locs == [] then []
    else
      var n := |locs| - 1;
      var rest := OfferingsOf(st, locs[..n], terms);
      if Offered(st, locs[n], terms) then rest + [OfferingFor(st, locs[n], terms)] else rest
  }

  /** A type this provider sells nodes of. */
  predicate Supported(st: ServerType)
  {
    !st.deprecated && st.architecture == SUPPORTED_ARCHITECTURE
  }

  /** The location loop of Build and the price loop of newInstanceType, over one server type. */
  method NewInstanceType(st: ServerType, terms: Terms) returns (offerings: seq<Offering>)
    ensures offerings == OfferingsOf(st, st.locations, terms)
  {
    offerings := [];
    for i := 0 to |st.locations|
      invariant offerings == OfferingsOf(st, st.locations[..i], terms)
    {
      assert st.locations[..i + 1][..i] == st.locations[..i];
      var l := st.locations[i];
      if !InScope(terms, l.location) || l.deprecated {
        continue;
      }
      if l.location !in st.prices {
        continue;
      }
      offerings := offerings + [OfferingFor(st, l, terms)];
    }
    assert st.locations[..|st.locations|] == st.locations;
  }

  predicate NameLe(a: InstanceType, b: InstanceType)
  {
    StrLe(a.name, b.name)
  }

  ghost function Unsorted(sts: seq<ServerType>, terms: Terms): seq<InstanceType>
  {
    if sts == [] then []
    else
      var n := |sts| - 1;
      var rest := Unsorted(sts[..n], terms);
      var offerings := OfferingsOf(sts[n], sts[n].locations, terms);
      if Supported(sts[n]) && offerings != [] then rest + [InstanceType(sts[n].name, offerings, sts[n].allocatable)] else rest
  }

  method Build(sts: seq<ServerType>, terms: Terms) returns (out: seq<InstanceType>)
    ensures out == Sort(Unsorted(sts, terms), NameLe)
    ensures forall i, j | 0 <= i < j < |out| :: out[i].name == out[j].name || StrLess(out[i].name, out[j].name)
  {
    out := [];
    for i := 0 to |sts|
      invariant out == Unsorted(sts[..i], terms)
    {
      assert sts[..i + 1][..i] == sts[..i];
      if !Supported(sts[i]) {
        continue;
      }
      var offerings := NewInstanceType(sts[i], terms);
      if offerings == [] {
        continue;
      }
      out := out + [InstanceType(sts[i].name, offerings, sts[i].allocatable)];
    }
    assert sts[..|sts|] == sts;
    NameLeTotal();
    SortCorrect(out, NameLe);
    out := Sort(out, NameLe);
    assert forall i, j | 0 <= i < j < |out| :: NameLe(out[i], out[j]);
  }

  /**
   * `o` is the offering of `st` at its entry `l`: sold there at a known price,
   * admitted by the operator's list and not phased out; priced by the hour with
   * the address surcharge if the class asks for an address; and available unless
   * the pair is suppressed.
   */
  ghost predicate OffersAt(st: ServerType, l: SoldIn, terms: Terms, o: Offering)
  {
    && !l.deprecated && l.location in st.prices && (terms.locations == [] || l.location in terms.locations)
    && o.location == l.location && o.zone == l.zone
    && (terms.publicIPv4 ==> o.price * 730.0 == st.prices[l.location] + terms.ipv4Monthly)
    && (!terms.publicIPv4 ==> o.price * 730.0 == st.prices[l.location])
    && (o.available <==> !terms.suppressed(Key(st.name, l.location)))
  }

  lemma OfferedIffOffersAt(st: ServerType, l: SoldIn, terms: Terms, o: Offering)
    ensures OffersAt(st, l, terms, o) <==> Offered(st, l, terms) && o == OfferingFor(st, l, terms)
  {
    if Offered(st, l, terms) {
      var monthly := st.prices[l.location] + if terms.publicIPv4 then terms.ipv4Monthly else 0.0;
      assert OfferingFor(st, l, terms).price * 730.0 == monthly;
      assert o.price * 730.0 == monthly ==> o.price == OfferingFor(st, l, terms).price;
    }
  }

  /** An offering exists exactly where the type is sold at a known price, in scope and not phased out. */
  lemma {:induction false} OfferingsExact(st: ServerType, locs: seq<SoldIn>, terms: Terms, o: Offering)
    ensures o in OfferingsOf(st, locs, terms) <==> exists i :: 0 <= i < |locs| && OffersAt(st, locs[i], terms, o)
  {
    if locs != [] {
      var n := |locs| - 1;
      OfferingsExact(st, locs[..n], terms, o);
      OfferedIffOffersAt(st, locs[n], terms, o);
      assert forall i | 0 <= i < n :: locs[..n][i] == locs[i];
      if i :| 0 <= i < n && OffersAt(st, locs[i], terms, o) {
        assert OffersAt(st, locs[..n][i], terms, o);
      }
    }
  }

  /** `it` is the instance type of a supported, undeprecated server type with something to offer. */
  ghost predicate BuiltFrom(st: ServerType, terms: Terms, it: InstanceType)
  {
    && !st.deprecated && st.architecture == "x86" && st.name == it.name && st.allocatable == it.allocatable
    && it.offerings == OfferingsOf(st, st.locations, terms) && it.offerings != []
  }

  lemma {:induction false} UnsortedExact(sts: seq<ServerType>, terms: Terms, it: InstanceType)
    ensures it in Unsorted(sts, terms) <==> exists i :: 0 <= i < |sts| && BuiltFrom(sts[i], terms, it)
  {
    if sts != [] {
      var n := |sts| - 1;
      UnsortedExact(sts[..n], terms, it);
      if i :| 0 <= i < |sts[..n]| && BuiltFrom(sts[..n][i], terms, it) {
        assert sts[i] == sts[..n][i];
      }
      if i :| 0 <= i < n && BuiltFrom(sts[i], terms, it) {
        assert sts[..n][i] == sts[i];
      }
    }
  }

  /** Build returns exactly the instance types of the catalog's supported server types, each with all its offerings. */
  lemma BuildExact(sts: seq<ServerType>, terms: Terms, it: InstanceType)
    ensures it in Sort(Unsorted(sts, terms), NameLe) <==> exists i :: 0 <= i < |sts| && BuiltFrom(sts[i], terms, it)
  {
    NameLeTotal();
    SortMembers(Unsorted(sts, terms), NameLe);
    UnsortedExact(sts, terms, it);
  }

  lemma NameLeTotal()
    ensures TotalPreorder(NameLe)
  {
    forall x: InstanceType, y: InstanceType ensures NameLe(x, y) || NameLe(y, x) {
      StrLessTotal(x.name, y.name);
    }
    forall x: InstanceType, y: InstanceType, z: InstanceType | NameLe(x, y) && NameLe(y, z) ensures NameLe(x, z) {
      if x.name != y.name && y.name != z.name {
        StrLessTransitive(x.name, y.name, z.name);
      }
    }
  }

  /** No offering Build makes available is a suppressed pair, and every location is one spec.locations admits. */
  lemma BuiltOfferingsRespectSuppression(sts: seq<ServerType>, terms: Terms, it: InstanceType, o: Offering)
    requires it in Sort(Unsorted(sts, terms), NameLe) && o in it.offerings
    ensures o.available <==> !terms.suppressed(Key(it.name, o.location))
    ensures InScope(terms, o.location)
  {
    BuildExact(sts, terms, it);
    var i :| 0 <= i < |sts| && BuiltFrom(sts[i], terms, it);
    OfferingsExact(sts[i], sts[i].locations, terms, o);
  }
}
