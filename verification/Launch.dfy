/** Ordering a server for a NodeClaim, cheapest candidate first (internal/providers/instance/instance.go). */
module Launch {
  import opened Common
  import opened Sorting
  import opened Errors
  import opened Servers
  import opened Request
  import opened Unavailable
  import opened InstanceTypes

  datatype Candidate = Candidate(instanceType: InstanceType, location: string, price: real)

  /** A NodeClaim as Create sees it. The two predicates are karpenter core's requirement algebra. */
  datatype Claim = Claim(
    name: string, requests: map<string, int>,
    intersects: InstanceType -> bool, compatible: Offering -> bool)

  // ---------------------------------------------------------------- candidates

  predicate Fits(claim: Claim, it: InstanceType)
  {
    forall r | r in claim.requests :: r in it.allocatable && it.allocatable[r] >= claim.requests[r]
  }

  method ResourcesFit(claim: Claim, it: InstanceType) returns (fits: bool)
    ensures fits <==> Fits(claim, it)
    ensures fits <==> forall r | r in claim.requests :: r in it.allocatable && claim.requests[r] <= it.allocatable[r]
  {
    var todo := claim.requests.Keys;
    while todo != {}
      invariant todo <= claim.requests.Keys
      invariant forall r | r in claim.requests && r !in todo :: r in it.allocatable && it.allocatable[r] >= claim.requests[r]
      decreases |todo|
    {
      var r :| r in todo;
      if r !in it.allocatable || it.allocatable[r] < claim.requests[r] {
        return false;
      }
      todo := todo - {r};
    }
    return true;
  }

  function PairsOf(claim: Claim, it: InstanceType, offerings: seq<Offering>): seq<Candidate>
  {
    if offerings == [] then []
    else
      var n := |offerings| - 1;
      var rest := PairsOf(claim, it, offerings[..n]);
      var o := offerings[n];
      if o.available && claim.compatible(o) then rest + [Candidate(it, o.location, o.price)] else rest
  }

  predicate Usable(claim: Claim, it: InstanceType)
  {
    claim.intersects(it) && Fits(claim, it)
  }

  function Pairs(claim: Claim, its: seq<InstanceType>): seq<Candidate>
  {
    if its == [] then []
    else
      var n := |its| - 1;
      Pairs(claim, its[..n]) + (if Usable(claim, its[n]) then PairsOf(claim, its[n], its[n].offerings) else [])
  }

  /** What the ordering looks at. */
  datatype Rank = Rank(price: real, name: string, location: string)

  function RankOf(c: Candidate): Rank
  {
    Rank(c.price, c.instanceType.name, c.location)
  }

  predicate RankLe(a: Rank, b: Rank)
  {
    if a.price != b.price then a.price < b.price
    else if a.name != b.name then StrLess(a.name, b.name)
    else StrLe(a.location, b.location)
  }

  predicate CandidateLe(a: Candidate, b: Candidate)
  {
    RankLe(RankOf(a), RankOf(b))
  }

  function Ordered(claim: Claim, its: seq<InstanceType>): seq<Candidate>
  {
    Sort(Pairs(claim, its), CandidateLe)
  }

  /** orderedCandidates: the nested filter loops, then the stable sort. */
  method OrderedCandidates(claim: Claim, its: seq<InstanceType>) returns (out: seq<Candidate>)
    ensures out == Ordered(claim, its)
  {
    out := [];
    for i := 0 to |its|
      invariant out == Pairs(claim, its[..i])
    {
      assert its[..i + 1][..i] == its[..i];
      var it := its[i];
      if !claim.intersects(it) {
        continue;
      }
      var fits := ResourcesFit(claim, it);
      if !fits {
        continue;
      }
      var before := out;
      for j := 0 to |it.offerings|
        invariant out == before + PairsOf(claim, it, it.offerings[..j])
      {
        assert it.offerings[..j + 1][..j] == it.offerings[..j];
        var o := it.offerings[j];
        if !o.available || !claim.compatible(o) {
          continue;
        }
        out := out + [Candidate(it, o.location, o.price)];
      }
      assert it.offerings[..|it.offerings|] == it.offerings;
    }
    assert its[..|its|] == its;
    out := Sort(out, CandidateLe);
  }

  lemma RankLeTransitive(a: Rank, b: Rank, c: Rank)
    requires RankLe(a, b) && RankLe(b, c)
    ensures RankLe(a, c)
  {
    if a.price == b.price == c.price {
      if a.name != b.name && b.name != c.name {
        StrLessTransitive(a.name, b.name, c.name);
        StrLessAsymmetric(a.name, c.name);
      } else if a.name == b.name == c.name && a.location != b.location && b.location != c.location {
        StrLessTransitive(a.location, b.location, c.location);
      }
    }
  }

  /** (price, name, location) is a total order on ranks, so no tie is left to chance. */
  lemma RankLeTotalOrder()
    ensures TotalOrder(RankLe)
  {
    forall x: Rank, y: Rank ensures RankLe(x, y) || RankLe(y, x) {
      StrLessTotal(x.name, y.name);
      StrLessTotal(x.location, y.location);
    }
    forall x: Rank, y: Rank, z: Rank | RankLe(x, y) && RankLe(y, z) ensures RankLe(x, z) {
      RankLeTransitive(x, y, z);
    }
    forall x: Rank, y: Rank | RankLe(x, y) && RankLe(y, x) ensures x == y {
      if x.name != y.name {
        StrLessAsymmetric(x.name, y.name);
      } else if x.location != y.location {
        StrLessAsymmetric(x.location, y.location);
      }
    }
  }

  lemma CandidateLeTotal()
    ensures TotalPreorder(CandidateLe)
  {
    RankLeTotalOrder();
    forall x: Candidate, y: Candidate ensures CandidateLe(x, y) || CandidateLe(y, x) {
    }
    forall x: Candidate, y: Candidate, z: Candidate | CandidateLe(x, y) && CandidateLe(y, z) ensures CandidateLe(x, z) {
    }
  }

  function Ranks(cs: seq<Candidate>): seq<Rank>
  {
    if cs == [] then [] else [RankOf(cs[0])] + Ranks(cs[1..])
  }

  lemma {:induction false} RanksInsert(c: Candidate, cs: seq<Candidate>)
    ensures Ranks(Insert(c, cs, CandidateLe)) == Insert(RankOf(c), Ranks(cs), RankLe)
  {
    if cs != [] {
      assert Ranks(cs)[1..] == Ranks(cs[1..]);
      if CandidateLe(c, cs[0]) {
        assert ([c] + cs)[1..] == cs;
      } else {
        RanksInsert(c, cs[1..]);
        var t := Insert(c, cs[1..], CandidateLe);
        assert ([cs[0]] + t)[1..] == t;
      }
    }
  }

  lemma {:induction false} RanksSort(cs: seq<Candidate>)
    ensures Ranks(Sort(cs, CandidateLe)) == Sort(Ranks(cs), RankLe)
  {
    if cs != [] {
      RanksSort(cs[1..]);
      RanksInsert(cs[0], Sort(cs[1..], CandidateLe));
      assert Ranks(cs)[1..] == Ranks(cs[1..]);
    }
  }

  /**
   * The order is canonical: two catalogs that offer the same (price, name,
   * location) triples, in whatever order, are walked in the same order.
   */
  lemma OrderCanonical(claim: Claim, its: seq<InstanceType>, its': seq<InstanceType>)
    requires multiset(Ranks(Pairs(claim, its))) == multiset(Ranks(Pairs(claim, its')))
    ensures Ranks(Ordered(claim, its)) == Ranks(Ordered(claim, its'))
    ensures Sorted(Ranks(Ordered(claim, its)), RankLe)
  {
    RankLeTotalOrder();
    RanksSort(Pairs(claim, its));
    RanksSort(Pairs(claim, its'));
    SortCanonical(Ranks(Pairs(claim, its)), Ranks(Pairs(claim, its')), RankLe);
    SortCorrect(Ranks(Pairs(claim, its)), RankLe);
  }

  lemma {:induction false} RanksAppend(a: seq<Candidate>, b: seq<Candidate>)
    ensures Ranks(a + b) == Ranks(a) + Ranks(b)
  {
    if a == [] {
      assert a + b == b;
    } else {
      assert (a + b)[1..] == a[1..] + b;
      RanksAppend(a[1..], b);
    }
  }

  ghost function RanksOne(claim: Claim, it: InstanceType): multiset<Rank>
  {
    multiset(Ranks(if Usable(claim, it) then PairsOf(claim, it, it.offerings) else []))
  }

  lemma {:induction false} RanksOfPairs(claim: Claim, its: seq<InstanceType>)
    ensures multiset(Ranks(Pairs(claim, its))) == Gather(it => RanksOne(claim, it), its)
  {
    if its != [] {
      var n := |its| - 1;
      RanksOfPairs(claim, its[..n]);
      RanksAppend(Pairs(claim, its[..n]), if Usable(claim, its[n]) then PairsOf(claim, its[n], its[n].offerings) else []);
    }
  }

  /** In particular it does not depend on the order the instance types come in. */
  lemma OrderIgnoresInput(claim: Claim, its: seq<InstanceType>, its': seq<InstanceType>)
    requires multiset(its) == multiset(its')
    ensures Ranks(Ordered(claim, its)) == Ranks(Ordered(claim, its'))
  {
    RanksOfPairs(claim, its);
    RanksOfPairs(claim, its');
    GatherPermuted(it => RanksOne(claim, it), its, its');
    OrderCanonical(claim, its, its');
  }

  lemma {:induction false} PairsOfExact(claim: Claim, it: InstanceType, offerings: seq<Offering>, c: Candidate)
    ensures c in PairsOf(claim, it, offerings) <==>
      c.instanceType == it && exists o :: o in offerings && o.available && claim.compatible(o) && o.location == c.location && o.price == c.price
  {
    if offerings != [] {
      var n := |offerings| - 1;
      PairsOfExact(claim, it, offerings[..n], c);
      assert offerings == offerings[..n] + [offerings[n]];
    }
  }

  ghost predicate ValidCandidate(claim: Claim, its: seq<InstanceType>, c: Candidate)
  {
    && c.instanceType in its && claim.intersects(c.instanceType)
    && (forall r | r in claim.requests :: r in c.instanceType.allocatable && claim.requests[r] <= c.instanceType.allocatable[r])
    && exists o :: o in c.instanceType.offerings && o.available && claim.compatible(o)
                   && o.location == c.location && o.price == c.price
  }

  lemma {:induction false} PairsExact(claim: Claim, its: seq<InstanceType>, c: Candidate)
    ensures c in Pairs(claim, its) <==> ValidCandidate(claim, its, c)
  {
    if its != [] {
      var n := |its| - 1;
      PairsExact(claim, its[..n], c);
      PairsOfExact(claim, its[n], its[n].offerings, c);
      assert its == its[..n] + [its[n]];
    }
  }

  /** The candidates are exactly the compatible, available pairs. */
  lemma OrderedExact(claim: Claim, its: seq<InstanceType>, c: Candidate)
    ensures c in Ordered(claim, its) <==> ValidCandidate(claim, its, c)
  {
    CandidateLeTotal();
    SortMembers(Pairs(claim, its), CandidateLe);
    PairsExact(claim, its, c);
  }

  /** `a` may be walked before `b`: cheaper, or as cheap with the earlier name, or both with the earlier location. */
  ghost predicate NoWorse(a: Candidate, b: Candidate)
  {
    || a.price < b.price
    || (a.price == b.price && StrLess(a.instanceType.name, b.instanceType.name))
    || (a.price == b.price && a.instanceType.name == b.instanceType.name
        && (a.location == b.location || StrLess(a.location, b.location)))
  }

  /** The walk is cheapest first; ties go by name, then by location. */
  lemma CheapestFirst(claim: Claim, its: seq<InstanceType>, i: nat, j: nat)
    requires i < j < |Ordered(claim, its)|
    ensures NoWorse(Ordered(claim, its)[i], Ordered(claim, its)[j])
    ensures Ordered(claim, its)[i].price <= Ordered(claim, its)[j].price
  {
    CandidateLeTotal();
    SortCorrect(Pairs(claim, its), CandidateLe);
    assert CandidateLe(Ordered(claim, its)[i], Ordered(claim, its)[j]);
  }

  /** So the first candidate is a cheapest of all the compatible, available pairs. */
  lemma FirstIsCheapest(claim: Claim, its: seq<InstanceType>, d: Candidate)
    requires ValidCandidate(claim, its, d)
    ensures Ordered(claim, its) != [] && ValidCandidate(claim, its, Ordered(claim, its)[0])
    ensures Ordered(claim, its)[0].price <= d.price
  {
    OrderedExact(claim, its, d);
    var cs := Ordered(claim, its);
    var j :| 0 <= j < |cs| && cs[j] == d;
    OrderedExact(claim, its, cs[0]);
    if j > 0 {
      CheapestFirst(claim, its, 0, j);
    }
  }

  // ---------------------------------------------------------------- Create

  /** What the i-th order answers. */
  datatype Attempt = Created(srv: Server) | Rejected(err: Err)

  /** The world as one Create meets it: answers and clock readings per attempt, and the lookup by name. */
  datatype Script = Script(answer: nat -> Attempt, clock: nat -> int, byName: Result<Option<Server>, Err>)

  datatype LaunchResult =
    | Launched(srv: Server, instanceType: Option<InstanceType>)
    | NoCapacity
    | CreateFailed
    | CredentialRejected
    | RetryCreate
    | BadRequest

  function KeyOf(c: Candidate): Key
  {
    Key(c.instanceType.name, c.location)
  }

  predicate OutOfStock(a: Attempt)
  {
    a.Rejected? && Classify(Some(a.err)) == ClassCapacity
  }

  /** The first of `n` attempts that did not fail on capacity, or `n`. */
  function StopAt(script: Script, n: nat): (k: nat)
    ensures k <= n && (k < n ==> !OutOfStock(script.answer(k)))
    ensures forall i: nat | i < k :: OutOfStock(script.answer(i))
  {
    if n == 0 then 0
    else
      var k := StopAt(script, n - 1);
      if k < n - 1 then k else if OutOfStock(script.answer(n - 1)) then n else n - 1
  }

  /** The code of a failed order, empty when it carries none. */
  function FailureCode(a: Attempt): ErrorCode
  {
    if a.Rejected? && Errors.Code(a.err).Some? then Errors.Code(a.err).value else OtherCode("")
  }

  /** The suppression cache after the first `k` candidates failed on capacity. */
  function Marked(items: Items, ttl: int, cs: seq<Candidate>, script: Script, k: nat): Items
    requires k <= |cs|
  {
    if k == 0 then items
    else Marked(items, ttl, cs, script, k - 1)
         [KeyOf(cs[k - 1]) := Entry(script.clock(k - 1) + ttl, FailureCode(script.answer(k - 1)))]
  }

  /** findInstanceType: the first entry of that name, or none. */
  method FindInstanceType(its: seq<InstanceType>, name: string) returns (found: Option<InstanceType>)
    ensures found == FindType(its, name)
  {
    for i := 0 to |its|
      invariant FindType(its, name) == FindType(its[i..], name)
    {
      assert its[i..][1..] == its[i + 1..];
      if its[i].name == name {
        return Some(its[i]);
      }
    }
    return None;
  }

  ghost function FindType(its: seq<InstanceType>, name: string): (found: Option<InstanceType>)
    ensures found.Some? ==> found.value in its && found.value.name == name
    ensures found.None? ==> forall it | it in its :: it.name != name
  {
    if its == [] then None
    else if its[0].name == name then Some(its[0])
    else FindType(its[1..], name)
  }

  /** adopt: only a server that carries both our label and this claim's. */
  predicate Adoptable(byName: Result<Option<Server>, Err>, cluster: string, claim: Claim)
  {
    && byName.Ok? && byName.value.Some? && Ours(byName.value.value, cluster)
    && Label(byName.value.value.labels, LABEL_NODE_CLAIM) == claim.name
  }

  /** What an answer that is not a capacity failure makes of the launch. */
  ghost function Concluded(cluster: string, claim: Claim, its: seq<InstanceType>, c: Candidate, a: Attempt,
                           byName: Result<Option<Server>, Err>): LaunchResult
    requires !OutOfStock(a)
  {
    match a
    case Created(srv) => Launched(srv, Some(c.instanceType))
    case Rejected(e) =>
      match Classify(Some(e))
      case ClassConfig =>
        if Errors.Code(e) == Some(UniquenessError) && Adoptable(byName, cluster, claim)
        then Launched(byName.value.value, FindType(its, byName.value.value.serverType))
        else CreateFailed
      case ClassQuota => NoCapacity
      case ClassFatal => CredentialRejected
      case _ => RetryCreate
  }

  method Conclude(cluster: string, claim: Claim, its: seq<InstanceType>, c: Candidate, a: Attempt,
                  byName: Result<Option<Server>, Err>) returns (r: LaunchResult)
    requires !OutOfStock(a)
    ensures r == Concluded(cluster, claim, its, c, a, byName)
  {
    if a.Created? {
      return Launched(a.srv, Some(c.instanceType));
    }
    match Classify(Some(a.err)) {
      case ClassConfig =>
        if Errors.Code(a.err) == Some(UniquenessError) && Adoptable(byName, cluster, claim) {
          var adopted := byName.value.value;
          var adoptedType := FindInstanceType(its, adopted.serverType);
          return Launched(adopted, adoptedType);
        }
        return CreateFailed;
      case ClassQuota => return NoCapacity;
      case ClassFatal => return CredentialRejected;
      case _ => return RetryCreate;
    }
  }

  ghost function ResultAt(cluster: string, claim: Claim, its: seq<InstanceType>, cs: seq<Candidate>, script: Script,
                          n: nat): LaunchResult
    requires n <= |cs|
  {
    var k := StopAt(script, n);
    if k == n then NoCapacity else Concluded(cluster, claim, its, cs[k], script.answer(k), script.byName)
  }

  function OrderFor(base: CreateRequest, c: Candidate): CreateRequest
  {
    base.(serverType := c.instanceType.name, location := c.location)
  }

  function OrdersFor(base: CreateRequest, cs: seq<Candidate>): seq<CreateRequest>
  {
    seq(|cs|, i requires 0 <= i < |cs| => OrderFor(base, cs[i]))
  }

  /** `orders` are those for the first `k` candidates. */
  ghost predicate OrderedFirst(orders: seq<CreateRequest>, base: CreateRequest, cs: seq<Candidate>, k: nat)
  {
    |orders| == k <= |cs| && forall j {:trigger orders[j]} | 0 <= j < k :: orders[j] == OrderFor(base, cs[j])
  }

  lemma OrdersAre(orders: seq<CreateRequest>, base: CreateRequest, cs: seq<Candidate>, k: nat)
    requires OrderedFirst(orders, base, cs, k)
    ensures orders == OrdersFor(base, cs[..k])
  {
  }

  function Min(a: nat, b: nat): nat
  {
    if a < b then a else b
  }

  /** `orders` and `items` are what the first `k` candidates leave when all were out of stock. */
  ghost predicate WalkedPast(orders: seq<CreateRequest>, items: Items, start: Items, ttl: int, base: CreateRequest,
                             cs: seq<Candidate>, script: Script, k: nat)
  {
    OrderedFirst(orders, base, cs, k) && items == Marked(start, ttl, cs, script, k)
  }

  /** One turn of the loop: the order for the k-th candidate, and its suppression if it was out of stock. */
  method TryNext(u: Cache, orders: seq<CreateRequest>, base: CreateRequest, cs: seq<Candidate>, script: Script, k: nat,
                 ghost start: Items)
    returns (orders': seq<CreateRequest>, short: bool)
    requires k < |cs| && WalkedPast(orders, u.items, start, u.ttl, base, cs, script, k)
    modifies u
    ensures short <==> OutOfStock(script.answer(k))
    ensures short ==> WalkedPast(orders', u.items, start, u.ttl, base, cs, script, k + 1)
    ensures !short ==> OrderedFirst(orders', base, cs, k + 1) && u.items == old(u.items)
  {
    orders' := orders + [base.(serverType := cs[k].instanceType.name, location := cs[k].location)];
    short := OutOfStock(script.answer(k));
    if short {
      u.Mark(KeyOf(cs[k]), FailureCode(script.answer(k)), script.clock(k));
    }
  }

  /**
   * The fall-through loop of Create over the ordered candidates. It orders a
   * prefix of them, ending at the first answer that is not a capacity failure,
   * and suppresses exactly the pairs that were out of stock.
   */
  method FallThrough(u: Cache, cs: seq<Candidate>, base: CreateRequest, attempts: nat, script: Script)
    returns (k: nat, orders: seq<CreateRequest>)
    requires attempts <= |cs|
    modifies u
    ensures k == StopAt(script, attempts)
    ensures OrderedFirst(orders, base, cs, Min(k + 1, attempts))
    ensures u.items == Marked(old(u.items), u.ttl, cs, script, k)
  {
    k, orders := 0, [];
    ghost var start := u.items;
    while k < attempts
      invariant k <= StopAt(script, attempts) && WalkedPast(orders, u.items, start, u.ttl, base, cs, script, k)
    {
      var short;
      orders, short := TryNext(u, orders, base, cs, script, k, start);
      if !short {
        return;
      }
      k := k + 1;
    }
  }

  /** The loop and what the answer it ends on makes of the launch. */
  method Walk(u: Cache, cluster: string, claim: Claim, its: seq<InstanceType>, cs: seq<Candidate>,
              base: CreateRequest, attempts: nat, script: Script)
    returns (r: LaunchResult, orders: seq<CreateRequest>, invalidated: bool)
    requires attempts <= |cs|
    modifies u
    ensures var k := StopAt(script, attempts);
      && orders == OrdersFor(base, cs[..Min(k + 1, attempts)])
      && u.items == Marked(old(u.items), u.ttl, cs, script, k)
    ensures r == ResultAt(cluster, claim, its, cs, script, attempts)
    ensures invalidated <==> r.Launched?
  {
    var k;
    k, orders := FallThrough(u, cs, base, attempts, script);
    OrdersAre(orders, base, cs, Min(k + 1, attempts));
    if k == attempts {
      return NoCapacity, orders, false;
    }
    r := Conclude(cluster, claim, its, cs[k], script.answer(k), script.byName);
    return r, orders, r.Launched?;
  }

  /** The first order is the base request for a pair that no compatible, available pair undercuts. */
  ghost predicate CheapestOrdered(claim: Claim, its: seq<InstanceType>, base: CreateRequest, orders: seq<CreateRequest>)
  {
    orders != [] && exists c :: CheapestValid(claim, its, c) && IsOrderFor(orders[0], base, c)
  }

  ghost predicate CheapestValid(claim: Claim, its: seq<InstanceType>, c: Candidate)
  {
    ValidCandidate(claim, its, c) && forall d | ValidCandidate(claim, its, d) :: c.price <= d.price
  }

  /** `req` is `base` with the pair's type and location, and nothing else changed. */
  ghost predicate IsOrderFor(req: CreateRequest, base: CreateRequest, c: Candidate)
  {
    && req.serverType == c.instanceType.name && req.location == c.location
    && req.(serverType := base.serverType, location := base.location) == base
  }

  /** Create, from the instance types Build produced to the orders sent. */
  method Create(u: Cache, cluster: string, claim: Claim, its: seq<InstanceType>,
                base: Result<CreateRequest, RequestError>, maxAttempts: nat, script: Script)
    returns (r: LaunchResult, orders: seq<CreateRequest>, invalidated: bool)
    requires maxAttempts > 0
    modifies u
    ensures var cs := Ordered(claim, its);
      && (cs == [] ==> r == NoCapacity)
      && (cs != [] && base.Err? ==> r == BadRequest)
      && (cs == [] || base.Err? ==> orders == [] && !invalidated && u.items == old(u.items))
    ensures var cs := Ordered(claim, its);
      cs != [] && base.Ok? ==>
        var n := Min(|cs|, maxAttempts);
        var k := StopAt(script, n);
        && orders == OrdersFor(base.value, cs[..Min(k + 1, n)]) && |orders| <= maxAttempts
        && u.items == Marked(old(u.items), u.ttl, cs, script, k)
        && r == ResultAt(cluster, claim, its, cs, script, n)
        && (invalidated <==> r.Launched?)
    ensures base.Ok? && (exists d :: ValidCandidate(claim, its, d)) ==> CheapestOrdered(claim, its, base.value, orders)
    ensures (forall d :: !ValidCandidate(claim, its, d)) ==> orders == [] && r == NoCapacity
  {
    var cs := OrderedCandidates(claim, its);
    forall d | ValidCandidate(claim, its, d)
      ensures cs != [] && ValidCandidate(claim, its, cs[0]) && cs[0].price <= d.price
    {
      FirstIsCheapest(claim, its, d);
    }
    if cs == [] {
      return NoCapacity, [], false;
    }
    OrderedExact(claim, its, cs[0]);
    if base.Err? {
      return BadRequest, [], false;
    }
    r, orders, invalidated := Walk(u, cluster, claim, its, cs, base.value, Min(|cs|, maxAttempts), script);
    assert CheapestValid(claim, its, cs[0]) && IsOrderFor(orders[0], base.value, cs[0]);
  }

  /** The last of the first `k` candidates that is the pair `key`. */
  ghost function LastTried(cs: seq<Candidate>, k: nat, key: Key): (i: Option<nat>)
    requires k <= |cs|
    ensures i.None? ==> forall j | 0 <= j < k :: Key(cs[j].instanceType.name, cs[j].location) != key
    ensures i.Some? ==> i.value < k && Key(cs[i.value].instanceType.name, cs[i.value].location) == key
    ensures i.Some? ==> forall j | i.value < j < k :: Key(cs[j].instanceType.name, cs[j].location) != key
  {
    if k == 0 then None
    else if KeyOf(cs[k - 1]) == key then Some(k - 1)
    else LastTried(cs, k - 1, key)
  }

  function Lookup(items: Items, key: Key): Option<Entry>
  {
    if key in items then Some(items[key]) else None
  }

  /** Exactly the capacity-failed pairs gain an entry, dated from their own failure; no other entry changes. */
  lemma {:induction false} SuppressionsExact(items: Items, ttl: int, cs: seq<Candidate>, script: Script, k: nat, key: Key)
    requires k <= |cs|
    ensures Lookup(Marked(items, ttl, cs, script, k), key) ==
      match LastTried(cs, k, key)
      case None => Lookup(items, key)
      case Some(i) => Some(Entry(script.clock(i) + ttl, FailureCode(script.answer(i))))
    ensures LastTried(cs, k, key).Some? && RefusalCode(script.answer(LastTried(cs, k, key).value)).Some? ==>
      Marked(items, ttl, cs, script, k)[key].code == RefusalCode(script.answer(LastTried(cs, k, key).value)).value
  {
    if k > 0 {
      SuppressionsExact(items, ttl, cs, script, k - 1, key);
    }
  }

  /** A launched server is the one just made, with the type ordered, or one adopted as its own type or none. */
  lemma LaunchedAs(cluster: string, claim: Claim, its: seq<InstanceType>, script: Script, n: nat)
    requires n <= |Ordered(claim, its)|
    requires ResultAt(cluster, claim, its, Ordered(claim, its), script, n).Launched?
    ensures var cs := Ordered(claim, its);
      var r := ResultAt(cluster, claim, its, cs, script, n);
      var k := StopAt(script, n);
      && k < n
      && (script.answer(k).Created? ==> script.answer(k).srv == r.srv && r.instanceType == Some(cs[k].instanceType))
      && (script.answer(k).Rejected? ==>
            && Carries(r.srv, cluster) && Label(r.srv.labels, LABEL_NODE_CLAIM) == claim.name && script.byName == Ok(Some(r.srv))
            && (r.instanceType.Some? ==> r.instanceType.value in its && r.instanceType.value.name == r.srv.serverType)
            && (r.instanceType.None? ==> forall it | it in its :: it.name != r.srv.serverType))
  {
  }

  /** The code an order was refused with; None for a success or an error without one. */
  function RefusalCode(a: Attempt): Option<ErrorCode>
  {
    if a.Rejected? then Errors.Code(a.err) else None
  }

  /** The name lookup found a server that carries our label and this claim's. */
  ghost predicate FoundOurs(byName: Result<Option<Server>, Err>, cluster: string, claim: Claim)
  {
    && byName.Ok? && byName.value.Some? && Carries(byName.value.value, cluster)
    && Label(byName.value.value.labels, LABEL_NODE_CLAIM) == claim.name
  }

  /** The walk goes past an answer exactly when Hetzner refused it with one of the four capacity codes. */
  lemma OutOfStockIff(a: Attempt)
    ensures OutOfStock(a) <==> RefusalCode(a).Some? && RefusalCode(a).value in CAPACITY_CODES
  {
  }

  /**
   * What Create reports, by the Hetzner code of the answer the walk ended on:
   * which codes give up, which fail the claim, which is answered by adoption, and
   * that everything else, unknown codes and errors without one included, is retried.
   */
  lemma RefusalsExact(cluster: string, claim: Claim, its: seq<InstanceType>, cs: seq<Candidate>, script: Script, n: nat)
    requires n <= |cs|
    ensures var r, k := ResultAt(cluster, claim, its, cs, script, n), StopAt(script, n);
      var code := RefusalCode(script.answer(k));
      var config := code.Some? && code.value in CONFIG_CODES;
      var adopts := code == Some(UniquenessError) && FoundOurs(script.byName, cluster, claim);
      && r != BadRequest
      && (r == NoCapacity <==> k == n || code == Some(ResourceLimitExceeded))
      && (r == CredentialRejected <==> k < n && code.Some? && code.value in CREDENTIAL_CODES)
      && (r == CreateFailed <==> k < n && config && !adopts)
      && (r.Launched? <==> k < n && (script.answer(k).Created? || adopts))
      && (r == RetryCreate <==>
            && k < n && script.answer(k).Rejected?
            && (code.Some? ==> code.value !in CAPACITY_CODES + CONFIG_CODES + CREDENTIAL_CODES + {ResourceLimitExceeded}))
  {
    var k := StopAt(script, n);
    if k < n && script.answer(k).Rejected? {
      OutOfStockIff(script.answer(k));
      var code := RefusalCode(script.answer(k));
      assert Classify(Some(script.answer(k).err)) == if code.None? then ClassTransient else ClassOf(code.value);
      if script.byName.Ok? && script.byName.value.Some? {
        OursIff(script.byName.value.value, cluster);
      }
    }
  }

  /** One Has call of a Build: how many cache operations went before it, and its own reading of the clock. */
  datatype Read = Read(before: nat, at: int)

  /** Every Has of the Build comes after operation `i`, in order with the others, and before the mark of `i` expires. */
  ghost predicate BuiltWithin(ttl: int, ops: seq<Timed>, i: nat, read: Key -> Read)
    requires i < |ops|
  {
    forall k: Key :: i < read(k).before <= |ops| && ops[read(k).before - 1].at <= read(k).at < ops[i].at + ttl
  }

  /**
   * A pair that failed on capacity at time t is not ordered by any Create whose
   * Build ran in [t, t + ttl), whatever the suppression cache did in between and
   * between the reads of that Build.
   */
  lemma SuppressedPairNotOrdered(ttl: int, ops: seq<Timed>, i: nat, read: Key -> Read,
                                 sts: seq<ServerType>, terms: Terms, claim: Claim, c: Candidate)
    requires ClockNonDecreasing(ops) && i < |ops| && ops[i].op.MarkOp? && BuiltWithin(ttl, ops, i, read)
    requires forall k :: terms.suppressed(k) <==> HasNow(Run(ttl, ops[..read(k).before]), k, read(k).at)
    requires c in Ordered(claim, Sort(Unsorted(sts, terms), NameLe))
    ensures KeyOf(c) != ops[i].op.key
  {
    var its := Sort(Unsorted(sts, terms), NameLe);
    OrderedExact(claim, its, c);
    var o :| o in c.instanceType.offerings && o.available && claim.compatible(o)
      && o.location == c.location && o.price == c.price;
    BuiltOfferingsRespectSuppression(sts, terms, c.instanceType, o);
    var r := read(ops[i].op.key);
    MarkHolds(ttl, ops[..r.before], i, r.at);
  }
}
