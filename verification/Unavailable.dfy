/** Suppression of (server type, location) pairs that recently failed (internal/providers/instancetype/unavailable.go). */
module Unavailable {
  import opened Common
  import opened Errors

  datatype Key = Key(serverType: string, location: string)
  datatype Entry = Entry(until: int, code: ErrorCode)
  datatype Suppression = Suppression(key: Key, code: ErrorCode)

  type Items = map<Key, Entry>

  predicate HasNow(items: Items, k: Key, now: int)
  {
    k in items && now < items[k].until
  }

  function CodeNow(items: Items, k: Key, now: int): Option<ErrorCode>
  {
    if HasNow(items, k, now) then Some(items[k].code) else None
  }

  function Reap(items: Items, now: int): Items
  {
    map k | k in items && now < items[k].until :: items[k]
  }

  function MarkedLocation(items: Items, location: string, e: Entry): Items
  {
    map k | k in items :: if k.location == location then e else items[k]
  }

  ghost predicate Lists(out: seq<Suppression>, items: Items, now: int)
  {
    && Distinct(out)
    && forall s :: s in out <==> CodeNow(items, s.key, now) == Some(s.code)
  }

  /** The cache. Every operation takes the reading of the injected clock. */
  class Cache {
    const ttl: int
    var items: Items

    constructor (ttl: int)
      ensures this.ttl == ttl && items == map[]
    {
      this.ttl := ttl;
      items := map[];
    }

    method Mark(k: Key, code: ErrorCode, now: int)
      modifies this
      ensures items == old(items)[k := Entry(now + ttl, code)]
    {
      items := items[k := Entry(now + ttl, code)];
    }

    method MarkLocation(location: string, code: ErrorCode, now: int)
      modifies this
      ensures items == MarkedLocation(old(items), location, Entry(now + ttl, code))
      ensures items.Keys == old(items).Keys
      ensures forall k | k in items :: items[k] == if k.location == location then Entry(now + ttl, code) else old(items)[k]
    {
      var until := now + ttl;
      ghost var before := items;
      var todo := items.Keys;
      while todo != {}
        invariant items.Keys == before.Keys && todo <= before.Keys
        invariant forall k | k in before ::
          items[k] == if k !in todo && k.location == location then Entry(until, code) else before[k]
        decreases |todo|
      {
        var k :| k in todo;
        todo := todo - {k};
        if k.location == location {
          items := items[k := Entry(until, code)];
        }
      }
    }

    method Has(k: Key, now: int) returns (b: bool)
      ensures b == HasNow(items, k, now)
    {
      b := k in items && now < items[k].until;
    }

    method Code(k: Key, now: int) returns (code: Option<ErrorCode>)
      ensures code == CodeNow(items, k, now)
    {
      if k !in items || !(now < items[k].until) {
        return None;
      }
      return Some(items[k].code);
    }

    /** The live pairs, each once; expired entries are dropped on the way. */
    method Snapshot(now: int) returns (out: seq<Suppression>)
      modifies this
      ensures Lists(out, old(items), now)
      ensures items == Reap(old(items), now)
    {
      ghost var before := items;
      out := [];
      var todo := items.Keys;
      while todo != {}
        invariant todo <= before.Keys && items.Keys <= before.Keys
        invariant forall k | k in items :: items[k] == before[k]
        invariant forall k | k in before :: k in items <==> k in todo || now < before[k].until
        invariant Distinct(out)
        invariant forall s :: s in out <==> s.key !in todo && CodeNow(before, s.key, now) == Some(s.code)
        decreases |todo|
      {
        var k :| k in todo;
        var e := items[k];
        todo := todo - {k};
        if !(now < e.until) {
          items := items - {k};
          continue;
        }
        out := out + [Suppression(k, e.code)];
      }
    }

    method Len(now: int) returns (n: nat)
      modifies this
      ensures exists out :: Lists(out, old(items), now) && n == |out|
      ensures items == Reap(old(items), now)
    {
      var out := Snapshot(now);
      n := |out|;
    }
  }

  // ---------------------------------------------------------------- runs

  datatype Op =
    | MarkOp(key: Key, code: ErrorCode)
    | MarkLocationOp(location: string, code: ErrorCode)
    | HasOp(key: Key) | CodeOp(key: Key) | SnapshotOp | LenOp

  datatype Timed = Timed(at: int, op: Op)

  function Applied(items: Items, ttl: int, t: Timed): Items
  {
    match t.op
    case MarkOp(k, code) => items[k := Entry(t.at + ttl, code)]
    case MarkLocationOp(l, code) => MarkedLocation(items, l, Entry(t.at + ttl, code))
    case HasOp(_) | CodeOp(_) => items
    case SnapshotOp | LenOp => Reap(items, t.at)
  }

  function Run(ttl: int, ops: seq<Timed>): Items
  {
    if ops == [] then map[] else Applied(Run(ttl, ops[..|ops| - 1]), ttl, ops[|ops| - 1])
  }

  ghost predicate ClockNonDecreasing(ops: seq<Timed>)
  {
    forall i, j | 0 <= i < j < |ops| :: ops[i].at <= ops[j].at
  }

  lemma {:induction false} MarkOutlives(ttl: int, ops: seq<Timed>, i: nat, now: int)
    requires ClockNonDecreasing(ops) && i < |ops| && ops[i].op.MarkOp?
    requires ops[|ops| - 1].at <= now < ops[i].at + ttl
    ensures var k, items := ops[i].op.key, Run(ttl, ops); k in items && items[k].until >= ops[i].at + ttl
  {
    var n := |ops| - 1;
    if i < n {
      MarkOutlives(ttl, ops[..n], i, ops[n].at);
    }
  }

  /**
   * A pair marked at t stays suppressed at every instant of [t, t + ttl),
   * whatever else runs in between, MarkLocation included.
   */
  lemma MarkHolds(ttl: int, ops: seq<Timed>, i: nat, now: int)
    requires ClockNonDecreasing(ops) && i < |ops| && ops[i].op.MarkOp?
    requires ops[|ops| - 1].at <= now < ops[i].at + ttl
    ensures HasNow(Run(ttl, ops), ops[i].op.key, now)
  {
    MarkOutlives(ttl, ops, i, now);
  }

  // ---------------------------------------------------------------- runs against the full mark history

  ghost predicate NoLocationMarks(ops: seq<Timed>)
  {
    forall i | 0 <= i < |ops| :: !ops[i].op.MarkLocationOp?
  }

  /** The last mark of a pair in the whole history; nothing is ever forgotten here. */
  ghost function LastMark(ops: seq<Timed>, k: Key): Option<Timed>
  {
    if ops == [] then None
    else
      var last := ops[|ops| - 1];
      if last.op.MarkOp? && last.op.key == k then Some(last) else LastMark(ops[..|ops| - 1], k)
  }

  /** Suppressed according to the history: marked, and less than `ttl` ago. */
  ghost function SpecCode(ops: seq<Timed>, ttl: int, k: Key, now: int): Option<ErrorCode>
  {
    var m := LastMark(ops, k);
    if m.Some? && m.value.op.MarkOp? && now < m.value.at + ttl then Some(m.value.op.code) else None
  }

  ghost predicate Agrees(items: Items, ops: seq<Timed>, ttl: int, now: int)
  {
    forall k :: var m := LastMark(ops, k);
      && (k in items ==> m.Some? && m.value.op.MarkOp? && items[k] == Entry(m.value.at + ttl, m.value.op.code))
      && (k !in items && m.Some? ==> m.value.at + ttl <= now)
  }

  lemma {:induction false} RunKeepsHistory(ttl: int, ops: seq<Timed>, now: int)
    requires ClockNonDecreasing(ops) && NoLocationMarks(ops) && (ops != [] ==> ops[|ops| - 1].at <= now)
    ensures Agrees(Run(ttl, ops), ops, ttl, now)
  {
    if ops != [] {
      var n := |ops| - 1;
      RunKeepsHistory(ttl, ops[..n], ops[n].at);
    }
  }

  /** The pairs the history says are suppressed. */
  ghost function SpecPairs(ops: seq<Timed>, ttl: int, now: int): set<Suppression>
  {
    set i | 0 <= i < |ops| && ops[i].op.MarkOp? && SpecCode(ops, ttl, ops[i].op.key, now).Some? ::
      Suppression(ops[i].op.key, SpecCode(ops, ttl, ops[i].op.key, now).value)
  }

  lemma {:induction false} LastMarkListed(ops: seq<Timed>, k: Key)
    requires LastMark(ops, k).Some?
    ensures exists i :: 0 <= i < |ops| && ops[i].op.MarkOp? && ops[i].op.key == k
  {
    var n := |ops| - 1;
    if !(ops[n].op.MarkOp? && ops[n].op.key == k) {
      LastMarkListed(ops[..n], k);
      var i :| 0 <= i < n && ops[..n][i].op.MarkOp? && ops[..n][i].op.key == k;
      assert ops[i].op.key == k;
    }
  }

  lemma SpecPairsExact(ops: seq<Timed>, ttl: int, now: int, s: Suppression)
    ensures s in SpecPairs(ops, ttl, now) <==> SpecCode(ops, ttl, s.key, now) == Some(s.code)
  {
    if SpecCode(ops, ttl, s.key, now) == Some(s.code) {
      LastMarkListed(ops, s.key);
    }
  }

  lemma {:induction false} DistinctCount<T>(s: seq<T>)
    requires Distinct(s)
    ensures |Members(s)| == |s|
  {
    if s != [] {
      var n := |s| - 1;
      DistinctCount(s[..n]);
      assert s == s[..n] + [s[n]];
      assert Members(s) == Members(s[..n]) + {s[n]};
    }
  }

  /**
   * Reaping is invisible: with a clock that never goes back, after any run of
   * Mark, Has, Code, Snapshot and Len, each of them answers exactly as the full
   * history of marks does.
   */
  lemma RunAgrees(ttl: int, ops: seq<Timed>, k: Key, now: int, out: seq<Suppression>)
    requires ClockNonDecreasing(ops) && NoLocationMarks(ops) && (ops != [] ==> ops[|ops| - 1].at <= now)
    ensures HasNow(Run(ttl, ops), k, now) <==> SpecCode(ops, ttl, k, now).Some?
    ensures CodeNow(Run(ttl, ops), k, now) == SpecCode(ops, ttl, k, now)
    ensures Lists(out, Run(ttl, ops), now) ==>
      Members(out) == SpecPairs(ops, ttl, now) && |out| == |SpecPairs(ops, ttl, now)|
  {
    RunKeepsHistory(ttl, ops, now);
    if Lists(out, Run(ttl, ops), now) {
      forall s ensures s in Members(out) <==> s in SpecPairs(ops, ttl, now) {
        SpecPairsExact(ops, ttl, now, s);
        assert CodeNow(Run(ttl, ops), s.key, now) == SpecCode(ops, ttl, s.key, now);
      }
      assert Members(out) == SpecPairs(ops, ttl, now);
      DistinctCount(out);
    }
  }

  /**
   * MarkLocation is the one operation that can tell whether expired entries
   * were reaped: it revives them. Its effect is the same on a reaped and an
   * unreaped cache exactly when no expired entry of that location lingers.
   */
  lemma MarkLocationSeesReapingIff(items: Items, location: string, code: ErrorCode, ttl: int, now: int)
    requires ttl > 0
    ensures var e := Entry(now + ttl, code);
      (forall k :: HasNow(MarkedLocation(items, location, e), k, now)
             == HasNow(MarkedLocation(Reap(items, now), location, e), k, now))
      <==> (forall k | k in items && k.location == location :: now < items[k].until)
  {
    var e := Entry(now + ttl, code);
    var a := MarkedLocation(items, location, e);
    var b := MarkedLocation(Reap(items, now), location, e);
    if k :| k in items && k.location == location && !(now < items[k].until) {
      assert HasNow(a, k, now) && !HasNow(b, k, now);
    }
  }
}
