/**
 The passphrase cache of agent/cache.c: what each operation does to the list of
 items, and what it promises about the data that it returns.
 */
module PassphraseCache {
  import opened Octets

  datatype Mode = Ignore | Any | Normal | User | Ssh | Nonce | Pin | Data

  /** struct cache_item_s; pw is None when the data has been released. */
  datatype Item = Item(key: bytes, restricted: int, created: int, accessed: int, ttl: int, pw: Option<bytes>, mode: Mode)

  datatype Options = Options(defTtl: int, defTtlSsh: int, maxTtl: nat, maxTtlSsh: nat)

  const DEF_CACHE_TTL_DATA := 10 * 60
  const UNUSED_SLOT_TIME := 60 * 30

  // ----- housekeeping

  function MaxTtl(o: Options, mode: Mode): nat {
    if mode == Ssh then o.maxTtlSsh else o.maxTtl
  }

  function Forget(r: Item, now: int): Item {
    r.(pw := None, accessed := now)
  }

  /** First phase: data that has not been accessed for its lifetime. */
  function ExpireAccess(r: Item, now: int): Item {
    if r.mode != Pin && r.pw.Some? && r.ttl >= 0 && r.accessed + r.ttl < now then Forget(r, now) else r
  }

  /** Second phase: data that is older than the maximum, however often it was accessed. */
  function ExpireAge(o: Options, r: Item, now: int): Item {
    if r.mode != Data && r.mode != Pin && r.pw.Some? && r.created + MaxTtl(o, r.mode) < now then Forget(r, now) else r
  }

  /** Third phase: slots without data that have not been used for half an hour. */
  predicate Unused(r: Item, now: int) {
    r.pw.None? && r.ttl >= 0 && r.accessed + UNUSED_SLOT_TIME < now
  }

  function Expire(o: Options, r: Item, now: int): Item {
    ExpireAge(o, ExpireAccess(r, now), now)
  }

  function Housekeep(o: Options, items: seq<Item>, now: int): seq<Item> {
    if items == [] then []
    else
      var r := Expire(o, items[0], now);
      (if Unused(r, now) then [] else [r]) + Housekeep(o, items[1..], now)
  }

  // ----- finding items

  function ModeEqual(a: Mode, b: Mode): bool {
    || (a == Any && b != Ignore && b != Data)
    || (b == Any && a != Ignore && a != Data)
    || a == b
  }

  predicate Matches(r: Item, key: bytes, restricted: int, mode: Mode) {
    if mode == Pin then r.key == key
    else
      && ((mode != User && mode != Nonce) || ModeEqual(r.mode, mode))
      && r.restricted == restricted && r.key == key
  }

  /** The first item that matches, with data if that is asked for; |items| if there is none. */
  function Find(items: seq<Item>, key: bytes, restricted: int, mode: Mode, withData: bool): (i: nat)
    ensures i <= |items|
    ensures i < |items| ==> Matches(items[i], key, restricted, mode) && (withData ==> items[i].pw.Some?)
    ensures forall j :: 0 <= j < i ==> !(Matches(items[j], key, restricted, mode) && (withData ==> items[j].pw.Some?))
  {
    if items == [] then 0
    else if Matches(items[0], key, restricted, mode) && (withData ==> items[0].pw.Some?) then 0
    else
      var i := 1 + Find(items[1..], key, restricted, mode, withData);
      assert forall j :: 1 <= j < i ==> items[j] == items[1..][j - 1];
      i
  }

  // ----- the operations

  datatype Op =
    | Put(key: bytes, restricted: int, mode: Mode, data: Option<bytes>, ttl: int)
    | Get(key: bytes, restricted: int, mode: Mode)
    | Flush(pinOnly: bool)
    | Tidy

  datatype Timed = Timed(op: Op, now: int)

  function EffectiveTtl(o: Options, mode: Mode, ttl: int): int {
    if ttl != 0 then ttl
    else
      match mode
      case Ssh => o.defTtlSsh
      case Data => DEF_CACHE_TTL_DATA
      case Pin => -1
      case _ => o.defTtl
  }

  predicate PutIgnored(o: Options, p: Op)
    requires p.Put?
  {
    (EffectiveTtl(o, p.mode, p.ttl) == 0 && p.data.Some?) || p.mode == Ignore
  }

  function NewItem(o: Options, p: Op, now: int): Item
    requires p.Put?
  {
    Item(p.key, p.restricted, now, now, EffectiveTtl(o, p.mode, p.ttl), p.data, p.mode)
  }

  /** agent_put_cache; without data it deletes. */
  function PutItems(o: Options, items: seq<Item>, p: Op, now: int): seq<Item>
    requires p.Put?
  {
    var h := Housekeep(o, items, now);
    if PutIgnored(o, p) then h else StoreItems(o, h, p, now)
  }

  /** Replace, insert or delete. */
  function StoreItems(o: Options, h: seq<Item>, p: Op, now: int): seq<Item>
    requires p.Put?
  {
    var i := Find(h, p.key, p.restricted, p.mode, false);
    if i < |h| then
      h[i := if p.data.None? then h[i].(pw := None)
             else NewItem(o, p, now).(key := h[i].key, restricted := h[i].restricted)]
    else if p.data.Some? then [NewItem(o, p, now)] + h
    else h
  }

  function Touched(r: Item, now: int): Item {
    if r.mode != Data then r.(accessed := now) else r
  }

  /** agent_get_cache. */
  function GetItems(o: Options, items: seq<Item>, g: Op, now: int): (seq<Item>, Option<bytes>)
    requires g.Get?
  {
    if g.mode == Ignore then (items, None)
    else
      var h := Housekeep(o, items, now);
      var i := Find(h, g.key, g.restricted, g.mode, true);
      if i < |h| then (h[i := Touched(h[i], now)], h[i].pw) else (h, None)
  }

  function FlushItem(r: Item, pinOnly: bool): Item {
    if (pinOnly && r.mode != Pin) || r.pw.None? then r else Forget(r, 0)
  }

  /** agent_flush_cache. */
  function FlushItems(items: seq<Item>, pinOnly: bool): seq<Item> {
    if items == [] then [] else [FlushItem(items[0], pinOnly)] + FlushItems(items[1..], pinOnly)
  }

  function Apply(o: Options, items: seq<Item>, t: Timed): (seq<Item>, Option<bytes>) {
    match t.op
    case Put(_, _, _, _, _) => (PutItems(o, items, t.op, t.now), None)
    case Get(_, _, _) => GetItems(o, items, t.op, t.now)
    case Flush(pinOnly) => (FlushItems(items, pinOnly), None)
    case Tidy => (Housekeep(o, items, t.now), None)
  }

  /** The list after a sequence of operations. */
  function After(o: Options, ops: seq<Timed>): seq<Item> {
    if ops == [] then [] else Apply(o, After(o, ops[..|ops| - 1]), ops[|ops| - 1]).0
  }

  /** What the last operation returns. */
  function Answer(o: Options, ops: seq<Timed>): Option<bytes>
    requires ops != []
  {
    Apply(o, After(o, ops[..|ops| - 1]), ops[|ops| - 1]).1
  }

  /** The clock does not go back. */
  predicate Ordered(ops: seq<Timed>) {
    forall i, j :: 0 <= i < j < |ops| ==> ops[i].now <= ops[j].now
  }

  // ----- properties of housekeeping

  /** Data of this item may still be returned. */
  predicate Live(o: Options, r: Item, now: int) {
    && r.pw.Some?
    && (r.mode == Pin
        || ((r.ttl < 0 || now <= r.accessed + r.ttl) && (r.mode == Data || now <= r.created + MaxTtl(o, r.mode))))
  }

  /** Expiring keeps live items as they are and releases the data of all others. */
  lemma ExpireIsLive(o: Options, r: Item, now: int)
    ensures Expire(o, r, now) == if r.pw.None? || Live(o, r, now) then r else Forget(r, now)
  {
  }

  /** What housekeeping leaves is what it started from, in the same order, expired and without unused slots. */
  lemma {:induction false} HousekeepItems(o: Options, items: seq<Item>, now: int)
    ensures var h := Housekeep(o, items, now);
            && |h| <= |items|
            && (forall r :: r in h <==> exists x :: x in items && r == Expire(o, x, now) && !Unused(r, now))
            && (forall r :: r in h ==> r.pw.Some? ==> r in items && Live(o, r, now))
  {
    if items != [] {
      var h, rest := Housekeep(o, items, now), Housekeep(o, items[1..], now);
      HousekeepItems(o, items[1..], now);
      ExpireIsLive(o, items[0], now);
      assert items == [items[0]] + items[1..];
      forall r
        ensures r in h <==> exists x :: x in items && r == Expire(o, x, now) && !Unused(r, now)
      {
        if r in rest {
          var x :| x in items[1..] && r == Expire(o, x, now) && !Unused(r, now);
          assert x in items;
        }
        if x :| x in items && r == Expire(o, x, now) && !Unused(r, now) {
          assert x == items[0] || x in items[1..];
        }
      }
    }
  }

  /** Housekeeping twice at the same time is housekeeping once. */
  lemma {:induction false} HousekeepIdempotent(o: Options, items: seq<Item>, now: int)
    ensures Housekeep(o, Housekeep(o, items, now), now) == Housekeep(o, items, now)
  {
    if items != [] {
      HousekeepIdempotent(o, items[1..], now);
      var r := Expire(o, items[0], now);
      ExpireIsLive(o, items[0], now);
      ExpireIsLive(o, r, now);
      if !Unused(r, now) {
        var h := Housekeep(o, items, now);
        assert h[0] == r && h[1..] == Housekeep(o, items[1..], now);
      } else {
        assert Housekeep(o, items, now) == Housekeep(o, items[1..], now);
      }
    }
  }

  /** Survivors keep their order: there is an increasing choice of positions they came from. */
  lemma {:induction false} HousekeepOrder(o: Options, items: seq<Item>, now: int) returns (from: seq<nat>)
    ensures var h := Housekeep(o, items, now);
            && |from| == |h|
            && (forall i :: 0 <= i < |from| ==> from[i] < |items| && h[i] == Expire(o, items[from[i]], now))
            && (forall i, j :: 0 <= i < j < |from| ==> from[i] < from[j])
  {
    if items == [] {
      from := [];
    } else {
      var f := HousekeepOrder(o, items[1..], now);
      var g := seq(|f|, i requires 0 <= i < |f| => f[i] + 1);
      from := if Unused(Expire(o, items[0], now), now) then g else [0] + g;
    }
  }

  // ----- where returned data comes from

  /** The operation stored the data that the item has. */
  predicate Stored(o: Options, t: Timed, r: Item) {
    && t.op.Put? && t.op.key == r.key && t.op.data == r.pw && t.op.mode == r.mode
    && t.now == r.created && EffectiveTtl(o, t.op.mode, t.op.ttl) == r.ttl
    && (r.mode == Pin || t.op.restricted == r.restricted)
    && (r.mode == Data ==> r.accessed == r.created)
  }

  ghost predicate Sourced(o: Options, ops: seq<Timed>, r: Item) {
    r.pw.Some? ==> exists j :: 0 <= j < |ops| && Stored(o, ops[j], r)
  }

  lemma SourcedLater(o: Options, ops: seq<Timed>, r: Item, r': Item, t: Timed)
    requires Sourced(o, ops, r) && (r'.pw.Some? ==> r == r' || (r.mode != Data && r' == r.(accessed := r'.accessed)))
    ensures Sourced(o, ops + [t], r')
  {
    if r'.pw.Some? {
      var j :| 0 <= j < |ops| && Stored(o, ops[j], r);
      assert Stored(o, (ops + [t])[j], r');
    }
  }

  lemma SourcedNow(o: Options, ops: seq<Timed>, t: Timed, r: Item)
    requires Stored(o, t, r)
    ensures Sourced(o, ops + [t], r)
  {
    assert Stored(o, (ops + [t])[|ops|], r);
  }

  lemma {:induction false} FlushedItems(items: seq<Item>, pinOnly: bool)
    ensures |FlushItems(items, pinOnly)| == |items|
    ensures forall i :: 0 <= i < |items| ==> FlushItems(items, pinOnly)[i] == FlushItem(items[i], pinOnly)
  {
    if items != [] {
      FlushedItems(items[1..], pinOnly);
    }
  }

  lemma SourcedHousekeep(o: Options, ops: seq<Timed>, items: seq<Item>, now: int)
    requires forall r :: r in items ==> Sourced(o, ops, r)
    ensures forall r :: r in Housekeep(o, items, now) ==> Sourced(o, ops, r)
  {
    hide Housekeep, Stored;
    HousekeepItems(o, items, now);
  }

  lemma SourcedStep(o: Options, ops: seq<Timed>, items: seq<Item>, t: Timed, r: Item)
    requires forall x :: x in items ==> Sourced(o, ops, x)
    requires r in Apply(o, items, t).0
    ensures Sourced(o, ops + [t], r)
  {
    hide Housekeep, Stored, Sourced;
    var h := Housekeep(o, items, t.now);
    SourcedHousekeep(o, ops, items, t.now);
    match t.op {
      case Put(key, restricted, mode, data, ttl) =>
        SourcedPut(o, ops, h, items, t, r);
      case Get(key, restricted, mode) =>
        if r in h {
          SourcedLater(o, ops, r, r, t);
        } else if mode == Ignore {
          SourcedLater(o, ops, r, r, t);
        } else {
          var i := Find(h, key, restricted, mode, true);
          SourcedLater(o, ops, h[i], r, t);
        }
      case Flush(pinOnly) =>
        FlushedItems(items, pinOnly);
        var i :| 0 <= i < |items| && r == FlushItem(items[i], pinOnly);
        SourcedLater(o, ops, items[i], r, t);
      case Tidy =>
        SourcedLater(o, ops, r, r, t);
    }
  }

  lemma SourcedPut(o: Options, ops: seq<Timed>, h: seq<Item>, items: seq<Item>, t: Timed, r: Item)
    requires t.op.Put? && h == Housekeep(o, items, t.now) && r in PutItems(o, items, t.op, t.now)
    requires forall x :: x in h ==> Sourced(o, ops, x)
    ensures Sourced(o, ops + [t], r)
  {
    hide Housekeep, Sourced;
    if r in h {
      SourcedLater(o, ops, r, r, t);
    } else if r.pw.Some? {
      SourcedNow(o, ops, t, r);
    } else {
      SourcedNone(o, ops + [t], r);
    }
  }

  lemma SourcedNone(o: Options, ops: seq<Timed>, r: Item)
    requires r.pw.None?
    ensures Sourced(o, ops, r)
  {
  }

  /** After any operations, all data in the list comes from a put that is recorded in the item's fields. */
  lemma {:induction false} AllSourced(o: Options, ops: seq<Timed>)
    ensures forall r :: r in After(o, ops) ==> Sourced(o, ops, r)
  {
    if ops != [] {
      hide Apply, Sourced;
      var init, last := ops[..|ops| - 1], ops[|ops| - 1];
      AllSourced(o, init);
      assert ops == init + [last];
      forall r | r in After(o, ops)
        ensures Sourced(o, ops, r)
      {
        SourcedStep(o, init, After(o, init), last, r);
      }
    }
  }

  /**
   Whatever is done in between, and however often the data was got: what a get
   returns was put under that key at most the maximum lifetime of its mode
   before, and in data mode at most its own lifetime before.
   */
  lemma LifetimeBound(o: Options, ops: seq<Timed>)
    requires ops != [] && Answer(o, ops).Some?
    ensures var last := ops[|ops| - 1];
            && last.op.Get?
            && exists j :: 0 <= j < |ops| - 1 && ops[j].op.Put? && ops[j].op.key == last.op.key
                 && ops[j].op.data == Answer(o, ops)
                 && Within(o, ops[j], last.now)
  {
    var init, last := ops[..|ops| - 1], ops[|ops| - 1];
    AllSourced(o, init);
    var items := After(o, init);
    var h := Housekeep(o, items, last.now);
    var i := Find(h, last.op.key, last.op.restricted, last.op.mode, true);
    HousekeepItems(o, items, last.now);
    var r := h[i];
    assert r in h && Sourced(o, init, r);
    var j :| 0 <= j < |init| && Stored(o, init[j], r);
    assert init[j] == ops[j];
    assert Within(o, ops[j], last.now);
  }

  /** The time since a put is within the lifetime that the put asked for. */
  predicate Within(o: Options, put: Timed, now: int)
    requires put.op.Put?
  {
    var ttl := EffectiveTtl(o, put.op.mode, put.op.ttl);
    && (put.op.mode != Data && put.op.mode != Pin ==> now - put.now <= MaxTtl(o, put.op.mode))
    && (put.op.mode == Data && ttl >= 0 ==> now - put.now <= ttl)
  }

  // ----- put, then get

  /** An item that housekeeping does not touch. */
  predicate Settled(o: Options, r: Item, now: int) {
    Expire(o, r, now) == r && !Unused(r, now)
  }

  lemma {:induction false} SettledList(o: Options, items: seq<Item>, now: int)
    requires forall r :: r in items ==> Settled(o, r, now)
    ensures Housekeep(o, items, now) == items
  {
    if items != [] {
      assert Settled(o, items[0], now);
      SettledList(o, items[1..], now);
    }
  }

  lemma HousekeepSettles(o: Options, items: seq<Item>, now: int, r: Item)
    requires r in Housekeep(o, items, now)
    ensures Settled(o, r, now)
  {
    HousekeepItems(o, items, now);
    var x :| x in items && r == Expire(o, x, now) && !Unused(r, now);
    ExpireIsLive(o, x, now);
    ExpireIsLive(o, r, now);
  }

  lemma NewSettled(o: Options, r: Item, now: int)
    requires r.pw.Some? && r.created == r.accessed == now
    ensures Settled(o, r, now)
  {
  }

  lemma FindFrom(items: seq<Item>, key: bytes, restricted: int, mode: Mode, withData: bool, i: nat)
    requires i <= |items|
    requires i < |items| ==> Matches(items[i], key, restricted, mode) && (withData ==> items[i].pw.Some?)
    requires forall j :: 0 <= j < i ==> !(Matches(items[j], key, restricted, mode) && (withData ==> items[j].pw.Some?))
    ensures Find(items, key, restricted, mode, withData) == i
  {
  }

  lemma FindIs(items: seq<Item>, key: bytes, restricted: int, mode: Mode, i: nat)
    requires i < |items| && Matches(items[i], key, restricted, mode) && items[i].pw.Some?
    requires forall j :: 0 <= j < i ==> !Matches(items[j], key, restricted, mode)
    ensures Find(items, key, restricted, mode, true) == i
  {
  }

  /** In any cache, whatever it holds: data that was put is what a get of the same mode then returns. */
  lemma PutThenGet(o: Options, items: seq<Item>, p: Op, now: int)
    requires p.Put? && p.data.Some? && !PutIgnored(o, p)
    ensures GetItems(o, PutItems(o, items, p, now), Get(p.key, p.restricted, p.mode), now).1 == p.data
  {
    hide Housekeep, Find;
    var h := Housekeep(o, items, now);
    var x := PutItems(o, items, p, now);
    var i := Find(h, p.key, p.restricted, p.mode, false);
    var k := if i < |h| then i else 0;
    forall r | r in x
      ensures Settled(o, r, now)
    {
      if r == x[k] {
        NewSettled(o, r, now);
      } else {
        assert r in h;
        HousekeepSettles(o, items, now, r);
      }
    }
    SettledList(o, x, now);
    FindIs(x, p.key, p.restricted, p.mode, k);
  }
}
