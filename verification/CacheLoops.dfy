/**
 The operations of agent/cache.c on the linked list thecache.
 */
module CacheLoops {
  import opened Octets
  import opened PassphraseCache
  import opened LinkedLists

  class Cache {
    const list: List<Item>
    const opt: Options

    ghost predicate Valid()
      reads list, list.nodes
    {
      list.Valid()
    }

    /** The items in list order. */
    ghost function Items(): seq<Item>
      reads list, list.nodes
    {
      list.Items()
    }

    constructor (o: Options)
      ensures Valid() && fresh(list) && Items() == [] && opt == o
    {
      list := new List<Item>();
      opt := o;
    }

    /** The first loop of housekeeping. */
    method ExpireByAccess(now: int)
      requires Valid()
      modifies list.nodes`item
      ensures Valid() && |Items()| == |old(Items())|
      ensures forall i :: 0 <= i < |Items()| ==> Items()[i] == ExpireAccess(old(Items())[i], now)
    {
      list.Update((r: Item) =>
        if r.mode == Pin then r
        else if r.pw.Some? && r.ttl >= 0 && r.accessed + r.ttl < now then r.(pw := None, accessed := now)
        else r);
    }

    /** The second loop of housekeeping. */
    method ExpireByAge(now: int)
      requires Valid()
      modifies list.nodes`item
      ensures Valid() && |Items()| == |old(Items())|
      ensures forall i :: 0 <= i < |Items()| ==> Items()[i] == ExpireAge(opt, old(Items())[i], now)
    {
      var o := opt;
      list.Update((r: Item) =>
        if r.mode == Data || r.mode == Pin then r
        else
          var max := if r.mode == Ssh then o.maxTtlSsh else o.maxTtl;
          if r.pw.Some? && r.created + max < now then r.(pw := None, accessed := now) else r);
    }

    /** The third loop of housekeeping: unlink while walking. */
    method RemoveUnused(now: int)
      requires Valid()
      modifies list, list.nodes
      ensures Valid() && (forall n :: n in list.nodes ==> n in old(list.nodes))
      ensures Items() == Kept(old(Items()), now)
    {
      list.RemoveIf((r: Item) => r.pw.None? && r.ttl >= 0 && r.accessed + UNUSED_SLOT_TIME < now);
      FilterIsKept(old(Items()), now);
    }

    /** housekeeping. */
    method Housekeeping(now: int)
      requires Valid()
      modifies list, list.nodes
      ensures Valid() && (forall n :: n in list.nodes ==> n in old(list.nodes))
      ensures Items() == Housekeep(opt, old(Items()), now)
    {
      hide Segment, Filter, Housekeep, Kept;
      ghost var was := Items();
      ExpireByAccess(now);
      ghost var mid := Items();
      ExpireByAge(now);
      forall i | 0 <= i < |was|
        ensures Items()[i] == ExpireAge(opt, ExpireAccess(was[i], now), now)
      {
        assert Items()[i] == ExpireAge(opt, mid[i], now);
      }
      HousekeepPhases(opt, was, Items(), now);
      RemoveUnused(now);
    }

    /** The search loops of agent_put_cache and agent_get_cache. */
    method Search(key: bytes, restricted: int, mode: Mode, withData: bool) returns (r: Node?<Item>, ghost i: nat)
      requires Valid()
      ensures i == Find(Items(), key, restricted, mode, withData) && r == At(list.nodes, i, null)
    {
      hide Matches, Find;
      r, i := list.head, 0;
      while r != null && !(Matches(r.item, key, restricted, mode) && (withData ==> r.item.pw.Some?))
        invariant i <= |list.nodes| && r == At(list.nodes, i, null)
        invariant forall j :: 0 <= j < i ==>
                    !(Matches(list.nodes[j].item, key, restricted, mode) && (withData ==> list.nodes[j].item.pw.Some?))
        decreases |list.nodes| - i
      {
        r, i := r.next, i + 1;
      }
      FindFrom(Items(), key, restricted, mode, withData, i);
    }

    /** agent_put_cache. */
    method PutCache(p: Op, now: int)
      requires Valid() && p.Put?
      modifies list, list.nodes
      ensures Valid() && (forall n :: n in list.nodes ==> n in old(list.nodes) || fresh(n))
      ensures Items() == PutItems(opt, old(Items()), p, now)
    {
      hide Housekeep, StoreItems, Segment, ItemsOf;
      Housekeeping(now);
      var ttl := p.ttl;
      if ttl == 0 {
        ttl := match p.mode
          case Ssh => opt.defTtlSsh
          case Data => DEF_CACHE_TTL_DATA
          case Pin => -1
          case _ => opt.defTtl;
      }
      if (ttl == 0 && p.data.Some?) || p.mode == Ignore {
        return;
      }
      assert forall i :: 0 <= i < |list.nodes| ==> list.nodes[i] in old(list.nodes);
      Store(p, ttl, now);
    }

    /** The second half of agent_put_cache: replace, insert or delete. */
    method Store(p: Op, ttl: int, now: int)
      requires Valid() && p.Put? && ttl == EffectiveTtl(opt, p.mode, p.ttl)
      modifies list, list.nodes
      ensures Valid() && (forall n :: n in list.nodes ==> n in old(list.nodes) || fresh(n))
      ensures Items() == StoreItems(opt, old(Items()), p, now)
    {
      hide Find, Segment, ItemsOf;
      var r, i := Search(p.key, p.restricted, p.mode, false);
      if r != null {
        var x := r.item.(pw := None);
        if p.data.Some? {
          x := x.(created := now, accessed := now, ttl := ttl, mode := p.mode, pw := p.data);
        }
        assert r in list.nodes;
        list.SetItem(r, x, i);
      } else if p.data.Some? {
        list.Push(Item(p.key, p.restricted, now, now, ttl, p.data, p.mode));
        assert forall n :: n in list.nodes ==> n == list.nodes[0] || n in list.nodes[1..];
      }
    }

    /** agent_get_cache. */
    method GetCache(g: Op, now: int) returns (value: Option<bytes>)
      requires Valid() && g.Get?
      modifies list, list.nodes
      ensures Valid() && (forall n :: n in list.nodes ==> n in old(list.nodes))
      ensures (Items(), value) == GetItems(opt, old(Items()), g, now)
    {
      hide Housekeep, Find, Segment;
      if g.mode == Ignore {
        return None;
      }
      Housekeeping(now);
      var r, i := Search(g.key, g.restricted, g.mode, true);
      if r == null {
        return None;
      }
      value := r.item.pw;
      if r.item.mode != Data {
        assert r in list.nodes;
        list.SetItem(r, r.item.(accessed := now), i);
      } else {
        assert Items()[i := Items()[i]] == Items();
      }
    }

    /** agent_flush_cache. */
    method FlushCache(pinOnly: bool)
      requires Valid()
      modifies list.nodes`item
      ensures Valid() && Items() == FlushItems(old(Items()), pinOnly)
    {
      hide FlushItems, Segment, ItemsOf, Distinct;
      FlushedItems(Items(), pinOnly);
      list.Update((r: Item) =>
        if pinOnly && r.mode != Pin then r
        else if r.pw.Some? then r.(pw := None, accessed := 0)
        else r);
    }
  }

  /** The loop that unlinks keeps what the recursive definition keeps. */
  lemma {:induction false} FilterIsKept(items: seq<Item>, now: int)
    ensures Filter(items, (r: Item) => r.pw.None? && r.ttl >= 0 && r.accessed + UNUSED_SLOT_TIME < now) == Kept(items, now)
  {
    if items != [] {
      var k := |items| - 1;
      FilterIsKept(items[..k], now);
      KeptNext(items, k, now);
      assert items[..k + 1] == items;
    }
  }

  function Kept(items: seq<Item>, now: int): seq<Item> {
    if items == [] then [] else (if Unused(items[0], now) then [] else [items[0]]) + Kept(items[1..], now)
  }

  lemma {:induction false} KeptAppend(items: seq<Item>, r: Item, now: int)
    ensures Kept(items + [r], now) == Kept(items, now) + (if Unused(r, now) then [] else [r])
  {
    if items == [] {
      assert items + [r] == [r] && [r][1..] == [];
    } else {
      assert (items + [r])[1..] == items[1..] + [r];
      KeptAppend(items[1..], r, now);
    }
  }

  lemma KeptNext(items: seq<Item>, k: nat, now: int)
    requires k < |items|
    ensures Kept(items[..k + 1], now) == Kept(items[..k], now) + (if Unused(items[k], now) then [] else [items[k]])
  {
    assert items[..k + 1] == items[..k] + [items[k]];
    KeptAppend(items[..k], items[k], now);
  }

  /** Three loops over the list are one pass over its items. */
  lemma {:induction false} HousekeepPhases(o: Options, was: seq<Item>, expired: seq<Item>, now: int)
    requires |was| == |expired|
    requires forall i :: 0 <= i < |was| ==> expired[i] == ExpireAge(o, ExpireAccess(was[i], now), now)
    ensures Kept(expired, now) == Housekeep(o, was, now)
  {
    if was != [] {
      HousekeepPhases(o, was[1..], expired[1..], now);
    }
  }
}
