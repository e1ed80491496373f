/**
 How long the cache keeps what was put into it, and under which names it is
 found: everything in terms of the options, in any cache.
 */
module CacheLifetimes {
  import opened Octets
  import opened PassphraseCache

  // ----- the promises

  /** A put with data is heeded. */
  predicate Heeded(o: Options, mode: Mode, ttl: int) {
    match mode
    case Ignore => false
    case Data => true
    case Pin => true
    case Ssh => ttl != 0 || o.defTtlSsh != 0
    case _ => ttl != 0 || o.defTtl != 0
  }

  /** A negative lifetime does not end. */
  predicate WithinTtl(ttl: int, idle: int) {
    ttl < 0 || idle <= ttl
  }

  /**
   Data that was put this long ago, and has not been got for so long, is still
   there: TTL 0 stands for the default of the mode, and all modes but DATA and
   PIN have a maximum.
   */
  predicate Kept(o: Options, mode: Mode, ttl: int, age: int, idle: int) {
    match mode
    case Pin => true
    case Data => WithinTtl(if ttl == 0 then 600 else ttl, idle)
    case Ssh => WithinTtl(if ttl == 0 then o.defTtlSsh else ttl, idle) && age <= o.maxTtlSsh
    case _ => WithinTtl(if ttl == 0 then o.defTtl else ttl, idle) && age <= o.maxTtl
  }

  // ----- parts of a list

  lemma {:induction false} HousekeepConcat(o: Options, a: seq<Item>, b: seq<Item>, now: int)
    ensures Housekeep(o, a + b, now) == Housekeep(o, a, now) + Housekeep(o, b, now)
  {
    hide Expire, Unused;
    if a == [] {
      assert a + b == b;
    } else {
      assert (a + b)[1..] == a[1..] + b;
      HousekeepConcat(o, a[1..], b, now);
    }
  }

  /** The data of the first item that is found. */
  function Got(items: seq<Item>, key: bytes, restricted: int, mode: Mode): Option<bytes> {
    if items == [] then None
    else if Matches(items[0], key, restricted, mode) && items[0].pw.Some? then items[0].pw
    else Got(items[1..], key, restricted, mode)
  }

  lemma {:induction false} GotConcat(a: seq<Item>, b: seq<Item>, key: bytes, restricted: int, mode: Mode)
    ensures Got(a + b, key, restricted, mode) ==
            if Got(a, key, restricted, mode).Some? then Got(a, key, restricted, mode) else Got(b, key, restricted, mode)
  {
    hide Matches;
    if a == [] {
      assert a + b == b;
    } else {
      assert (a + b)[1..] == a[1..] + b;
      GotConcat(a[1..], b, key, restricted, mode);
    }
  }

  lemma {:induction false} GotIsFound(items: seq<Item>, key: bytes, restricted: int, mode: Mode)
    ensures var i := Find(items, key, restricted, mode, true);
            Got(items, key, restricted, mode) == if i < |items| then items[i].pw else None
  {
    hide Matches;
    if items != [] {
      GotIsFound(items[1..], key, restricted, mode);
    }
  }

  lemma GetIsGot(o: Options, items: seq<Item>, g: Op, now: int)
    requires g.Get?
    ensures GetItems(o, items, g, now).1 ==
            if g.mode == Ignore then None else Got(Housekeep(o, items, now), g.key, g.restricted, g.mode)
  {
    hide Housekeep, Find, Got;
    if g.mode != Ignore {
      GotIsFound(Housekeep(o, items, now), g.key, g.restricted, g.mode);
    }
  }

  predicate NoMatch(items: seq<Item>, key: bytes, restricted: int, mode: Mode) {
    forall i :: 0 <= i < |items| ==> !Matches(items[i], key, restricted, mode)
  }

  lemma {:induction false} NoneGot(items: seq<Item>, key: bytes, restricted: int, mode: Mode)
    requires NoMatch(items, key, restricted, mode)
    ensures Got(items, key, restricted, mode) == None
  {
    hide Matches;
    if items != [] {
      assert NoMatch(items[1..], key, restricted, mode);
      NoneGot(items[1..], key, restricted, mode);
    }
  }

  lemma NoMatchKept(o: Options, items: seq<Item>, key: bytes, restricted: int, mode: Mode, now: int)
    requires NoMatch(items, key, restricted, mode)
    ensures NoMatch(Housekeep(o, items, now), key, restricted, mode)
    ensures Got(Housekeep(o, items, now), key, restricted, mode) == None
  {
    hide Housekeep, Unused;
    var h := Housekeep(o, items, now);
    HousekeepItems(o, items, now);
    forall r | r in h
      ensures !Matches(r, key, restricted, mode)
    {
      var x :| x in items && r == Expire(o, x, now) && !Unused(r, now);
    }
    NoneGot(h, key, restricted, mode);
  }

  lemma OneKept(o: Options, r: Item, key: bytes, restricted: int, mode: Mode, now: int)
    ensures var h := Housekeep(o, [r], now);
            && Got(h, key, restricted, mode) == (if Live(o, r, now) && Matches(r, key, restricted, mode) then r.pw else None)
            && (Live(o, r, now) ==> h == [r])
  {
    ExpireIsLive(o, r, now);
    assert [r][1..] == [];
    assert Housekeep(o, [], now) == [];
  }

  /** An item with nothing before it that matches decides what a get answers. */
  lemma FirstDecides(o: Options, a: seq<Item>, r: Item, b: seq<Item>, g: Op, now: int)
    requires g.Get? && g.mode != Ignore && NoMatch(a, g.key, g.restricted, g.mode)
    ensures GetItems(o, a + ([r] + b), g, now).1 ==
            if Live(o, r, now) && Matches(r, g.key, g.restricted, g.mode) then r.pw
            else Got(Housekeep(o, b, now), g.key, g.restricted, g.mode)
  {
    hide Housekeep, Got, Live, Matches, GetItems, NoMatch;
    GetIsGot(o, a + ([r] + b), g, now);
    HousekeepConcat(o, a, [r] + b, now);
    HousekeepConcat(o, [r], b, now);
    NoMatchKept(o, a, g.key, g.restricted, g.mode, now);
    OneKept(o, r, g.key, g.restricted, g.mode, now);
    GotConcat(Housekeep(o, a, now), Housekeep(o, [r], now) + Housekeep(o, b, now), g.key, g.restricted, g.mode);
    GotConcat(Housekeep(o, [r], now), Housekeep(o, b, now), g.key, g.restricted, g.mode);
    if Live(o, r, now) && Matches(r, g.key, g.restricted, g.mode) { LiveHasData(o, r, now); }
  }

  lemma LiveHasData(o: Options, r: Item, now: int)
    requires Live(o, r, now)
    ensures r.pw.Some?
  {
  }

  // ----- what was put is there as long as promised

  lemma HeededIs(o: Options, p: Op)
    requires p.Put? && p.data.Some?
    ensures PutIgnored(o, p) <==> !Heeded(o, p.mode, p.ttl)
  {
  }

  lemma KeptIs(o: Options, p: Op, r: Item, now: int, later: int, accessed: int)
    requires p.Put? && p.data.Some? && Heeded(o, p.mode, p.ttl)
    requires r.mode == p.mode && r.pw == p.data && r.created == now && r.accessed == accessed && r.ttl == NewItem(o, p, now).ttl
    ensures Live(o, r, later) <==> Kept(o, p.mode, p.ttl, later - now, later - accessed)
  {
  }

  /** Where a put with data has left its item, and what deleting would have left there. */
  lemma PutPlaces(o: Options, items: seq<Item>, p: Op, now: int) returns (a: seq<Item>, r: Item, b: seq<Item>, was: Option<Item>)
    requires p.Put? && p.data.Some? && Heeded(o, p.mode, p.ttl)
    ensures PutItems(o, items, p, now) == a + ([r] + b)
    ensures r == Item(p.key, r.restricted, now, now, NewItem(o, p, now).ttl, p.data, p.mode)
    ensures Matches(r, p.key, p.restricted, p.mode) && NoMatch(a, p.key, p.restricted, p.mode)
    ensures var d := PutItems(o, items, p.(data := None), now);
            if was.Some? then was.value.pw.None? && d == a + ([was.value] + b)
            else a == [] && d == b && NoMatch(b, p.key, p.restricted, p.mode)
  {
    hide Housekeep, Find;
    HeededIs(o, p);
    var h := Housekeep(o, items, now);
    var i := Find(h, p.key, p.restricted, p.mode, false);
    if i < |h| {
      a, r, b := h[..i], NewItem(o, p, now).(restricted := h[i].restricted), h[i + 1..];
      var x := h[i].(pw := None);
      was := Some(x);
      assert PutItems(o, items, p, now) == h[i := r] == a + ([r] + b);
      assert PutItems(o, items, p.(data := None), now) == h[i := x] == a + ([x] + b);
    } else {
      a, r, b, was := [], NewItem(o, p, now), h, None;
      assert a + ([r] + b) == [r] + h;
    }
  }

  /**
   In any cache: after data was put, a get of the same mode answers it as long
   as its lifetime lasts, and from then on what it would answer if the old data
   had been deleted instead.
   */
  lemma AgeDecides(o: Options, items: seq<Item>, p: Op, now: int, later: int)
    requires p.Put? && p.data.Some? && Heeded(o, p.mode, p.ttl)
    ensures var g := Get(p.key, p.restricted, p.mode); var age := later - now;
            GetItems(o, PutItems(o, items, p, now), g, later).1 ==
            if Kept(o, p.mode, p.ttl, age, age) then p.data
            else GetItems(o, PutItems(o, items, p.(data := None), now), g, later).1
  {
    hide Housekeep, PutItems, GetItems, Live, Kept, Matches, NoMatch, Got, NewItem;
    var g := Get(p.key, p.restricted, p.mode);
    var a, r, b, x := PutPlaces(o, items, p, now);
    FirstDecides(o, a, r, b, g, later);
    KeptIs(o, p, r, now, later, now);
    var d := PutItems(o, items, p.(data := None), now);
    if x.Some? {
      NeverLive(o, x.value, later);
      FirstDecides(o, a, x.value, b, g, later);
    } else {
      NoMatchKept(o, b, g.key, g.restricted, g.mode, later);
      GetIsGot(o, b, g, later);
    }
  }

  lemma NeverLive(o: Options, r: Item, now: int)
    requires r.pw.None?
    ensures !Live(o, r, now)
  {
  }

  /** A put that is not heeded changes nothing that housekeeping would not change. */
  lemma NotHeeded(o: Options, items: seq<Item>, p: Op, now: int)
    requires p.Put? && p.data.Some? && !Heeded(o, p.mode, p.ttl)
    ensures PutItems(o, items, p, now) == Housekeep(o, items, now)
  {
    HeededIs(o, p);
  }

  // ----- in a cache with nothing else of that name

  /** At most this part of the list matches. */
  predicate OneMatch(items: seq<Item>, key: bytes, restricted: int, mode: Mode) {
    forall i, j :: 0 <= i < j < |items| ==> !(Matches(items[i], key, restricted, mode) && Matches(items[j], key, restricted, mode))
  }

  /** The only item of its name decides what a get answers, and is used by it. */
  lemma OnlyDecides(o: Options, a: seq<Item>, r: Item, b: seq<Item>, g: Op, now: int) returns (a': seq<Item>, b': seq<Item>)
    requires g.Get? && g.mode != Ignore && NoMatch(a, g.key, g.restricted, g.mode) && NoMatch(b, g.key, g.restricted, g.mode)
    requires Matches(r, g.key, g.restricted, g.mode)
    ensures GetItems(o, a + ([r] + b), g, now).1 == if Live(o, r, now) then r.pw else None
    ensures NoMatch(a', g.key, g.restricted, g.mode) && NoMatch(b', g.key, g.restricted, g.mode)
    ensures Live(o, r, now) ==> GetItems(o, a + ([r] + b), g, now).0 == a' + ([Touched(r, now)] + b')
  {
    hide Housekeep, Got, Live, Matches, Touched, Find;
    FirstDecides(o, a, r, b, g, now);
    NoMatchKept(o, b, g.key, g.restricted, g.mode, now);
    NoMatchKept(o, a, g.key, g.restricted, g.mode, now);
    a', b' := Housekeep(o, a, now), Housekeep(o, b, now);
    if Live(o, r, now) {
      HousekeepConcat(o, a, [r] + b, now);
      HousekeepConcat(o, [r], b, now);
      OneKept(o, r, g.key, g.restricted, g.mode, now);
      LiveHasData(o, r, now);
      var h := a' + ([r] + b');
      assert h[|a'|] == r && forall j :: 0 <= j < |a'| ==> h[j] == a'[j];
      FindFrom(h, g.key, g.restricted, g.mode, true, |a'|);
      assert h[|a'| := Touched(r, now)] == a' + ([Touched(r, now)] + b');
    }
  }

  /** With nothing else of that name in the cache, a get answers the data exactly as long as its lifetime lasts. */
  lemma AnsweredIff(o: Options, items: seq<Item>, p: Op, now: int, later: int)
    requires p.Put? && p.data.Some? && Heeded(o, p.mode, p.ttl) && OneMatch(items, p.key, p.restricted, p.mode)
    ensures var age := later - now;
            GetItems(o, PutItems(o, items, p, now), Get(p.key, p.restricted, p.mode), later).1 ==
            if Kept(o, p.mode, p.ttl, age, age) then p.data else None
  {
    hide Housekeep, PutItems, GetItems, Live, Kept, Matches, NoMatch, Got, NewItem, Heeded;
    var g := Get(p.key, p.restricted, p.mode);
    var a, r, b, was := PutPlaces(o, items, p, now);
    OthersMatchNot(o, items, p, now, a, r, b);
    KeptIs(o, p, r, now, later, now);
    assert g.mode != Ignore by { HeededMode(o, p); }
    var _, _ := OnlyDecides(o, a, r, b, g, later);
  }

  lemma HeededMode(o: Options, p: Op)
    requires p.Put? && Heeded(o, p.mode, p.ttl)
    ensures p.mode != Ignore
  {
  }

  /**
   Every get renews the lifetime of what it answers, but for data of mode DATA;
   the maximum counts from the put however often the data was got.
   */
  lemma GetRenews(o: Options, items: seq<Item>, p: Op, now: int, later: int, last: int)
    requires p.Put? && p.data.Some? && Heeded(o, p.mode, p.ttl) && OneMatch(items, p.key, p.restricted, p.mode)
    requires Kept(o, p.mode, p.ttl, later - now, later - now)
    ensures var g := Get(p.key, p.restricted, p.mode);
            var used := GetItems(o, PutItems(o, items, p, now), g, later);
            && used.1 == p.data
            && GetItems(o, used.0, g, last).1 ==
               if Kept(o, p.mode, p.ttl, last - now, if p.mode == Data then last - now else last - later) then p.data else None
  {
    hide Housekeep, PutItems, GetItems, Live, Kept, Matches, NoMatch, Got, NewItem, Heeded;
    var g := Get(p.key, p.restricted, p.mode);
    var a, r, b, was := PutPlaces(o, items, p, now);
    OthersMatchNot(o, items, p, now, a, r, b);
    KeptIs(o, p, r, now, later, now);
    assert g.mode != Ignore by { HeededMode(o, p); }
    var a', b' := OnlyDecides(o, a, r, b, g, later);
    var r' := Touched(r, later);
    TouchedMatches(r, later, g.key, g.restricted, g.mode);
    KeptIs(o, p, r', now, last, r'.accessed);
    var _, _ := OnlyDecides(o, a', r', b', g, last);
  }

  lemma TouchedMatches(r: Item, now: int, key: bytes, restricted: int, mode: Mode)
    ensures Matches(Touched(r, now), key, restricted, mode) == Matches(r, key, restricted, mode)
  {
  }

  lemma OthersMatchNot(o: Options, items: seq<Item>, p: Op, now: int, a: seq<Item>, r: Item, b: seq<Item>)
    requires p.Put? && p.data.Some? && Heeded(o, p.mode, p.ttl) && OneMatch(items, p.key, p.restricted, p.mode)
    requires PutItems(o, items, p, now) == a + ([r] + b) && NoMatch(a, p.key, p.restricted, p.mode)
    requires Matches(r, p.key, p.restricted, p.mode)
    ensures NoMatch(b, p.key, p.restricted, p.mode)
  {
    hide Housekeep, Matches, NewItem, Find;
    HeededIs(o, p);
    var h := Housekeep(o, items, now);
    OneMatchKept(o, items, p.key, p.restricted, p.mode, now);
    var i := Find(h, p.key, p.restricted, p.mode, false);
    OnlyAt(PutItems(o, items, p, now), if i < |h| then i else 0, a, r, b, p);
  }

  lemma OnlyAt(x: seq<Item>, i: nat, a: seq<Item>, r: Item, b: seq<Item>, p: Op)
    requires p.Put? && x == a + ([r] + b) && Matches(r, p.key, p.restricted, p.mode)
    requires forall j :: 0 <= j < |x| && j != i ==> !Matches(x[j], p.key, p.restricted, p.mode)
    ensures NoMatch(b, p.key, p.restricted, p.mode)
  {
    hide Matches;
    assert x[|a|] == r && forall j :: 0 <= j < |b| ==> x[|a| + 1 + j] == b[j];
  }

  lemma OneMatchKept(o: Options, items: seq<Item>, key: bytes, restricted: int, mode: Mode, now: int)
    requires OneMatch(items, key, restricted, mode)
    ensures OneMatch(Housekeep(o, items, now), key, restricted, mode)
  {
    hide Housekeep, Unused;
    var h := Housekeep(o, items, now);
    var from := HousekeepOrder(o, items, now);
    forall i, j | 0 <= i < j < |h|
      ensures !(Matches(h[i], key, restricted, mode) && Matches(h[j], key, restricted, mode))
    {
      ExpiredMatches(o, items[from[i]], now, key, restricted, mode);
      ExpiredMatches(o, items[from[j]], now, key, restricted, mode);
    }
  }

  lemma ExpiredMatches(o: Options, r: Item, now: int, key: bytes, restricted: int, mode: Mode)
    ensures Matches(Expire(o, r, now), key, restricted, mode) == Matches(r, key, restricted, mode)
  {
  }

  // ----- under which names data is found

  /** In a cache that is empty at first, data is found by its key, by the restriction but for PINs, and by other modes than USER and NONCE. */
  lemma FoundBy(o: Options, p: Op, g: Op, now: int)
    requires p.Put? && p.data.Some? && Heeded(o, p.mode, p.ttl) && g.Get?
    ensures GetItems(o, PutItems(o, [], p, now), g, now).1 ==
            if g.mode != Ignore && g.key == p.key
               && (g.mode == Pin || (g.restricted == p.restricted
                   && (g.mode == User || g.mode == Nonce ==> p.mode == g.mode || p.mode == Any)))
            then p.data else None
  {
    hide Housekeep, Find;
    HeededIs(o, p);
    assert Housekeep(o, [], now) == [] && Find([], p.key, p.restricted, p.mode, false) == 0 by { NothingThere(o, p, now); }
    var r := NewItem(o, p, now);
    assert PutItems(o, [], p, now) == [r] == [] + ([r] + []);
    if g.mode != Ignore {
      FirstDecides(o, [], r, [], g, now);
    }
  }

  lemma NothingThere(o: Options, p: Op, now: int)
    requires p.Put?
    ensures Housekeep(o, [], now) == [] && Find([], p.key, p.restricted, p.mode, false) == 0
  {
  }

  // ----- flushing, and slots without data

  /** After a flush nothing is found; a flush of the PINs leaves no PIN, and everything else as it was. */
  lemma FlushForgets(o: Options, items: seq<Item>, g: Op, now: int)
    requires g.Get?
    ensures GetItems(o, FlushItems(items, false), g, now).1 == None
    ensures (forall i :: 0 <= i < |items| ==> items[i].mode == Pin) ==> GetItems(o, FlushItems(items, true), g, now).1 == None
    ensures |FlushItems(items, true)| == |items|
    ensures forall i :: 0 <= i < |items| && items[i].mode != Pin ==> FlushItems(items, true)[i] == items[i]
  {
    FlushedItems(items, true);
    FlushedItems(items, false);
    NoDataNoAnswer(o, FlushItems(items, false), g, now);
    if forall i :: 0 <= i < |items| ==> items[i].mode == Pin {
      NoDataNoAnswer(o, FlushItems(items, true), g, now);
    }
  }

  lemma NoDataNoAnswer(o: Options, items: seq<Item>, g: Op, now: int)
    requires g.Get? && forall i :: 0 <= i < |items| ==> items[i].pw.None?
    ensures GetItems(o, items, g, now).1 == None
  {
    hide Housekeep, Find;
    HousekeepItems(o, items, now);
  }

  /** A slot whose data has expired stays for half an hour, and for ever if its lifetime is infinite. */
  lemma SlotRemains(o: Options, r: Item, now: int, later: int)
    requires r.pw.Some? && !Live(o, r, now)
    ensures var h := Housekeep(o, [r], now);
            && |h| == 1 && h[0] == r.(pw := None, accessed := now)
            && Housekeep(o, h, later) == if r.ttl < 0 || later - now <= 1800 then h else []
  {
    ExpireIsLive(o, r, now);
    assert [r][1..] == [] && Housekeep(o, [], now) == [];
    var x := r.(pw := None, accessed := now);
    assert Housekeep(o, [r], now) == [x];
    assert [x][1..] == [] && Housekeep(o, [], later) == [];
  }
}
