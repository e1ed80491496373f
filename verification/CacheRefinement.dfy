/**
 The passphrase cache as a map: if every key is used in one family of modes
 only, the list with its housekeeping answers like a map from key and
 restriction to the last data put, looked at lazily.
 */
module CacheRefinement {
  import opened Octets
  import opened PassphraseCache

  /** The families of modes that a key may be used with. */
  datatype Family = General | UserOnly | NonceOnly | PinOnly

  type Families = bytes -> Family

  predicate Allowed(f: Family, mode: Mode) {
    match mode
    case Ignore => true
    case Any => f != PinOnly
    case User => f == UserOnly
    case Nonce => f == NonceOnly
    case Pin => f == PinOnly
    case _ => f == General
  }

  predicate Disciplined(fs: Families, t: Timed) {
    match t.op
    case Put(key, _, mode, _, _) => Allowed(fs(key), mode)
    case Get(key, _, mode) => Allowed(fs(key), mode)
    case _ => true
  }

  // ----- the map

  /** PINs are shared by all connections. */
  datatype Slot = Slot(key: bytes, restricted: int)

  function SlotOf(fs: Families, key: bytes, restricted: int): Slot {
    Slot(key, if fs(key) == PinOnly then 0 else restricted)
  }

  datatype Entry = Entry(data: bytes, created: int, accessed: int, ttl: int, mode: Mode)

  type Timetable = map<Slot, Entry>

  /** An entry that has outlived its lifetime is as good as gone. */
  predicate Fresh(o: Options, e: Entry, now: int) {
    || e.mode == Pin
    || ((e.ttl < 0 || now <= e.accessed + e.ttl) && (e.mode == Data || now <= e.created + MaxTtl(o, e.mode)))
  }

  function MapApply(o: Options, fs: Families, m: Timetable, t: Timed): (Timetable, Option<bytes>) {
    match t.op
    case Put(key, restricted, mode, data, ttl) =>
      var slot := SlotOf(fs, key, restricted);
      if PutIgnored(o, t.op) then (m, None)
      else if data.None? then (m - {slot}, None)
      else (m[slot := Entry(data.value, t.now, t.now, EffectiveTtl(o, mode, ttl), mode)], None)
    case Get(key, restricted, mode) =>
      var slot := SlotOf(fs, key, restricted);
      if mode == Ignore || slot !in m || !Fresh(o, m[slot], t.now) then (m, None)
      else (if m[slot].mode == Data then m else m[slot := m[slot].(accessed := t.now)], Some(m[slot].data))
    case Flush(pinOnly) => (map k | k in m && pinOnly && m[k].mode != Pin :: m[k], None)
    case Tidy => (m, None)
  }

  function MapAfter(o: Options, fs: Families, ops: seq<Timed>): Timetable {
    if ops == [] then map[] else MapApply(o, fs, MapAfter(o, fs, ops[..|ops| - 1]), ops[|ops| - 1]).0
  }

  function MapAnswer(o: Options, fs: Families, ops: seq<Timed>): Option<bytes>
    requires ops != []
  {
    MapApply(o, fs, MapAfter(o, fs, ops[..|ops| - 1]), ops[|ops| - 1]).1
  }

  // ----- the relation between the list and the map

  function ItemSlot(fs: Families, r: Item): Slot {
    SlotOf(fs, r.key, r.restricted)
  }

  function EntryOf(r: Item): Entry
    requires r.pw.Some?
  {
    Entry(r.pw.value, r.created, r.accessed, r.ttl, r.mode)
  }

  /** At most one item for every key and restriction, with a mode that the key is used with. */
  ghost predicate OnePerSlot(fs: Families, items: seq<Item>) {
    && (forall i, j :: 0 <= i < j < |items| ==> ItemSlot(fs, items[i]) != ItemSlot(fs, items[j]))
    && (forall i :: 0 <= i < |items| ==> items[i].mode != Ignore && Allowed(fs(items[i].key), items[i].mode))
  }

  /** Items with data are entries of the map, and every fresh entry is an item. */
  ghost predicate Agree(o: Options, fs: Families, items: seq<Item>, m: Timetable, now: int) {
    && (forall r :: r in items && r.pw.Some? ==> ItemSlot(fs, r) in m && m[ItemSlot(fs, r)] == EntryOf(r))
    && (forall k :: k in m && Fresh(o, m[k], now) ==> exists r :: r in items && r.pw.Some? && ItemSlot(fs, r) == k)
  }

  ghost predicate Refines(o: Options, fs: Families, items: seq<Item>, m: Timetable, now: int) {
    OnePerSlot(fs, items) && Agree(o, fs, items, m, now)
  }

  /** Within one family of modes, an operation finds exactly the items of its slot. */
  lemma MatchIsSlot(fs: Families, r: Item, key: bytes, restricted: int, mode: Mode)
    requires r.mode != Ignore && Allowed(fs(r.key), r.mode)
    requires mode != Ignore && Allowed(fs(key), mode)
    ensures Matches(r, key, restricted, mode) <==> ItemSlot(fs, r) == SlotOf(fs, key, restricted)
  {
  }

  lemma FreshIsLive(o: Options, r: Item, now: int)
    requires r.pw.Some?
    ensures Live(o, r, now) <==> Fresh(o, EntryOf(r), now)
  {
  }

  lemma FreshEarlier(o: Options, e: Entry, t: int, now: int)
    requires t <= now && Fresh(o, e, now)
    ensures Fresh(o, e, t)
  {
  }

  lemma ExpireSlot(o: Options, fs: Families, r: Item, now: int)
    ensures ItemSlot(fs, Expire(o, r, now)) == ItemSlot(fs, r) && Expire(o, r, now).mode == r.mode
    ensures Expire(o, r, now).key == r.key
  {
  }

  lemma HousekeepUnique(o: Options, fs: Families, items: seq<Item>, now: int)
    requires OnePerSlot(fs, items)
    ensures OnePerSlot(fs, Housekeep(o, items, now))
  {
    hide Housekeep, Expire;
    var h := Housekeep(o, items, now);
    var from := HousekeepOrder(o, items, now);
    forall i | 0 <= i < |h|
      ensures ItemSlot(fs, h[i]) == ItemSlot(fs, items[from[i]]) && h[i].mode == items[from[i]].mode
              && h[i].key == items[from[i]].key
    {
      ExpireSlot(o, fs, items[from[i]], now);
    }
  }

  lemma HousekeepAgrees(o: Options, fs: Families, items: seq<Item>, m: Timetable, t: int, now: int)
    requires Agree(o, fs, items, m, t) && t <= now
    ensures Agree(o, fs, Housekeep(o, items, now), m, now)
  {
    hide Housekeep, Expire, Live, Fresh;
    var h := Housekeep(o, items, now);
    HousekeepItems(o, items, now);
    forall k | k in m && Fresh(o, m[k], now)
      ensures exists r :: r in h && r.pw.Some? && ItemSlot(fs, r) == k
    {
      FreshEarlier(o, m[k], t, now);
      var r :| r in items && r.pw.Some? && ItemSlot(fs, r) == k;
      FreshIsLive(o, r, now);
      ExpireIsLive(o, r, now);
      assert Expire(o, r, now) == r && !Unused(r, now);
    }
  }

  // ----- get

  /** The search for data finds the item of the slot if and only if the map has a fresh entry. */
  lemma FoundIsFresh(o: Options, fs: Families, h: seq<Item>, m: Timetable, now: int, key: bytes, restricted: int, mode: Mode)
    requires Refines(o, fs, h, m, now) && mode != Ignore && Allowed(fs(key), mode)
    requires forall r :: r in h && r.pw.Some? ==> Live(o, r, now)
    ensures var slot := SlotOf(fs, key, restricted); var i := Find(h, key, restricted, mode, true);
            if i < |h| then slot in m && m[slot] == EntryOf(h[i]) && Fresh(o, m[slot], now) && ItemSlot(fs, h[i]) == slot
            else slot in m ==> !Fresh(o, m[slot], now)
  {
    hide Fresh, Live, Matches, Find;
    var slot := SlotOf(fs, key, restricted);
    var i := Find(h, key, restricted, mode, true);
    if i < |h| {
      MatchIsSlot(fs, h[i], key, restricted, mode);
      FreshIsLive(o, h[i], now);
    } else if slot in m && Fresh(o, m[slot], now) {
      var r :| r in h && r.pw.Some? && ItemSlot(fs, r) == slot;
      var j :| 0 <= j < |h| && h[j] == r;
      MatchIsSlot(fs, h[j], key, restricted, mode);
      assert false;
    }
  }

  lemma TouchRefines(o: Options, fs: Families, h: seq<Item>, m: Timetable, now: int, i: nat)
    requires Refines(o, fs, h, m, now) && i < |h| && h[i].pw.Some?
    ensures var k := ItemSlot(fs, h[i]);
            k in m && Refines(o, fs, h[i := Touched(h[i], now)],
                              if h[i].mode == Data then m else m[k := m[k].(accessed := now)], now)
  {
    var k := ItemSlot(fs, h[i]);
    var h' := h[i := Touched(h[i], now)];
    var m' := if h[i].mode == Data then m else m[k := m[k].(accessed := now)];
    assert h[i] in h;
    forall r | r in h' && r.pw.Some?
      ensures ItemSlot(fs, r) in m' && m'[ItemSlot(fs, r)] == EntryOf(r)
    {
      if r != h'[i] {
        var j :| 0 <= j < |h'| && h'[j] == r;
        assert h[j] in h;
      }
    }
    forall x | x in m' && Fresh(o, m'[x], now)
      ensures exists r :: r in h' && r.pw.Some? && ItemSlot(fs, r) == x
    {
      if x == k {
        assert h'[i] in h';
      } else {
        var r :| r in h && r.pw.Some? && ItemSlot(fs, r) == x;
        var j :| 0 <= j < |h| && h[j] == r;
        assert h'[j] in h';
      }
    }
  }

  lemma GetRefines(o: Options, fs: Families, items: seq<Item>, m: Timetable, t: int, g: Op, now: int)
    requires g.Get? && Refines(o, fs, items, m, t) && t <= now && Allowed(fs(g.key), g.mode)
    ensures var (m', v) := MapApply(o, fs, m, Timed(g, now));
            GetItems(o, items, g, now).1 == v && (g.mode != Ignore ==> Refines(o, fs, GetItems(o, items, g, now).0, m', now))
  {
    hide Housekeep, Find, Refines, Fresh, Live, Touched;
    if g.mode != Ignore {
      var h := Housekeep(o, items, now);
      HousekeepRefines(o, fs, items, m, t, now);
      var i := Find(h, g.key, g.restricted, g.mode, true);
      FoundIsFresh(o, fs, h, m, now, g.key, g.restricted, g.mode);
      if i < |h| {
        TouchRefines(o, fs, h, m, now, i);
      }
    }
  }

  lemma HousekeepRefines(o: Options, fs: Families, items: seq<Item>, m: Timetable, t: int, now: int)
    requires Refines(o, fs, items, m, t) && t <= now
    ensures Refines(o, fs, Housekeep(o, items, now), m, now)
    ensures forall r :: r in Housekeep(o, items, now) && r.pw.Some? ==> Live(o, r, now)
  {
    hide Housekeep, Agree, OnePerSlot, Live;
    HousekeepUnique(o, fs, items, now);
    HousekeepAgrees(o, fs, items, m, t, now);
    HousekeepItems(o, items, now);
  }

  lemma LaterRefines(o: Options, fs: Families, items: seq<Item>, m: Timetable, t: int, now: int)
    requires Refines(o, fs, items, m, t) && t <= now
    ensures Refines(o, fs, items, m, now)
  {
    hide Fresh, OnePerSlot;
    forall k | k in m && Fresh(o, m[k], now)
      ensures exists r :: r in items && r.pw.Some? && ItemSlot(fs, r) == k
    {
      FreshEarlier(o, m[k], t, now);
    }
  }

  // ----- put

  /** The item of a slot is replaced. */
  lemma ReplaceRefines(o: Options, fs: Families, h: seq<Item>, m: Timetable, now: int, i: nat, r': Item)
    requires Refines(o, fs, h, m, now) && i < |h|
    requires r'.key == h[i].key && r'.restricted == h[i].restricted && r'.mode != Ignore && Allowed(fs(r'.key), r'.mode)
    ensures var k := ItemSlot(fs, h[i]);
            Refines(o, fs, h[i := r'], if r'.pw.Some? then m[k := EntryOf(r')] else m - {k}, now)
  {
    hide Fresh;
    var k := ItemSlot(fs, h[i]);
    var h' := h[i := r'];
    var m' := if r'.pw.Some? then m[k := EntryOf(r')] else m - {k};
    forall r | r in h' && r.pw.Some?
      ensures ItemSlot(fs, r) in m' && m'[ItemSlot(fs, r)] == EntryOf(r)
    {
      var j :| 0 <= j < |h'| && h'[j] == r;
      if j != i {
        assert h[j] in h;
      }
    }
    forall x | x in m' && Fresh(o, m'[x], now)
      ensures exists r :: r in h' && r.pw.Some? && ItemSlot(fs, r) == x
    {
      if x == k {
        assert h'[i] in h';
      } else {
        var r :| r in h && r.pw.Some? && ItemSlot(fs, r) == x;
        var j :| 0 <= j < |h| && h[j] == r;
        assert h'[j] in h';
      }
    }
  }

  /** An item of a slot that has none is put in front. */
  lemma InsertRefines(o: Options, fs: Families, h: seq<Item>, m: Timetable, now: int, r': Item)
    requires Refines(o, fs, h, m, now) && r'.pw.Some? && r'.mode != Ignore && Allowed(fs(r'.key), r'.mode)
    requires forall j :: 0 <= j < |h| ==> ItemSlot(fs, h[j]) != ItemSlot(fs, r')
    ensures Refines(o, fs, [r'] + h, m[ItemSlot(fs, r') := EntryOf(r')], now)
  {
    hide Fresh;
    var k := ItemSlot(fs, r');
    var h' := [r'] + h;
    var m' := m[k := EntryOf(r')];
    forall r | r in h' && r.pw.Some?
      ensures ItemSlot(fs, r) in m' && m'[ItemSlot(fs, r)] == EntryOf(r)
    {
      if r != r' {
        var j :| 0 <= j < |h| && h[j] == r;
      }
    }
    forall x | x in m' && Fresh(o, m'[x], now)
      ensures exists r :: r in h' && r.pw.Some? && ItemSlot(fs, r) == x
    {
      if x == k {
        assert h'[0] in h';
      } else {
        var r :| r in h && r.pw.Some? && ItemSlot(fs, r) == x;
        assert r in h';
      }
    }
  }

  /** Deleting from a slot that has no item. */
  lemma AbsentRefines(o: Options, fs: Families, h: seq<Item>, m: Timetable, now: int, k: Slot)
    requires Refines(o, fs, h, m, now)
    requires forall j :: 0 <= j < |h| ==> ItemSlot(fs, h[j]) != k
    ensures Refines(o, fs, h, m - {k}, now)
  {
    hide Fresh;
  }

  lemma FindSlot(o: Options, fs: Families, h: seq<Item>, p: Op, i: nat)
    requires OnePerSlot(fs, h) && p.Put? && p.mode != Ignore && Allowed(fs(p.key), p.mode)
    requires i == Find(h, p.key, p.restricted, p.mode, false)
    ensures var k := SlotOf(fs, p.key, p.restricted);
            if i < |h| then ItemSlot(fs, h[i]) == k && h[i].key == p.key && h[i].mode != Ignore && Allowed(fs(h[i].key), h[i].mode)
            else forall j :: 0 <= j < |h| ==> ItemSlot(fs, h[j]) != k
  {
    hide Find, Matches;
    forall j | 0 <= j < |h|
      ensures Matches(h[j], p.key, p.restricted, p.mode) <==> ItemSlot(fs, h[j]) == SlotOf(fs, p.key, p.restricted)
    {
      MatchIsSlot(fs, h[j], p.key, p.restricted, p.mode);
    }
  }

  lemma PutRefines(o: Options, fs: Families, items: seq<Item>, m: Timetable, t: int, p: Op, now: int)
    requires p.Put? && Refines(o, fs, items, m, t) && t <= now && Allowed(fs(p.key), p.mode)
    ensures Refines(o, fs, PutItems(o, items, p, now), MapApply(o, fs, m, Timed(p, now)).0, now)
  {
    hide Housekeep, Find, Agree, OnePerSlot, Fresh;
    var h := Housekeep(o, items, now);
    HousekeepRefines(o, fs, items, m, t, now);
    if !PutIgnored(o, p) {
      var i := Find(h, p.key, p.restricted, p.mode, false);
      FindSlot(o, fs, h, p, i);
      if i < |h| {
        var r' := if p.data.None? then h[i].(pw := None)
                  else NewItem(o, p, now).(key := h[i].key, restricted := h[i].restricted);
        ReplaceRefines(o, fs, h, m, now, i, r');
      } else if p.data.Some? {
        InsertRefines(o, fs, h, m, now, NewItem(o, p, now));
      } else {
        AbsentRefines(o, fs, h, m, now, SlotOf(fs, p.key, p.restricted));
      }
    }
  }

  // ----- flush

  lemma FlushRefines(o: Options, fs: Families, items: seq<Item>, m: Timetable, now: int, pinOnly: bool)
    requires Refines(o, fs, items, m, now)
    ensures Refines(o, fs, FlushItems(items, pinOnly), MapApply(o, fs, m, Timed(Flush(pinOnly), now)).0, now)
  {
    hide Fresh, FlushItems;
    var h := FlushItems(items, pinOnly);
    var m' := MapApply(o, fs, m, Timed(Flush(pinOnly), now)).0;
    FlushedItems(items, pinOnly);
    forall r | r in h && r.pw.Some?
      ensures ItemSlot(fs, r) in m' && m'[ItemSlot(fs, r)] == EntryOf(r)
    {
      var j :| 0 <= j < |h| && h[j] == r;
      assert items[j] in items && r == items[j];
    }
    forall x | x in m' && Fresh(o, m'[x], now)
      ensures exists r :: r in h && r.pw.Some? && ItemSlot(fs, r) == x
    {
      var r :| r in items && r.pw.Some? && ItemSlot(fs, r) == x;
      var j :| 0 <= j < |items| && items[j] == r;
      assert h[j] in h;
    }
  }

  // ----- every run

  lemma StepRefines(o: Options, fs: Families, items: seq<Item>, m: Timetable, t: int, step: Timed)
    requires Refines(o, fs, items, m, t) && t <= step.now && Disciplined(fs, step)
    ensures Refines(o, fs, Apply(o, items, step).0, MapApply(o, fs, m, step).0, step.now)
    ensures Apply(o, items, step).1 == MapApply(o, fs, m, step).1
  {
    hide Refines, PutItems, GetItems, Housekeep, FlushItems, Fresh;
    LaterRefines(o, fs, items, m, t, step.now);
    assert step == Timed(step.op, step.now);
    match step.op
    case Put(_, _, _, _, _) => PutRefines(o, fs, items, m, t, step.op, step.now);
    case Get(_, _, _) => GetRefines(o, fs, items, m, t, step.op, step.now); IgnoredGet(o, items, step.op, step.now);
    case Flush(pinOnly) => FlushRefines(o, fs, items, m, step.now, pinOnly);
    case Tidy => HousekeepRefines(o, fs, items, m, t, step.now);
  }

  lemma IgnoredGet(o: Options, items: seq<Item>, g: Op, now: int)
    requires g.Get?
    ensures g.mode == Ignore ==> GetItems(o, items, g, now) == (items, None)
  {
  }

  lemma {:induction false} RunRefines(o: Options, fs: Families, ops: seq<Timed>)
    requires Ordered(ops) && forall i :: 0 <= i < |ops| ==> Disciplined(fs, ops[i])
    ensures Refines(o, fs, After(o, ops), MapAfter(o, fs, ops), if ops == [] then 0 else ops[|ops| - 1].now)
    decreases |ops|
  {
    hide Refines, Apply, MapApply, Disciplined;
    if ops == [] {
      EmptyRefines(o, fs, 0);
    } else {
      var init, last := ops[..|ops| - 1], ops[|ops| - 1];
      RunRefines(o, fs, init);
      if init == [] {
        EmptyRefines(o, fs, last.now);
      }
      StepRefines(o, fs, After(o, init), MapAfter(o, fs, init), if init == [] then last.now else init[|init| - 1].now, last);
    }
  }

  lemma EmptyRefines(o: Options, fs: Families, now: int)
    ensures Refines(o, fs, [], map[], now)
  {
  }

  /**
   Over every run of puts, deletes, gets, flushes and housekeeping in which the
   clock does not go back and every key is used in one family of modes, the
   list has at most one item for every key and restriction, and every get
   answers what the map answers.
   */
  lemma CacheIsMap(o: Options, fs: Families, ops: seq<Timed>)
    requires ops != [] && Ordered(ops) && forall i :: 0 <= i < |ops| ==> Disciplined(fs, ops[i])
    ensures OnePerSlot(fs, After(o, ops))
    ensures Answer(o, ops) == MapAnswer(o, fs, ops)
  {
    hide Agree, OnePerSlot, Apply, MapApply, Disciplined;
    RunRefines(o, fs, ops);
    var init, last := ops[..|ops| - 1], ops[|ops| - 1];
    RunRefines(o, fs, init);
    if init == [] {
      EmptyRefines(o, fs, last.now);
    }
    StepRefines(o, fs, After(o, init), MapAfter(o, fs, init), if init == [] then last.now else init[|init| - 1].now, last);
  }
}
