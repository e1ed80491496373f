/**
 When the passphrase cache is a map: exactly if the modes that every key is used
 with are in one family.
 */
module CacheDiscipline {
  import opened Octets
  import opened PassphraseCache
  import opened CacheRefinement

  /** The modes that every key may be used with. */
  type Uses = bytes -> set<Mode>

  predicate Follows(uses: Uses, t: Timed) {
    match t.op
    case Put(key, _, mode, _, _) => mode in uses(key)
    case Get(key, _, mode) => mode in uses(key)
    case _ => true
  }

  /** The list answers like the map over every run in which keys are used as stated. */
  ghost predicate AnswersLikeMap(o: Options, fs: Families, uses: Uses) {
    forall ops :: ops != [] && Ordered(ops) && (forall i :: 0 <= i < |ops| ==> Follows(uses, ops[i])) ==>
      Answer(o, ops) == MapAnswer(o, fs, ops)
  }

  /** Modes of one family. */
  ghost predicate OneFamily(modes: set<Mode>) {
    exists f :: InFamily(f, modes)
  }

  predicate InFamily(f: Family, modes: set<Mode>) {
    forall mode :: mode in modes ==> Allowed(f, mode)
  }

  // ----- modes that do not go together

  predicate ByMode(mode: Mode) {
    mode == User || mode == Nonce
  }

  /** Two modes that no family has. */
  predicate Conflict(a: Mode, b: Mode) {
    && a != Ignore && b != Ignore && a != b
    && (a == Pin || b == Pin || (a != Any && b != Any && (ByMode(a) || ByMode(b))))
  }

  lemma ConflictIsForeign(a: Mode, b: Mode)
    ensures Conflict(a, b) <==> forall f :: !(Allowed(f, a) && Allowed(f, b))
  {
    assert Allowed(General, Normal) && Allowed(UserOnly, User) && Allowed(NonceOnly, Nonce) && Allowed(PinOnly, Pin);
    if !Conflict(a, b) {
      var f := if a == Pin || b == Pin then PinOnly else if a == User || b == User then UserOnly
               else if a == Nonce || b == Nonce then NonceOnly else General;
      assert Allowed(f, a) && Allowed(f, b);
    }
  }

  /** Modes that are not in one family contain two that do not go together. */
  lemma FindConflict(modes: set<Mode>) returns (a: Mode, b: Mode)
    requires !OneFamily(modes)
    ensures a in modes && b in modes && Conflict(a, b)
  {
    var f := Choose(modes);
    assert !InFamily(f, modes);
    b :| b in modes && !Allowed(f, b);
    a := if f == PinOnly then Pin else if f == UserOnly then User else if f == NonceOnly then Nonce else b;
  }

  /** One put and one get at the same time. */
  lemma PutGet(o: Options, fs: Families, p: Op, g: Op)
    requires p.Put? && p.data.Some? && p.ttl != 0 && p.mode != Ignore && g.Get? && g.mode != Ignore
    ensures var ops := [Timed(p, 0), Timed(g, 0)];
            && Answer(o, ops) == (if Matches(NewItem(o, p, 0), g.key, g.restricted, g.mode) then p.data else None)
            && MapAnswer(o, fs, ops) ==
               (if SlotOf(fs, p.key, p.restricted) == SlotOf(fs, g.key, g.restricted) then p.data else None)
  {
    var t, u := Timed(p, 0), Timed(g, 0);
    var ops := [t, u];
    var x := NewItem(o, p, 0);
    assert ops[..1] == [] + [t];
    OneMore(o, [], t);
    assert After(o, []) == [] && Housekeep(o, [], 0) == [];
    assert Apply(o, [], t).0 == [x];
    NewSettled(o, x, 0);
    SettledList(o, [x], 0);
    FindFrom([x], g.key, g.restricted, g.mode, true, if Matches(x, g.key, g.restricted, g.mode) then 0 else 1);
    assert ([t])[..0] == [];
    assert MapAfter(o, fs, []) == map[];
    assert MapAfter(o, fs, [t]) == MapApply(o, fs, map[], t).0;
  }

  /** Two modes that do not go together, used with one key, make a run in which no map answers like the list. */
  lemma ConflictDiffers(o: Options, fs: Families, key: bytes, a: Mode, b: Mode) returns (ops: seq<Timed>)
    requires Conflict(a, b)
    ensures |ops| == 2 && Ordered(ops) && ops[0].op.Put? && ops[1].op.Get?
    ensures ops[0].op.key == ops[1].op.key == key && {ops[0].op.mode, ops[1].op.mode} == {a, b}
    ensures Answer(o, ops) != MapAnswer(o, fs, ops)
  {
    hide Answer, MapAnswer;
    var x, y, from, to;
    if a == Pin || b == Pin {
      var other := if a == Pin then b else a;
      if fs(key) == PinOnly {
        x, y, from, to := Pin, other, 0, 1;
      } else {
        x, y, from, to := other, Pin, 1, 0;
      }
    } else {
      x, y, from, to := if ByMode(b) then a else b, if ByMode(b) then b else a, 0, 0;
    }
    var p, g := Op.Put(key, from, x, Some([]), -1), Get(key, to, y);
    PutGet(o, fs, p, g);
    ops := [Timed(p, 0), Timed(g, 0)];
  }

  /** Leaving the family of a key by one mode, beside the family's own, is enough for a run that differs. */
  lemma ForeignModeDiffers(o: Options, fs: Families, key: bytes, mode: Mode) returns (ops: seq<Timed>)
    requires !Allowed(fs(key), mode)
    ensures |ops| == 2 && Ordered(ops)
    ensures forall t :: t in ops ==> (t.op.Put? || t.op.Get?) && t.op.key == key && (t.op.mode == mode || Disciplined(fs, t))
    ensures Answer(o, ops) != MapAnswer(o, fs, ops)
  {
    hide Answer, MapAnswer;
    var own := match fs(key) case General => Normal case UserOnly => User case NonceOnly => Nonce case PinOnly => Pin;
    ops := ConflictDiffers(o, fs, key, own, mode);
    assert forall t :: t in ops ==> t == ops[0] || t == ops[1];
    forall t | t in ops
      ensures t.op.mode == mode || t.op.mode == own
    {
      assert t.op.mode in {ops[0].op.mode, ops[1].op.mode};
    }
  }

  /**
   The cache is a map, for some choice of which keys ignore the restriction, if
   and only if the modes of every key are in one family.
   */
  lemma MapIffOneFamily(o: Options, uses: Uses)
    ensures (exists fs :: AnswersLikeMap(o, fs, uses)) <==> forall key :: OneFamily(uses(key))
  {
    hide Answer, MapAnswer, Allowed, Conflict;
    if forall key :: OneFamily(uses(key)) {
      var fs: Families := key => Choose(uses(key));
      FamilySuffices(o, fs, uses);
      assert AnswersLikeMap(o, fs, uses);
    }
    if fs: Families :| AnswersLikeMap(o, fs, uses) {
      forall key
        ensures OneFamily(uses(key))
      {
        if !OneFamily(uses(key)) {
          NoMap(o, fs, uses, key);
        }
      }
    }
  }

  lemma NoMap(o: Options, fs: Families, uses: Uses, key: bytes)
    requires !OneFamily(uses(key))
    ensures !AnswersLikeMap(o, fs, uses)
  {
    hide Answer, MapAnswer, Allowed, Conflict;
    var a, b := FindConflict(uses(key));
    var ops := ConflictDiffers(o, fs, key, a, b);
    var x, y := ops[0].op.mode, ops[1].op.mode;
    assert x in {x, y} && y in {x, y};
    assert Follows(uses, ops[0]) && Follows(uses, ops[1]);
  }

  function Choose(modes: set<Mode>): Family {
    if Pin in modes then PinOnly else if User in modes then UserOnly else if Nonce in modes then NonceOnly else General
  }

  lemma ChosenFamily(modes: set<Mode>)
    requires OneFamily(modes)
    ensures InFamily(Choose(modes), modes)
  {
    var f :| InFamily(f, modes);
  }

  lemma FamilySuffices(o: Options, fs: Families, uses: Uses)
    requires forall key :: OneFamily(uses(key)) && fs(key) == Choose(uses(key))
    ensures AnswersLikeMap(o, fs, uses)
  {
    hide Answer, MapAnswer, Allowed, OnePerSlot, OneFamily;
    forall ops: seq<Timed> | ops != [] && Ordered(ops) && (forall i :: 0 <= i < |ops| ==> Follows(uses, ops[i]))
      ensures Answer(o, ops) == MapAnswer(o, fs, ops)
    {
      forall i | 0 <= i < |ops|
        ensures Disciplined(fs, ops[i])
      {
        if ops[i].op.Put? || ops[i].op.Get? {
          ChosenFamily(uses(ops[i].op.key));
        }
      }
      CacheIsMap(o, fs, ops);
    }
  }

  // ----- a delete that does not delete

  /**
   A key put in the modes USER and NONCE has two items, and a delete clears only
   the first one: a later get still finds the other, where every map answers nothing.
   */
  lemma MixedModesDiffer(o: Options, fs: Families, key: bytes, a: bytes, b: bytes)
    ensures var ops := [Timed(Put(key, 0, User, Some(a), -1), 1), Timed(Put(key, 0, Nonce, Some(b), -1), 1),
                        Timed(Put(key, 0, Normal, None, 0), 1), Timed(Get(key, 0, Normal), 1)];
            && Answer(o, ops) == Some(a) && |After(o, ops)| == 2
            && MapAnswer(o, fs, ops) == None
  {
    var p1, p2 := Timed(Put(key, 0, User, Some(a), -1), 1), Timed(Put(key, 0, Nonce, Some(b), -1), 1);
    var p3, g := Timed(Put(key, 0, Normal, None, 0), 1), Timed(Get(key, 0, Normal), 1);
    var ops := [p1, p2, p3, g];
    var x, y := NewItem(o, p1.op, 1), NewItem(o, p2.op, 1);
    var y' := y.(pw := None);
    hide Apply, After, Answer, MapAnswer;
    FirstPut(o, key, x, p1);
    SecondPut(o, key, x, y, p2);
    ThirdPut(o, key, x, y, p3);
    LastGet(o, key, x, y', g);
    FourSteps(o, p1, p2, p3, g, [x], [y, x], [y', x]);
    MapForgets(o, fs, [p1, p2], p3, g);
    assert [p1, p2] + [p3] + [g] == ops;
  }

  /** A run of four operations, one after the other. */
  lemma FourSteps(o: Options, p: Timed, q: Timed, r: Timed, g: Timed, a: seq<Item>, b: seq<Item>, c: seq<Item>)
    requires Apply(o, [], p).0 == a && Apply(o, a, q).0 == b && Apply(o, b, r).0 == c
    ensures var ops := [p, q, r, g]; After(o, ops) == Apply(o, c, g).0 && Answer(o, ops) == Apply(o, c, g).1
  {
    hide Apply, After;
    NoSteps(o);
    OneMore(o, [], p);
    OneMore(o, [p], q);
    OneMore(o, [p, q], r);
    OneMore(o, [p, q, r], g);
    assert [] + [p] == [p] && [p] + [q] == [p, q] && [p, q] + [r] == [p, q, r] && [p, q, r] + [g] == [p, q, r, g];
    assert [p, q, r, g][..3] == [p, q, r];
  }

  lemma NoSteps(o: Options)
    ensures After(o, []) == []
  {
  }

  lemma FirstPut(o: Options, key: bytes, x: Item, t: Timed)
    requires t.op.Put? && t.op.data.Some? && t.now == 1 && !PutIgnored(o, t.op) && x == NewItem(o, t.op, 1)
    ensures Apply(o, [], t).0 == [x]
  {
    assert Housekeep(o, [], 1) == [];
  }

  lemma MapForgets(o: Options, fs: Families, ops: seq<Timed>, del: Timed, g: Timed)
    requires del.op.Put? && del.op.data.None? && del.op.mode != Ignore
    requires g.op.Get? && g.op.key == del.op.key && g.op.restricted == del.op.restricted
    ensures MapAnswer(o, fs, ops + [del] + [g]) == None
  {
    var all := ops + [del];
    assert (all + [g])[..|all|] == all && all[..|ops|] == ops;
  }

  /** An item that was put now. */
  ghost predicate JustPut(o: Options, r: Item, key: bytes, mode: Mode) {
    r.key == key && r.restricted == 0 && r.mode == mode && Settled(o, r, 1)
  }

  lemma SecondPut(o: Options, key: bytes, x: Item, y: Item, t: Timed)
    requires JustPut(o, x, key, User) && t.op.Put? && t.op.mode == Nonce && t.op.key == key && t.op.restricted == 0
    requires t.now == 1 && !PutIgnored(o, t.op) && t.op.data.Some? && y == NewItem(o, t.op, 1)
    ensures Apply(o, [x], t).0 == [y, x]
  {
    SettledTwo(o, [x], 1);
    FindFrom([x], key, 0, Nonce, false, 1);
  }

  lemma ThirdPut(o: Options, key: bytes, x: Item, y: Item, t: Timed)
    requires JustPut(o, x, key, User) && JustPut(o, y, key, Nonce)
    requires t.op == Op.Put(key, 0, Normal, None, 0) && t.now == 1 && !PutIgnored(o, t.op)
    ensures Apply(o, [y, x], t).0 == [y.(pw := None), x]
  {
    SettledTwo(o, [y, x], 1);
    FindFrom([y, x], key, 0, Normal, false, 0);
  }

  lemma LastGet(o: Options, key: bytes, x: Item, y: Item, t: Timed)
    requires JustPut(o, x, key, User) && JustPut(o, y, key, Nonce) && x.pw.Some? && y.pw.None?
    requires t.op == Get(key, 0, Normal) && t.now == 1
    ensures var (items, answer) := Apply(o, [y, x], t); |items| == 2 && answer == x.pw
  {
    SettledTwo(o, [y, x], 1);
    FindFrom([y, x], key, 0, Normal, true, 1);
  }

  lemma OneMore(o: Options, ops: seq<Timed>, t: Timed)
    ensures After(o, ops + [t]) == Apply(o, After(o, ops), t).0
  {
    assert (ops + [t])[..|ops|] == ops;
  }

  lemma SettledTwo(o: Options, items: seq<Item>, now: int)
    requires forall r :: r in items ==> Settled(o, r, now)
    ensures Housekeep(o, items, now) == items
  {
    SettledList(o, items, now);
  }
}
