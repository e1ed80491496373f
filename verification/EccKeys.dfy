/**
 What fixup_when_ecc_private_key does to a key: which parameters change, when the
 result can be read again, and when it depends on uninitialised memory.
 */
module EccKeys {
  import opened Octets
  import opened Sexp
  import opened Protection
  import opened KeyStructure
  import opened EccFixup
  import PlainKeys

  // ----- the parameters of the fixed key

  /** Parameters have names and values, and curve names fit the buffer for them. */
  predicate Encodable(ps: seq<Param>) {
    forall i :: 0 <= i < |ps| ==> Readable(ps[i])
  }

  predicate Readable(p: Param) {
    p.name != [] && p.value != [] && (p.name == "curve" ==> |p.value| < CURVE_NAME_SIZE)
  }

  /** The parameters with the leading zero octet of d dropped, unless the curve listed before is an opaque one. */
  function FixedParams(ps: seq<Param>, curve: bytes): seq<Param> {
    if ps == [] then []
    else
      var p := ps[0];
      [if p.name == "d" && p.value != [] && p.value[0] == '\0' && !OpaqueCurve(curve) then Param(p.name, p.value[1..]) else p]
      + FixedParams(ps[1..], if p.name == "curve" then p.value else curve)
  }

  lemma FixOneEncoded(p: Param, r: bytes, curve: bytes)
    requires p.name != [] && p.value != [] && (p.name == "curve" ==> |p.value| < CURVE_NAME_SIZE)
    ensures var s := ParamText(p) + r;
            && Head(s) == '('
            && FixOne(s, curve) == Step(ParamText(FixedParams([p], curve)[0]), if p.name == "curve" then p.value else curve, r)
  {
    hide Token, TokenOf, OpaqueCurve;
    var s := ParamText(p) + r;
    var n, v := TokenOf(p.name), TokenOf(p.value);
    assert s[1..] == n + (v + (")" + r));
    TokenOfAppend(p.name, v + (")" + r));
    TokenOfAppend(p.value, ")" + r);
    assert s == ("(" + n) + (v + (")" + r));
    UsedPrefix("(" + n, v + (")" + r));
    UsedPrefix(v, ")" + r);
    assert (")" + r)[1..] == r;
  }

  lemma {:induction false} FixListsEncoded(ps: seq<Param>, tail: bytes, curve: bytes)
    requires Encodable(ps)
    ensures FixLists(ParamsText(ps) + (")" + tail), curve) == Ok(ParamsText(FixedParams(ps, curve)) + (")" + tail))
    decreases |ps|
  {
    hide FixOne, ParamText, OpaqueCurve;
    var end := ")" + tail;
    if ps == [] {
      assert ParamsText(ps) + end == end;
      FixListsEnd(end, curve);
    } else {
      var p, rest := ps[0], ps[1..];
      var c := if p.name == "curve" then p.value else curve;
      var q := FixedParams([p], curve)[0];
      assert FixedParams([p][1..], c) == [];
      assert ParamsText(ps) + end == ParamText(p) + (ParamsText(rest) + end);
      FixOneEncoded(p, ParamsText(rest) + end, curve);
      FixListsStep(ParamsText(ps) + end, curve);
      FixListsEncoded(rest, tail, c);
      var fixed := FixedParams(ps, curve);
      assert fixed[0] == q && fixed[1..] == FixedParams(rest, c);
      assert ParamText(q) + (ParamsText(FixedParams(rest, c)) + end) == ParamsText(fixed) + end;
    }
  }

  /**
   The fixup of the encoding of a key is the encoding of the key whose private
   part has lost its leading zero octet; everything else is unchanged.
   */
  lemma FixupIsDrop(ps: seq<Param>, tail: bytes, uninitialised: bytes)
    requires Encodable(ps)
    ensures Fixup(KeyText("ecc", ps, tail), uninitialised) == Ok(KeyText("ecc", FixedParams(ps, uninitialised), tail))
  {
    hide Token, TokenOf, FixLists, ParamsText, FixedParams;
    var lists := ParamsText(ps) + (")" + tail);
    var head := "(" + TokenOf("private-key") + "(" + TokenOf("ecc");
    var buf := KeyText("ecc", ps, tail);
    assert buf == head + lists;
    var inner := "(" + TokenOf("ecc") + lists;
    assert buf[1..] == TokenOf("private-key") + inner;
    TokenOfAppend("private-key", inner);
    assert inner[1..] == TokenOf("ecc") + lists;
    TokenOfAppend("ecc", lists);
    UsedPrefix(head, lists);
    FixListsEncoded(ps, tail, uninitialised);
    var fixed := ParamsText(FixedParams(ps, uninitialised));
    assert head + (fixed + (")" + tail)) == KeyText("ecc", FixedParams(ps, uninitialised), tail);
  }

  /** The value of the last curve parameter before position i. */
  function CurveAt(ps: seq<Param>, i: nat, curve: bytes): bytes
    requires i <= |ps|
  {
    if i == 0 then curve
    else if ps[i - 1].name == "curve" then ps[i - 1].value
    else CurveAt(ps, i - 1, curve)
  }

  lemma {:induction false} CurveShift(ps: seq<Param>, i: nat, curve: bytes)
    requires 0 < i <= |ps|
    ensures CurveAt(ps, i, curve) == CurveAt(ps[1..], i - 1, if ps[0].name == "curve" then ps[0].value else curve)
  {
    if i > 1 {
      CurveShift(ps, i - 1, curve);
    } else {
      assert CurveAt(ps, 0, curve) == curve;
    }
  }

  /** The parameter at position i is a private part with a leading zero octet that is dropped. */
  predicate Drops(ps: seq<Param>, i: nat, curve: bytes)
    requires i < |ps|
  {
    ps[i].name == "d" && ps[i].value != [] && ps[i].value[0] == '\0' && !OpaqueCurve(CurveAt(ps, i, curve))
  }

  lemma {:induction false} FixedAt(ps: seq<Param>, i: nat, curve: bytes)
    requires i < |ps|
    ensures |FixedParams(ps, curve)| == |ps|
    ensures FixedParams(ps, curve)[i] == if Drops(ps, i, curve) then Param(ps[i].name, ps[i].value[1..]) else ps[i]
  {
    hide OpaqueCurve;
    var c := if ps[0].name == "curve" then ps[0].value else curve;
    if |ps| > 1 {
      FixedAt(ps[1..], if i == 0 then 0 else i - 1, c);
    } else {
      assert FixedParams(ps[1..], c) == [];
    }
    if i > 0 {
      CurveShift(ps, i, curve);
    }
  }

  // ----- reading the fixed key again

  /** No private part consisted of the dropped octet alone. */
  ghost predicate NoneEmptied(ps: seq<Param>, curve: bytes) {
    forall i :: 0 <= i < |ps| && |ps[i].value| == 1 ==> !Drops(ps, i, curve)
  }

  /** Parameters that may have lost their values. */
  predicate Named(ps: seq<Param>) {
    forall i :: 0 <= i < |ps| ==> ps[i].name != [] && (ps[i].name == "curve" ==> Readable(ps[i]))
  }

  lemma FixedValues(ps: seq<Param>, curve: bytes)
    requires Encodable(ps)
    ensures Named(FixedParams(ps, curve))
    ensures Encodable(FixedParams(ps, curve)) <==> NoneEmptied(ps, curve)
  {
    hide FixedParams, Drops;
    var qs := FixedParams(ps, curve);
    if ps == [] {
      assert qs == [] by { NoneFixed(curve); }
    } else {
      FixedAt(ps, 0, curve);
      forall i | 0 <= i < |ps|
        ensures Readable(qs[i]) <==> !(|ps[i].value| == 1 && Drops(ps, i, curve))
        ensures qs[i].name == ps[i].name && (qs[i].name == "curve" ==> qs[i] == ps[i])
      {
        FixedAt(ps, i, curve);
        if Drops(ps, i, curve) {
          DropsSecret(ps, i, curve);
        }
        assert Readable(ps[i]);
      }
    }
  }

  lemma NoneFixed(curve: bytes)
    ensures FixedParams([], curve) == []
  {
  }

  lemma DropsSecret(ps: seq<Param>, i: nat, curve: bytes)
    requires i < |ps| && Drops(ps, i, curve)
    ensures ps[i].name == "d" && |ps[i].value| > 0
  {
    assert "d" != "curve";
  }

  /** A parameter without a value is refused by the loop and by gcry_sexp_canon_len. */
  lemma EmptyRefused(p: Param, r: bytes, curve: bytes)
    requires p.name != [] && p.value == []
    ensures var s := ParamText(p) + r;
            Head(s) == '(' && FixOne(s, curve) == Fail && Skip(s, 2, true) == None
  {
    hide Token, TokenOf, Skip, OpaqueCurve;
    var s := ParamText(p) + r;
    var n, v := TokenOf(p.name), TokenOf([]) + (")" + r);
    assert s[1..] == n + v;
    TokenOfAppend(p.name, v);
    TokenOfEmpty(")" + r);
    Parens(s, 2, true);
    PlainKeys.SkipTokenOf(p.name, 3, v);
    EmptySkip(")" + r, 3);
  }

  lemma EmptySkip(r: bytes, depth: nat)
    requires depth > 0
    ensures Skip(TokenOf([]) + r, depth, true) == None
  {
    hide Token;
    TokenOfEmpty(r);
    assert (TokenOf([]) + r)[0] == '0';
  }

  lemma {:induction false} EmptyInList(ps: seq<Param>, tail: bytes, curve: bytes)
    requires Named(ps) && !Encodable(ps)
    ensures FixLists(ParamsText(ps) + (")" + tail), curve).Err? && Skip(ParamsText(ps) + (")" + tail), 2, true) == None
    decreases |ps|
  {
    hide FixOne, ParamText, OpaqueCurve, Skip, Scan, FixLists;
    var end := ")" + tail;
    var p, rest := ps[0], ps[1..];
    assert ParamsText(ps) + end == ParamText(p) + (ParamsText(rest) + end);
    if p.value == [] {
      EmptyRefused(p, ParamsText(rest) + end, curve);
      FixListsStep(ParamsText(ps) + end, curve);
    } else {
      FixOneEncoded(p, ParamsText(rest) + end, curve);
      FixListsStep(ParamsText(ps) + end, curve);
      EmptyInList(rest, tail, if p.name == "curve" then p.value else curve);
      PlainKeys.ParamRead(p, [], 2);
      PlainKeys.SkipLevel(ParamText(p), 2, ParamsText(rest) + end);
    }
  }

  /** The functions on a key in terms of its lists. */
  lemma KeyLists(ps: seq<Param>, tail: bytes, curve: bytes)
    ensures var key := KeyText("ecc", ps, tail); var lists := ParamsText(ps) + (")" + tail);
            && Fixup(key, curve).Ok? == FixLists(lists, curve).Ok?
            && (CanonLen(key, 0) > 0 ==> Skip(lists, 2, true).Some?)
  {
    hide Token, TokenOf, FixLists, ParamsText, Skip;
    var lists := ParamsText(ps) + (")" + tail);
    var key := KeyText("ecc", ps, tail);
    var inner := "(" + (TokenOf("ecc") + lists);
    assert key == "(" + (TokenOf("private-key") + inner);
    assert key[1..] == TokenOf("private-key") + inner;
    TokenOfAppend("private-key", inner);
    assert inner[1..] == TokenOf("ecc") + lists;
    TokenOfAppend("ecc", lists);
    PlainKeys.SkipTokenOf("private-key", 1, inner);
    Parens(inner, 1, true);
    PlainKeys.SkipTokenOf("ecc", 2, lists);
  }

  /**
   The fixed key is accepted by the same function, and is one canonical
   expression, if and only if no private part was a single zero octet that was dropped.
   */
  lemma ReadAgain(ps: seq<Param>, tail: bytes, curve: bytes, again: bytes)
    requires Encodable(ps) && Scan(tail, 1, true) == Some(0)
    ensures var fixed := Fixup(KeyText("ecc", ps, tail), curve);
            && fixed.Ok?
            && (Fixup(fixed.value, again).Ok? <==> NoneEmptied(ps, curve))
            && CanonLen(fixed.value, 0) == if NoneEmptied(ps, curve) then |fixed.value| else 0
  {
    hide Fixup, FixedParams, TypedText, CanonLen, Scan, NoneEmptied, FixLists, ParamsText, Skip;
    var qs := FixedParams(ps, curve);
    FixupIsDrop(ps, tail, curve);
    FixedValues(ps, curve);
    if NoneEmptied(ps, curve) {
      FixupIsDrop(qs, tail, again);
      CanonicalScans(tail, 1);
      PlainKeys.KeyCanonical("private-key", "ecc", qs, tail);
    } else {
      KeyLists(qs, tail, again);
      EmptyInList(qs, tail, again);
    }
  }

  /** A key whose private part is one zero octet becomes one that cannot be read. */
  lemma SecretLost(curve: bytes, again: bytes)
    requires !OpaqueCurve(curve)
    ensures var key := KeyText("ecc", [Param("d", "\0")], ")"); var fixed := Fixup(key, curve);
            && CanonLen(key, 0) == |key| > 0
            && fixed.Ok? && Fixup(fixed.value, again).Err? && CanonLen(fixed.value, 0) == 0
  {
    hide Fixup, TypedText, CanonLen, Scan, OpaqueCurve;
    var ps := [Param("d", "\0")];
    PlainKeys.ClosingScans();
    PlainKeys.KeyCanonical("private-key", "ecc", ps, ")");
    assert |ps[0].value| == 1 && Drops(ps, 0, curve);
    ReadAgain(ps, ")", curve, again);
  }

  // ----- uninitialised memory

  /** Every private part with a leading zero octet has a curve before it. */
  ghost predicate CurveFirst(ps: seq<Param>) {
    forall i :: 0 <= i < |ps| && ZeroSecret(ps[i]) ==> exists j :: 0 <= j < i && ps[j].name == "curve"
  }

  predicate ZeroSecret(p: Param) {
    p.name == "d" && p.value != [] && p.value[0] == '\0'
  }

  lemma {:induction false} CurveKnown(ps: seq<Param>, i: nat, u: bytes, v: bytes)
    requires i <= |ps|
    ensures CurveAt(ps, i, u) == (if exists j :: 0 <= j < i && ps[j].name == "curve" then CurveAt(ps, i, v) else u)
  {
    if i > 0 && ps[i - 1].name != "curve" {
      CurveKnown(ps, i - 1, u, v);
      assert CurveAt(ps, i, u) == CurveAt(ps, i - 1, u) && CurveAt(ps, i, v) == CurveAt(ps, i - 1, v);
    }
  }

  lemma SameFixed(ps: seq<Param>, u: bytes, v: bytes)
    requires CurveFirst(ps)
    ensures FixedParams(ps, u) == FixedParams(ps, v)
  {
    hide FixedParams, OpaqueCurve;
    if ps == [] {
      NoneFixed(u);
      NoneFixed(v);
    } else {
      FixedAt(ps, 0, u);
      FixedAt(ps, 0, v);
      forall i | 0 <= i < |ps|
        ensures FixedParams(ps, u)[i] == FixedParams(ps, v)[i]
      {
        FixedAt(ps, i, u);
        FixedAt(ps, i, v);
        if ZeroSecret(ps[i]) {
          CurveKnown(ps, i, u, v);
        }
      }
    }
  }

  /** Pointwise shorter parameters have a shorter encoding. */
  lemma {:induction false} Shorter(ps: seq<Param>, qs: seq<Param>, i: nat)
    requires |ps| == |qs| && i < |ps| && |ParamText(ps[i])| < |ParamText(qs[i])|
    requires forall j :: 0 <= j < |ps| ==> |ParamText(ps[j])| <= |ParamText(qs[j])|
    ensures |ParamsText(ps)| < |ParamsText(qs)|
  {
    hide ParamText;
    if i > 0 {
      Shorter(ps[1..], qs[1..], i - 1);
    } else {
      NotLonger(ps[1..], qs[1..]);
    }
  }

  lemma {:induction false} NotLonger(ps: seq<Param>, qs: seq<Param>)
    requires |ps| == |qs| && forall j :: 0 <= j < |ps| ==> |ParamText(ps[j])| <= |ParamText(qs[j])|
    ensures |ParamsText(ps)| <= |ParamsText(qs)|
  {
    hide ParamText;
    if ps != [] {
      NotLonger(ps[1..], qs[1..]);
    }
  }

  lemma DropShortens(p: Param)
    requires p.value != []
    ensures |ParamText(Param(p.name, p.value[1..]))| < |ParamText(p)|
  {
    hide Dec;
    var n := |p.value|;
    ValueOfDec(n);
    DecFits(n - 1, Dec(n));
  }

  /** If the curve comes too late, an opaque curve in the uninitialised memory keeps an octet that is dropped otherwise. */
  lemma LateCurve(ps: seq<Param>, tail: bytes, u: bytes, v: bytes)
    requires !CurveFirst(ps) && OpaqueCurve(u) && !OpaqueCurve(v)
    ensures |KeyText("ecc", FixedParams(ps, v), tail)| < |KeyText("ecc", FixedParams(ps, u), tail)|
  {
    hide FixedParams, OpaqueCurve, ParamText, ParamsText, TokenOf;
    var i :| 0 <= i < |ps| && ZeroSecret(ps[i]) && !exists j :: 0 <= j < i && ps[j].name == "curve";
    FixedAt(ps, i, u);
    FixedAt(ps, i, v);
    CurveKnown(ps, i, u, v);
    CurveKnown(ps, i, v, u);
    DropShortens(ps[i]);
    forall j | 0 <= j < |ps|
      ensures |ParamText(FixedParams(ps, v)[j])| <= |ParamText(FixedParams(ps, u)[j])|
    {
      FixedAt(ps, j, u);
      FixedAt(ps, j, v);
      CurveKnown(ps, j, u, v);
      if Drops(ps, j, v) {
        DropShortens(ps[j]);
      }
    }
    Shorter(FixedParams(ps, v), FixedParams(ps, u), i);
  }

  /**
   The result is the same whatever the uninitialised name of the curve is, if
   and only if every private part with a leading zero octet has a curve before it.
   */
  lemma InitialisedIff(ps: seq<Param>, tail: bytes)
    requires Encodable(ps)
    ensures (forall u, v :: Fixup(KeyText("ecc", ps, tail), u) == Fixup(KeyText("ecc", ps, tail), v)) <==> CurveFirst(ps)
  {
    hide Fixup, FixedParams, TypedText, CurveFirst;
    if CurveFirst(ps) {
      forall u, v
        ensures Fixup(KeyText("ecc", ps, tail), u) == Fixup(KeyText("ecc", ps, tail), v)
      {
        FixupIsDrop(ps, tail, u);
        FixupIsDrop(ps, tail, v);
        SameFixed(ps, u, v);
      }
    } else {
      OpaqueNames();
      FixupIsDrop(ps, tail, "Ed25519");
      FixupIsDrop(ps, tail, []);
      LateCurve(ps, tail, "Ed25519", []);
      assert Fixup(KeyText("ecc", ps, tail), "Ed25519") != Fixup(KeyText("ecc", ps, tail), []);
    }
  }

  lemma OpaqueNames()
    ensures OpaqueCurve("Ed25519") && !OpaqueCurve([])
  {
    NoNul("Ed25519");
  }

  lemma {:induction false} NoNul(s: bytes)
    requires '\0' !in s
    ensures CString(s) == s
  {
    if s != [] {
      NoNul(s[1..]);
    }
  }

  /** One key, two results. */
  lemma CurveTooLate(tail: bytes)
    ensures var key := KeyText("ecc", [Param("d", "\0x"), Param("curve", "Ed25519")], tail);
            && Fixup(key, "Ed25519") == Ok(key)
            && Fixup(key, []) == Ok(KeyText("ecc", [Param("d", "x"), Param("curve", "Ed25519")], tail))
            && Fixup(key, "Ed25519") != Fixup(key, [])
  {
    hide Fixup, TypedText, OpaqueCurve;
    var d, c := Param("d", "\0x"), Param("curve", "Ed25519");
    var ps := [d, c];
    OpaqueNames();
    assert d.value[1..] == "x" && ps[1..] == [c] && [c][1..] == [];
    assert FixedParams([c], "Ed25519") == [c] && FixedParams([c], []) == [c];
    assert FixedParams(ps, "Ed25519") == ps && FixedParams(ps, []) == [Param("d", "x"), c];
    FixupIsDrop(ps, tail, "Ed25519");
    FixupIsDrop(ps, tail, []);
    assert ZeroSecret(ps[0]);
    LateCurve(ps, tail, "Ed25519", []);
  }
}
