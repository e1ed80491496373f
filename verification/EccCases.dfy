/**
 Which keys fixup_when_ecc_private_key changes: only keys of the algorithm "ecc"
 that are in the clear, and of those only the ones on a curve whose private part
 is a number.
 */
module EccCases {
  import opened Octets
  import opened Sexp
  import opened Protection
  import opened KeyStructure
  import opened EccFixup
  import EccKeys

  /** The two names at the start of a key. */
  lemma Names(name: bytes, algo: bytes, ps: seq<Param>, tail: bytes)
    requires name != []
    ensures var key := TypedText(name, algo, ps, tail);
            && Head(key) == '(' && Token(key[1..]).Tok? && Token(key[1..]).data == name
            && var s := Token(key[1..]).rest;
               Head(s) == '(' && (algo != [] ==> Token(s[1..]).Tok? && Token(s[1..]).data == algo)
  {
    hide Token, TokenOf, ParamsText;
    var lists := ParamsText(ps) + (")" + tail);
    var key := TypedText(name, algo, ps, tail);
    var inner := "(" + (TokenOf(algo) + lists);
    assert key == "(" + (TokenOf(name) + inner);
    assert key[1..] == TokenOf(name) + inner;
    TokenOfAppend(name, inner);
    if algo != [] {
      assert inner[1..] == TokenOf(algo) + lists;
      TokenOfAppend(algo, lists);
    }
  }

  /** A key of any other algorithm is left alone, whatever its parameters are. */
  lemma OtherAlgorithm(algo: bytes, ps: seq<Param>, tail: bytes, u: bytes)
    requires algo != [] && algo != "ecc"
    ensures Fixup(KeyText(algo, ps, tail), u) == Ok(KeyText(algo, ps, tail))
  {
    hide Token, TypedText, FixLists;
    Names("private-key", algo, ps, tail);
    assert "private-key"[0] == 'p' && "shadowed-private-key"[0] == 's';
  }

  /** So is a key on a card, also one for an elliptic curve; a key of any other kind is refused. */
  lemma OtherKind(name: bytes, algo: bytes, ps: seq<Param>, tail: bytes, u: bytes)
    requires name != [] && name != "private-key"
    ensures Fixup(TypedText(name, algo, ps, tail), u) ==
            if name == "shadowed-private-key" then Ok(TypedText(name, algo, ps, tail)) else Err(UnknownSexp)
  {
    hide Token, TypedText, FixLists;
    Names(name, algo, ps, tail);
  }

  // ----- curves

  /** The curves whose private part is a string of octets. */
  predicate StringCurve(curve: bytes) {
    curve == "Ed25519" || curve == "Ed448" || curve == "X448"
  }

  lemma StringCurveIs(curve: bytes)
    requires '\0' !in curve
    ensures OpaqueCurve(curve) <==> StringCurve(curve)
  {
    EccKeys.NoNul(curve);
  }

  /** A curve, parameters of any other names, and the private part. */
  lemma CurveDecides(curve: bytes, others: seq<Param>, d: bytes, tail: bytes, u: bytes)
    requires curve != [] && |curve| < 256 && '\0' !in curve && d != []
    requires forall i :: 0 <= i < |others| ==>
               others[i].name != [] && others[i].value != [] && others[i].name != "curve" && others[i].name != "d"
    ensures Fixup(KeyText("ecc", [Param("curve", curve)] + others + [Param("d", d)], tail), u) ==
            Ok(KeyText("ecc", [Param("curve", curve)] + others
                              + [Param("d", if d[0] == '\0' && !StringCurve(curve) then d[1..] else d)], tail))
  {
    hide Fixup, TypedText, OpaqueCurve, EccKeys.FixedParams, StringCurve;
    var c, p := Param("curve", curve), Param("d", d);
    var ps := [c] + others + [p];
    assert "d" != "curve";
    forall i | 0 <= i < |ps|
      ensures EccKeys.Readable(ps[i])
    {
      if 0 < i < |ps| - 1 { assert ps[i] == others[i - 1]; }
    }
    EccKeys.FixupIsDrop(ps, tail, u);
    StringCurveIs(curve);
    var q := Param("d", if d[0] == '\0' && !StringCurve(curve) then d[1..] else d);
    var fixed := EccKeys.FixedParams(ps, u);
    LastCurve(curve, others, p, u, |ps| - 1);
    forall i | 0 <= i < |ps|
      ensures |fixed| == |ps| && fixed[i] == ([c] + others + [q])[i]
    {
      EccKeys.FixedAt(ps, i, u);
      if 0 < i < |ps| - 1 { assert ps[i] == others[i - 1]; }
    }
    EccKeys.FixedAt(ps, 0, u);
    assert fixed == [c] + others + [q];
  }

  lemma {:induction false} LastCurve(curve: bytes, others: seq<Param>, p: Param, u: bytes, i: nat)
    requires forall j :: 0 <= j < |others| ==> others[j].name != "curve"
    requires 0 < i <= |others| + 1
    ensures EccKeys.CurveAt([Param("curve", curve)] + others + [p], i, u) == curve
  {
    var ps := [Param("curve", curve)] + others + [p];
    if i > 1 {
      assert ps[i - 1] == others[i - 2];
      LastCurve(curve, others, p, u, i - 1);
    }
  }

  /** The name of a curve has room for 255 octets; a longer one is an error wherever it stands. */
  lemma {:induction false} LongCurve(ps: seq<Param>, tail: bytes, curve: bytes)
    requires forall i :: 0 <= i < |ps| ==> ps[i].name != [] && ps[i].value != []
    ensures FixLists(ParamsText(ps) + (")" + tail), curve).Ok? <==>
            forall i :: 0 <= i < |ps| && ps[i].name == "curve" ==> |ps[i].value| < 256
    ensures FixLists(ParamsText(ps) + (")" + tail), curve).Err? ==>
            FixLists(ParamsText(ps) + (")" + tail), curve) == Err(InvSexp)
  {
    hide FixOne, ParamText, FixLists, EccKeys.FixedParams;
    var end := ")" + tail;
    if ps == [] {
      EccKeys.FixListsEncoded(ps, tail, curve);
    } else {
      var p, rest := ps[0], ps[1..];
      assert ParamsText(ps) + end == ParamText(p) + (ParamsText(rest) + end);
      if p.name == "curve" && |p.value| >= 256 {
        LongCurveFails(p, ParamsText(rest) + end, curve);
        FixListsStep(ParamsText(ps) + end, curve);
      } else {
        EccKeys.FixOneEncoded(p, ParamsText(rest) + end, curve);
        FixListsStep(ParamsText(ps) + end, curve);
        LongCurve(rest, tail, if p.name == "curve" then p.value else curve);
        assert ps == [p] + rest;
      }
    }
  }

  lemma CurveLimit(ps: seq<Param>, tail: bytes, u: bytes)
    requires forall i :: 0 <= i < |ps| ==> ps[i].name != [] && ps[i].value != []
    ensures Fixup(KeyText("ecc", ps, tail), u).Ok? <==>
            forall i :: 0 <= i < |ps| && ps[i].name == "curve" ==> |ps[i].value| < 256
  {
    hide Fixup, FixLists, ParamsText, TypedText;
    EccKeys.KeyLists(ps, tail, u);
    LongCurve(ps, tail, u);
  }

  lemma LongCurveFails(p: Param, r: bytes, curve: bytes)
    requires p.name == "curve" && |p.value| >= 256
    ensures var s := ParamText(p) + r; Head(s) == '(' && FixOne(s, curve) == Fail
  {
    hide Token, TokenOf, OpaqueCurve;
    var s := ParamText(p) + r;
    var n, v := TokenOf(p.name), TokenOf(p.value);
    assert s[1..] == n + (v + (")" + r));
    TokenOfAppend(p.name, v + (")" + r));
    TokenOfAppend(p.value, ")" + r);
  }
}
