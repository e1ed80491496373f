/**
 The keys that agent_protect is for: the canonical encoding of every key with
 the parameters of its algorithm is accepted, and comes back unchanged.
 */
module PlainKeys {
  import opened Octets
  import opened Sexp
  import opened Protection
  import opened KeyStructure
  import opened RoundTrip
  import opened Hex
  import opened Shadow
  import opened KeyTypes

  function NamesOf(ps: seq<Param>): (names: seq<bytes>)
    ensures |names| == |ps| && forall i :: 0 <= i < |ps| ==> names[i] == ps[i].name
  {
    seq(|ps|, i requires 0 <= i < |ps| => ps[i].name)
  }

  predicate HasValues(ps: seq<Param>) {
    forall i :: 0 <= i < |ps| ==> ps[i].name != [] && ps[i].value != []
  }

  /** The parameters of the algorithm, or for ECC a curve, or a curve and flags, instead of the domain. */
  predicate Complete(info: AlgoInfo, names: seq<bytes>) {
    || names == Letters(info.parms)
    || (info.ecc && (names == ["curve", "q", "d"] || names == ["curve", "flags", "q", "d"]))
  }

  /** How many of the parameters are public. */
  function PublicCount(info: AlgoInfo, names: seq<bytes>): nat {
    if names == ["curve", "q", "d"] then 2 else if names == ["curve", "flags", "q", "d"] then 3 else info.from
  }

  lemma ParamRead(p: Param, r: bytes, depth: nat)
    requires p.name != [] && p.value != [] && depth > 0
    ensures ReadPair(ParamText(p) + r) == Pair(p.name, p.value, r)
    ensures Scan(ParamText(p), depth, true) == Some(depth)
  {
    hide Token, TokenOf, Scan, ReadPair;
    TokSegOfToken(p.name);
    TokSegOfToken(p.value);
    PairBuild(TokenOf(p.name), p.name, TokenOf(p.value), p.value, r);
    PairCanonical(TokenOf(p.name), p.name, TokenOf(p.value), p.value, depth);
  }

  lemma {:induction false} ParamsRead(ps: seq<Param>, r: bytes, depth: nat)
    requires HasValues(ps) && depth > 0
    ensures ReadPairs(ParamsText(ps) + r, NamesOf(ps)) == Some(r)
    ensures Scan(ParamsText(ps), depth, true) == Some(depth)
  {
    hide ReadPair, Scan, ParamText;
    if ps == [] {
      assert ParamsText(ps) + r == r;
      ScanEmpty(depth, true);
    } else {
      var p, rest := ps[0], ps[1..];
      assert NamesOf(ps)[1..] == NamesOf(rest);
      assert ParamsText(ps) + r == ParamText(p) + (ParamsText(rest) + r);
      ParamRead(p, ParamsText(rest) + r, depth);
      ParamsRead(rest, r, depth);
      CanonicalScans(ParamText(p), depth);
      ScanConcat(ParamText(p), ParamsText(rest), depth, true);
    }
  }

  lemma {:induction false} ParamsSplit(ps: seq<Param>, n: nat)
    requires n <= |ps|
    ensures ParamsText(ps) == ParamsText(ps[..n]) + ParamsText(ps[n..])
  {
    hide ParamText;
    if n > 0 {
      var rest := ps[1..];
      ParamsSplit(rest, n - 1);
      assert ps[..n][1..] == rest[..n - 1] && ps[n..] == rest[n - 1..];
    } else {
      assert ps[..0] == [] && ps[0..] == ps;
    }
  }

  lemma TwoPairs(ps: seq<Param>, r: bytes)
    requires HasValues(ps) && |ps| >= 2
    ensures var first := ReadPair(ParamsText(ps) + r);
            && first.Pair? && first.name == ps[0].name
            && ReadPair(first.rest).Pair? && ReadPair(first.rest).name == ps[1].name
  {
    hide ReadPair, ParamsText;
    FirstPair(ps, r);
    FirstPair(ps[1..], r);
  }

  lemma FirstPair(ps: seq<Param>, r: bytes)
    requires HasValues(ps) && ps != []
    ensures ReadPair(ParamsText(ps) + r) == Pair(ps[0].name, ps[0].value, ParamsText(ps[1..]) + r)
  {
    hide ReadPair, ParamText;
    assert ParamsText(ps) + r == ParamText(ps[0]) + (ParamsText(ps[1..]) + r);
    ParamRead(ps[0], ParamsText(ps[1..]) + r, 1);
  }

  lemma NamesCut(info: AlgoInfo, names: seq<bytes>)
    requires info in PROTECT_INFO && Complete(info, names)
    ensures var n := PublicCount(info, names);
            && 2 <= info.from <= |info.parms| && 2 <= n < |names|
            && (names == ["curve", "q", "d"] ==> names[..n] == ["curve", "q"] && names[n..] == ["d"])
            && (names == ["curve", "flags", "q", "d"] ==> names[..n] == ["curve", "flags", "q"] && names[n..] == ["d"])
            && (names == Letters(info.parms) ==>
                  names[..n] == Letters(info.parms[..n]) && names[n..] == Letters(info.parms[n..])
                  && n == info.from && |names[0]| == 1)
  {
    TableBounds(info);
    if names == Letters(info.parms) {
      LettersCut(info, names);
    } else {
      CurveCut(info, names);
    }
  }

  lemma TableBounds(info: AlgoInfo)
    requires info in PROTECT_INFO
    ensures 2 <= info.from < |info.parms|
  {
  }

  lemma LettersCut(info: AlgoInfo, names: seq<bytes>)
    requires 2 <= info.from < |info.parms| && names == Letters(info.parms)
    ensures var n := info.from;
            && PublicCount(info, names) == n && |names[0]| == 1 && names[0] != "curve"
            && names[..n] == Letters(info.parms[..n]) && names[n..] == Letters(info.parms[n..])
  {
    hide PROTECT_INFO;
    assert |"curve"| == 5 && |names[0]| == 1;
  }

  lemma CurveCut(info: AlgoInfo, names: seq<bytes>)
    requires names == ["curve", "q", "d"] || names == ["curve", "flags", "q", "d"]
    ensures var n := PublicCount(info, names);
            && 2 <= n < |names| && names[0] == "curve"
            && (names == ["curve", "q", "d"] ==> names[..n] == ["curve", "q"] && names[n..] == ["d"])
            && (names == ["curve", "flags", "q", "d"] ==> names[..n] == ["curve", "flags", "q"] && names[n..] == ["d"])
  {
    hide PROTECT_INFO;
  }

  /** The parameters are recognised for what they are. */
  lemma ShapeIs(info: AlgoInfo, ps: seq<Param>, r: bytes)
    requires info in PROTECT_INFO && HasValues(ps) && Complete(info, NamesOf(ps))
    ensures var names := NamesOf(ps); var n := PublicCount(info, names);
            && info.from <= |info.parms| && n <= |names|
            && KeyShape(info, ParamsText(ps) + r) == Shape(names[..n], names[n..])
  {
    hide ReadPair, ParamsText, Letters;
    NamesCut(info, NamesOf(ps));
    TwoPairs(ps, r);
    assert |"curve"| == 5 && |"flags"| == 5 && |"q"| == 1;
  }

  lemma ParamsCut(info: AlgoInfo, ps: seq<Param>, n: nat, outer: bytes, inner: bytes, tail: bytes)
    requires info in PROTECT_INFO && HasValues(ps) && Complete(info, NamesOf(ps)) && n == PublicCount(info, NamesOf(ps))
    requires Skip(tail, 1, false).Some?
    ensures info.from <= |info.parms| && SplitParams(outer, inner, info, ParamsText(ps) + (")" + tail)).Ok?
  {
    hide ReadPairs, Skip, ParamsText, KeyShape, Complete, PublicCount;
    var r := ")" + tail;
    ShapeIs(info, ps, r);
    var front, back := ps[..n], ps[n..];
    ParamsSplit(ps, n);
    assert NamesOf(front) == NamesOf(ps)[..n] && NamesOf(back) == NamesOf(ps)[n..];
    assert ParamsText(ps) + r == ParamsText(front) + (ParamsText(back) + r);
    ParamsRead(front, ParamsText(back) + r, 1);
    ParamsRead(back, r, 1);
    assert r[1..] == tail;
  }

  /** agent_protect accepts the encoding of every complete key, whatever the lengths behind its parameters look like. */
  lemma KeyAccepted(algo: bytes, ps: seq<Param>, tail: bytes)
    requires FindAlgo(algo).Some? && HasValues(ps) && Complete(FindAlgo(algo).value, NamesOf(ps))
    requires Scan(tail, 1, false) == Some(0)
    ensures SplitKey(KeyText(algo, ps, tail)).Ok?
  {
    hide Token, TokenOf, Skip, Scan, ParamsText, SplitParams, FindAlgo, Complete, HasValues;
    AlgoName(algo);
    var info := FindAlgo(algo).value;
    var lists := ParamsText(ps) + (")" + tail);
    var key := KeyText(algo, ps, tail);
    var inner := "(" + TokenOf(algo) + lists;
    assert key[1..] == TokenOf("private-key") + inner;
    TokenOfAppend("private-key", inner);
    assert inner[1..] == TokenOf(algo) + lists;
    TokenOfAppend(algo, lists);
    TailSkips(tail);
    ParamsCut(info, ps, PublicCount(info, NamesOf(ps)), Used(key, inner), Used(inner, lists), tail);
  }

  lemma AlgoName(algo: bytes)
    requires FindAlgo(algo).Some?
    ensures FindAlgo(algo).value in PROTECT_INFO && algo != []
  {
    assert forall i :: 0 <= i < |PROTECT_INFO| ==> PROTECT_INFO[i].name != [];
  }

  lemma TailSkips(tail: bytes)
    requires Scan(tail, 1, false) == Some(0)
    ensures Skip(tail, 1, true) == (if Scan(tail, 1, true).Some? then Some([]) else None) && Skip(tail, 1, false) == Some([])
  {
    hide Skip, Scan;
    SkipScan(tail, 1, [], true);
    SkipZero([], true);
    SkipScan(tail, 1, [], false);
    SkipZero([], false);
    assert tail + [] == tail;
  }

  lemma ClosingScans()
    ensures Scan(")", 1, true) == Some(0) && Scan(")", 1, false) == Some(0)
  {
    assert ")"[1..] == [];
  }

  lemma SkipLevel(x: bytes, depth: nat, r: bytes)
    requires Scan(x, depth, true) == Some(depth)
    ensures Skip(x + r, depth, true) == Skip(r, depth, true)
  {
    hide Skip, Scan;
    CanonicalScans(x, depth);
    SkipScan(x, depth, r, true);
  }

  lemma SkipTokenOf(data: bytes, depth: nat, r: bytes)
    requires data != [] && depth > 0
    ensures Skip(TokenOf(data) + r, depth, true) == Skip(r, depth, true)
  {
    hide Token, Skip, TokenOf, Scan;
    TokSegOfToken(data);
    TokSegFacts(TokenOf(data), data, r, depth);
    SkipLevel(TokenOf(data), depth, r);
  }

  /** It is one canonical expression if the part behind its parameters is canonical. */
  lemma KeyCanonical(name: bytes, algo: bytes, ps: seq<Param>, tail: bytes)
    requires name != [] && algo != [] && HasValues(ps) && Scan(tail, 1, false) == Some(0)
    ensures var key := TypedText(name, algo, ps, tail);
            CanonLen(key, 0) == (if Scan(tail, 1, true).Some? then |key| else 0) && |key| > 0
  {
    hide TokenOf, Skip, Scan, ParamsText, HasValues;
    var lists := ParamsText(ps) + (")" + tail);
    var inner := "(" + (TokenOf(algo) + lists);
    var key := TypedText(name, algo, ps, tail);
    assert key == "(" + (TokenOf(name) + inner);
    assert key[1..] == TokenOf(name) + inner;
    SkipTokenOf(name, 1, inner);
    InnerSkips(algo, ps, tail);
  }

  lemma InnerSkips(algo: bytes, ps: seq<Param>, tail: bytes)
    requires algo != [] && HasValues(ps) && Scan(tail, 1, false) == Some(0)
    ensures Skip("(" + (TokenOf(algo) + (ParamsText(ps) + (")" + tail))), 1, true) ==
            if Scan(tail, 1, true).Some? then Some([]) else None
  {
    hide TokenOf, Skip, Scan, ParamsText, HasValues;
    var lists := ParamsText(ps) + (")" + tail);
    var inner := "(" + (TokenOf(algo) + lists);
    Parens(inner, 1, true);
    assert inner[1..] == TokenOf(algo) + lists;
    SkipTokenOf(algo, 2, lists);
    ListsSkip(ps, tail);
  }

  lemma ListsSkip(ps: seq<Param>, tail: bytes)
    requires HasValues(ps) && Scan(tail, 1, false) == Some(0)
    ensures Skip(ParamsText(ps) + (")" + tail), 2, true) == if Scan(tail, 1, true).Some? then Some([]) else None
  {
    hide Skip, Scan, ParamsText, HasValues;
    ParamsRead(ps, [], 2);
    SkipLevel(ParamsText(ps), 2, ")" + tail);
    Parens(")" + tail, 2, true);
    assert (")" + tail)[1..] == tail;
    TailSkips(tail);
  }

  /**
   For every algorithm of the table, all values of its parameters, everything
   behind them, every passphrase, salt, IV, padding and time, in both modes:
   protecting succeeds, and unprotecting gives the same octets back if and only
   if no length behind the parameters has a leading zero.
   */
  lemma KeyRoundTrip(cr: Crypto, algo: bytes, ps: seq<Param>, tail: bytes, w: Sealing, wantTime: bool, junk: Scratch)
    requires cr.Lawful() && w.Valid() && w.count >= 65536 && w.passphrase != []
    requires FindAlgo(algo).Some? && HasValues(ps) && Complete(FindAlgo(algo).value, NamesOf(ps))
    requires Scan(tail, 1, false) == Some(0)
    ensures var key := KeyText(algo, ps, tail);
            && Protect(cr, key, w).Ok?
            && var r := Unprotect(cr, Protect(cr, key, w).value, w.passphrase, wantTime, junk);
               if Scan(tail, 1, true).Some? then r == Ok(Plain(key, if wantTime then Some(w.time) else None)) else r.Err?
  {
    hide TokenOf, Skip, Scan, ParamsText, HasValues, FindAlgo, Complete, TypedText, CanonLen, Unprotect, SplitKey, Ciphertext,
         ProtectedList, TimestampList;
    var key := KeyText(algo, ps, tail);
    AlgoName(algo);
    KeyAccepted(algo, ps, tail);
    KeyCanonical("private-key", algo, ps, tail);
    RoundTripExact(cr, key, w, wantTime, junk);
    assert key[..|key|] == key;
  }

  // ----- public keys

  function FrameOf(algo: bytes, ps: seq<Param>): PublicFrame {
    PublicFrame(TokenOf("public-key"), TokenOf(algo), algo, ParamsText(ps), NamesOf(ps))
  }

  lemma {:induction false} PairsSkipped(ps: seq<Param>, r: bytes)
    requires HasValues(ps) && Head(r) != '('
    ensures SkipPairs(ParamsText(ps) + r) == Some(r)
  {
    hide ReadPair, ParamText;
    if ps == [] {
      assert ParamsText(ps) + r == r;
    } else {
      assert Head(ParamsText(ps) + r) == '(' by {
        assert ParamText(ps[0])[0] == '(' by { ParamOpens(ps[0]); }
      }
      FirstPair(ps, r);
      PairsSkipped(ps[1..], r);
    }
  }

  lemma ParamOpens(p: Param)
    ensures ParamText(p) != [] && ParamText(p)[0] == '('
  {
  }

  /** The point of insertion in the encoding of a public key is behind its parameters. */
  lemma PublicAccepted(algo: bytes, ps: seq<Param>, tail: bytes)
    requires algo != [] && HasValues(ps)
    ensures var pub := TypedText("public-key", algo, ps, tail); var point := ")" + tail;
            PublicPoint(pub) == Ok(point) && PublicFraming(pub, FrameOf(algo, ps), point)
  {
    hide Token, TokenOf, ParamsText, SkipPairs, HasValues, ReadPairs;
    var point := ")" + tail;
    var lists := ParamsText(ps) + point;
    var pub := TypedText("public-key", algo, ps, tail);
    var inner := "(" + (TokenOf(algo) + lists);
    assert pub == "(" + (TokenOf("public-key") + inner);
    assert pub[1..] == TokenOf("public-key") + inner;
    TokenOfAppend("public-key", inner);
    assert inner[1..] == TokenOf(algo) + lists;
    TokenOfAppend(algo, lists);
    PairsSkipped(ps, point);
    TokSegOfToken("public-key");
    TokSegOfToken(algo);
    ParamsRead(ps, [], 1);
    assert ParamsText(ps) + [] == ParamsText(ps);
  }

  /**
   For every public key without a parameter named "shadowed", every card serial
   number and id and both protocols: shadowing succeeds and fits its buffer, the
   result is a shadowed key, and the serial number and the id are found in it.
   */
  lemma CardKeyRoundTrip(algo: bytes, ps: seq<Param>, tail: bytes, serialno: bytes, id: bytes, kind: bytes)
    requires algo != [] && HasValues(ps) && Scan(tail, 1, true) == Some(0) && "shadowed" !in NamesOf(ps)
    requires |serialno| >= 2 && id != [] && AllHex(serialno)
    requires kind == T1 || kind == TPM2
    ensures var pub, info := TypedText("public-key", algo, ps, tail), ShadowInfo(serialno, id);
            var r := ShadowKey(pub, info, kind);
            && r.Ok? && TypeOf(r.value) == Shadowed && |r.value| <= ShadowSize(|pub|, |info|)
            && GetShadowInfo(r.value).Ok?
            && var found := GetShadowInfo(r.value).value;
               found.0 == kind && ParseInfo(found.1) == Ok((Uppers(Even(serialno)), id))
  {
    hide TypedText, HasValues, Scan, CanonLen, PublicPoint, PublicFraming, ShadowInfo, GetShadowInfo, ParseInfo, TypeOf, Uppers;
    var pub, info := TypedText("public-key", algo, ps, tail), ShadowInfo(serialno, id);
    CanonicalScans(tail, 1);
    KeyCanonical("public-key", algo, ps, tail);
    PublicAccepted(algo, ps, tail);
    InfoCanonical(serialno, id);
    InfoNonEmpty(serialno, id);
    ShadowFits(pub, info, kind);
    assert |T1| == 5 && |TPM2| == 7;
    ShadowedType(pub, info, kind);
    CardRoundTrip(pub, serialno, id, kind, FrameOf(algo, ps));
  }

  lemma InfoNonEmpty(serialno: bytes, id: bytes)
    ensures |ShadowInfo(serialno, id)| > 0
  {
  }
}
