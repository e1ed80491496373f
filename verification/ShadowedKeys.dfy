/**
 What agent_shadow_key_type makes of a public key, octet by octet, and for which
 protocols agent_get_shadow_info_type finds the info in it.
 */
module ShadowedKeys {
  import opened Octets
  import opened Sexp
  import opened Protection
  import opened KeyStructure
  import opened Hex
  import opened Shadow
  import opened PlainKeys

  /** The number that a hexadecimal digit stands for. */
  function DigitValue(c: octet): int {
    if '0' <= c <= '9' then c as int - 48 else if 'A' <= c <= 'F' then c as int - 55 else c as int - 87
  }

  /** The info of a card key: the octets of its serial number, two digits each, and its id. */
  lemma InfoText(serialno: bytes, id: bytes)
    requires AllHex(serialno)
    ensures var octets := HexOctets(serialno);
            && ShadowInfo(serialno, id) == "(" + TokenOf(octets) + TokenOf(id) + ")"
            && |octets| == |serialno| / 2
            && forall i :: 0 <= i < |octets| ==>
                 octets[i] as int == 16 * DigitValue(serialno[2 * i]) + DigitValue(serialno[2 * i + 1])
  {
    hide HexOctets, DigitValue;
    OctetsLength(serialno);
    forall i | 0 <= i < |HexOctets(serialno)|
      ensures HexOctets(serialno)[i] as int == 16 * DigitValue(serialno[2 * i]) + DigitValue(serialno[2 * i + 1])
    {
      OctetAt(serialno, i);
    }
  }

  lemma {:induction false} OctetsLength(s: bytes)
    ensures |HexOctets(s)| == |s| / 2
  {
    hide Octet;
    if |s| >= 2 {
      OctetsLength(s[2..]);
    }
  }

  lemma {:induction false} OctetAt(s: bytes, i: nat)
    requires AllHex(s) && i < |HexOctets(s)| == |s| / 2
    ensures HexOctets(s)[i] as int == 16 * DigitValue(s[2 * i]) + DigitValue(s[2 * i + 1])
  {
    hide Octet, DigitValue;
    OctetIs(s[0], s[1]);
    if i > 0 {
      OctetsLength(s[2..]);
      OctetAt(s[2..], i - 1);
    }
  }

  lemma OctetIs(a: octet, b: octet)
    requires IsHex(a) && IsHex(b)
    ensures Octet(a, b) as int == 16 * DigitValue(a) + DigitValue(b)
  {
    hide HexValue, DigitValue;
    ValueIs(a);
    ValueIs(b);
    Nibbles(HexValue(a), HexValue(b));
  }

  lemma ValueIs(c: octet)
    requires IsHex(c)
    ensures HexValue(c) == DigitValue(c)
  {
  }

  /** The list of the info stands behind the parameters, with the name of the protocol before the info. */
  lemma ShadowedText(algo: bytes, ps: seq<Param>, tail: bytes, info: bytes, kind: bytes)
    requires algo != [] && HasValues(ps) && Scan(tail, 1, true) == Some(0) && CanonLen(info, 0) == |info| > 0
    ensures ShadowKey(TypedText("public-key", algo, ps, tail), info, kind) ==
            Ok("(20:shadowed-private-key(" + TokenOf(algo) + ParamsText(ps) + "(8:shadowed" + TokenOf(kind) + info + "))" + tail)
  {
    hide TypedText, HasValues, Scan, CanonLen, PublicPoint, TokenOf, ParamsText, PublicFraming, ShadowKey;
    var pub, point := TypedText("public-key", algo, ps, tail), ")" + tail;
    CanonicalScans(tail, 1);
    KeyCanonical("public-key", algo, ps, tail);
    PublicAccepted(algo, ps, tail);
    PublicHeadIs(pub, FrameOf(algo, ps), point);
    FrameLength(pub, algo, ps, point);
    ShadowText(pub, info, kind, point);
    assert info[..|info|] == info && pub[|pub| - |point|..|pub|] == point;
    ShadowedGlue(TokenOf(algo), ParamsText(ps), TokenOf(kind), info, tail);
  }

  lemma FrameLength(pub: bytes, algo: bytes, ps: seq<Param>, point: bytes)
    requires PublicFraming(pub, FrameOf(algo, ps), point) && FrameOf(algo, ps).head == "10:public-key"
    ensures 14 <= |pub| - |point| && pub[14..|pub| - |point|] == "(" + TokenOf(algo) + ParamsText(ps)
    ensures pub[|pub| - |point|..] == point
  {
    hide TokSeg, PairsSeg, TokenOf, ParamsText;
    var f := FrameOf(algo, ps);
    assert |f.head| == 13;
    MiddlePart(pub, f.head, "(" + f.token + f.params, point);
    assert pub == pub[..|pub| - |point|] + point;
  }

  lemma ShadowedGlue(token: bytes, params: bytes, kind: bytes, info: bytes, tail: bytes)
    ensures "(20:shadowed-private-key" + ("(" + token + params) + ("(8:shadowed" + kind + info + ")") + (")" + tail)
         == "(20:shadowed-private-key(" + token + params + "(8:shadowed" + kind + info + "))" + tail
  {
    assert "(20:shadowed-private-key" + ("(" + token + params) == "(20:shadowed-private-key(" + token + params;
    assert ("(8:shadowed" + kind + info + ")") + (")" + tail) == "(8:shadowed" + kind + info + "))" + tail;
  }

  /** A list of an unknown protocol is refused, one of the two known ones is read. */
  lemma KnownProtocols(algo: bytes, ps: seq<Param>, kind: bytes, info: bytes, r: bytes)
    requires algo != [] && HasValues(ps) && "shadowed" !in NamesOf(ps) && kind != [] && Head(info) == '('
    ensures var key := "(" + (TokenOf("shadowed-private-key")
                       + ("(" + (TokenOf(algo) + (ParamsText(ps) + ("(" + (TokenOf("shadowed") + (TokenOf(kind) + (info + r))))))));
            GetShadowInfo(key) ==
            if kind == "t1-v1" || kind == "tpm2-v1" then Ok((kind, info + r)) else Err(UnsupportedProtocol)
  {
    hide HasValues, TokenOf, Token, ParamsText, FindShadowed, NamesOf;
    var list := "(" + (TokenOf("shadowed") + (TokenOf(kind) + (info + r)));
    var lists := ParamsText(ps) + list;
    var inner := "(" + (TokenOf(algo) + lists);
    var key := "(" + (TokenOf("shadowed-private-key") + inner);
    assert key[1..] == TokenOf("shadowed-private-key") + inner;
    TokenOfAppend("shadowed-private-key", inner);
    assert inner[1..] == TokenOf(algo) + lists;
    TokenOfAppend(algo, lists);
    assert list[1..] == TokenOf("shadowed") + (TokenOf(kind) + (info + r));
    TokenOfAppend("shadowed", TokenOf(kind) + (info + r));
    ShadowedStep(list);
    ParamsPassed(ps, list);
    TokenOfAppend(kind, info + r);
  }

  lemma {:induction false} ParamsPassed(ps: seq<Param>, r: bytes)
    requires HasValues(ps) && "shadowed" !in NamesOf(ps)
    ensures FindShadowed(ParamsText(ps) + r) == FindShadowed(r)
  {
    hide ReadPair, Token, ParamText, FindShadowed;
    if ps == [] {
      assert ParamsText(ps) + r == r;
    } else {
      var s := ParamsText(ps) + r;
      FirstPair(ps, r);
      PairHead(s);
      assert NamesOf(ps)[0] == ps[0].name;
      ShadowedStep(s);
      assert NamesOf(ps) == [ps[0].name] + NamesOf(ps[1..]);
      ParamsPassed(ps[1..], r);
    }
  }

  lemma PairHead(s: bytes)
    requires ReadPair(s).Pair?
    ensures Head(s) == '(' && Token(s[1..]).Tok? && Token(s[1..]).data == ReadPair(s).name
  {
    hide Token;
  }
}
