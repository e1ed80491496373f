/**
 What agent_protect makes of a key, octet by octet: which keys are accepted,
 which of their parameters stay public, and what is hashed and encrypted.
 */
module ProtectedKeys {
  import opened Octets
  import opened Sexp
  import opened Protection
  import opened KeyStructure
  import opened RoundTrip
  import opened Opening
  import opened PlainKeys

  /** The algorithms, with the parameters that stay public and those that are encrypted. */
  predicate Splits(algo: bytes, public: seq<bytes>, secret: seq<bytes>) {
    || (algo == "rsa" && public == ["n", "e"] && secret == ["d", "p", "q", "u"])
    || (algo == "dsa" && public == ["p", "q", "g", "y"] && secret == ["x"])
    || (algo == "elg" && public == ["p", "g", "y"] && secret == ["x"])
    || (algo in EccNames() && secret == ["d"]
        && (public == ["p", "a", "b", "g", "n", "q"] || public == ["curve", "q"] || public == ["curve", "flags", "q"]))
  }

  function EccNames(): set<bytes> {
    {"ecdsa", "ecdh", "ecc"}
  }

  predicate Supported(algo: bytes) {
    algo == "rsa" || algo == "dsa" || algo == "elg" || algo in EccNames()
  }

  lemma SupportedIs(algo: bytes)
    ensures Supported(algo) <==> FindAlgo(algo).Some?
  {
    assert PROTECT_INFO[0].name == "rsa" && PROTECT_INFO[1].name == "dsa" && PROTECT_INFO[2].name == "elg"
        && PROTECT_INFO[3].name == "ecdsa" && PROTECT_INFO[4].name == "ecdh" && PROTECT_INFO[5].name == "ecc";
  }

  lemma InfoIs(algo: bytes)
    requires Supported(algo)
    ensures FindAlgo(algo).Some?
    ensures var info := FindAlgo(algo).value;
            && info in PROTECT_INFO && 2 <= info.from < |info.parms| && info.ecc == (algo in EccNames())
            && Splits(algo, Letters(info.parms[..info.from]), Letters(info.parms[info.from..]))
            && Letters(info.parms[..info.from])[0] != "curve"
  {
    SupportedIs(algo);
    var info := FindAlgo(algo).value;
    TableBounds(info);
    LetterNames();
  }

  lemma LetterNames()
    ensures Letters("ne") == ["n", "e"] && Letters("dpqu") == ["d", "p", "q", "u"]
    ensures Letters("pqgy") == ["p", "q", "g", "y"] && Letters("x") == ["x"] && Letters("pgy") == ["p", "g", "y"]
    ensures Letters("pabgnq") == ["p", "a", "b", "g", "n", "q"] && Letters("d") == ["d"]
  {
  }

  // ----- the parameters that are accepted

  /** What is left of the parameters behind those of the given names. */
  function Behind(ps: seq<Param>, names: seq<bytes>): Option<seq<Param>> {
    if names == [] then Some(ps)
    else if ps == [] || ps[0].name != names[0] then None
    else Behind(ps[1..], names[1..])
  }

  lemma {:induction false} BehindIs(ps: seq<Param>, first: seq<bytes>, second: seq<bytes>)
    ensures Behind(ps, first).Some? && Behind(Behind(ps, first).value, second) == Some([]) <==> NamesOf(ps) == first + second
    ensures Behind(ps, first).Some? ==> |first| <= |ps| && Behind(ps, first).value == ps[|first|..]
    decreases |ps|
  {
    if ps == [] {
      assert first + second == [] ==> first == [] && second == [];
    } else if first == [] {
      assert first + second == second && ps[0..] == ps;
      if second != [] {
        BehindIs(ps[1..], [], second[1..]);
        assert [] + second[1..] == second[1..];
        NamesStep(ps, second);
      }
    } else {
      BehindIs(ps[1..], first[1..], second);
      assert (first + second)[1..] == first[1..] + second;
      NamesStep(ps, first + second);
    }
  }

  lemma NamesStep(ps: seq<Param>, names: seq<bytes>)
    requires ps != [] && names != []
    ensures NamesOf(ps) == names <==> ps[0].name == names[0] && NamesOf(ps[1..]) == names[1..]
  {
    assert NamesOf(ps) == [ps[0].name] + NamesOf(ps[1..]);
    assert names == [names[0]] + names[1..];
  }

  /** Reading parameters under given names works exactly if these are the names of the first ones. */
  lemma {:induction false} ReadPairsIs(ps: seq<Param>, r: bytes, names: seq<bytes>)
    requires HasValues(ps) && Head(r) != '('
    ensures ReadPairs(ParamsText(ps) + r, names) ==
            match Behind(ps, names) case None => None case Some(rest) => Some(ParamsText(rest) + r)
    decreases |names|
  {
    hide ReadPair, ParamText, ParamsText;
    if names != [] {
      if ps == [] {
        NoParams(r);
        NoPairHere(r);
      } else {
        FirstPair(ps, r);
        if ps[0].name == names[0] {
          ReadPairsIs(ps[1..], r, names[1..]);
        }
      }
    }
  }

  lemma NoPairHere(r: bytes)
    requires Head(r) != '('
    ensures ReadPair(r) == NoPair
  {
  }

  /** The parameters that the first ones call for. */
  function ShapeOf(info: AlgoInfo, names: seq<bytes>): Shape
    requires info.from <= |info.parms|
  {
    if info.ecc && names != [] && names[0] == "curve" then
      if |names| > 1 && names[1] == "flags" then Shape(["curve", "flags", "q"], ["d"]) else Shape(["curve", "q"], ["d"])
    else Shape(Letters(info.parms[..info.from]), Letters(info.parms[info.from..]))
  }

  lemma ShapeRead(info: AlgoInfo, ps: seq<Param>, r: bytes)
    requires info.from <= |info.parms| && HasValues(ps) && Head(r) != '('
    ensures KeyShape(info, ParamsText(ps) + r) == ShapeOf(info, NamesOf(ps))
  {
    hide ReadPair, ParamsText, Letters;
    if ps == [] {
      assert ParamsText(ps) + r == r by { NoParams(r); }
      NoPairHere(r);
    } else {
      FirstPair(ps, r);
      var rest := ps[1..];
      if rest == [] {
        assert ParamsText(rest) + r == r by { NoParams(r); }
        NoPairHere(r);
      } else {
        FirstPair(rest, r);
      }
    }
  }

  lemma NoParams(r: bytes)
    ensures ParamsText([]) + r == r
  {
  }

  lemma CutAt(outer: bytes, inner: bytes, info: AlgoInfo, ps: seq<Param>, tail: bytes)
    requires info.from <= |info.parms| && HasValues(ps) && Skip(tail, 1, false) == Some([])
    ensures var shape := ShapeOf(info, NamesOf(ps)); var n := |shape.public|;
            && (NamesOf(ps) == shape.public + shape.secret ==> n <= |ps|)
            && SplitParams(outer, inner, info, ParamsText(ps) + (")" + tail)) ==
               if NamesOf(ps) == shape.public + shape.secret
               then Ok(Parts(outer, inner, ParamsText(ps[..n]), ParamsText(ps[n..]), ")" + tail))
               else Err(InvSexp)
  {
    hide ReadPairs, Skip, ParamsText, KeyShape, ShapeOf, ParamText, Used, Behind;
    var r := ")" + tail;
    ShapeRead(info, ps, r);
    var shape := ShapeOf(info, NamesOf(ps));
    var n := |shape.public|;
    ReadPairsIs(ps, r, shape.public);
    BehindIs(ps, shape.public, shape.secret);
    if Behind(ps, shape.public).Some? {
      var back := ps[n..];
      ReadPairsIs(back, r, shape.secret);
      if Behind(back, shape.secret).Some? {
        EndOfParams(Behind(back, shape.secret).value, r);
        assert r[1..] == tail;
        PartsUsed(ps, n, r);
      }
    }
  }

  lemma PartsUsed(ps: seq<Param>, n: nat, r: bytes)
    requires n <= |ps|
    ensures var back := ParamsText(ps[n..]) + r;
            && Used(ParamsText(ps) + r, back) == ParamsText(ps[..n])
            && Used(back, r) == ParamsText(ps[n..]) && Used(r, []) == r
  {
    hide ParamsText, Used;
    ParamsSplit(ps, n);
    assert ParamsText(ps) + r == ParamsText(ps[..n]) + (ParamsText(ps[n..]) + r);
    UsedPrefix(ParamsText(ps[..n]), ParamsText(ps[n..]) + r);
    UsedPrefix(ParamsText(ps[n..]), r);
    UsedPrefix(r, []);
    assert r + [] == r;
  }

  lemma EndOfParams(ps: seq<Param>, r: bytes)
    requires r != [] && r[0] == ')'
    ensures Head(ParamsText(ps) + r) == (if ps == [] then ')' else '(')
    ensures ps == [] ==> ParamsText(ps) + r == r
  {
    hide ParamText;
    if ps != [] {
      ParamOpens(ps[0]);
    }
  }

  /** There is at most one way to split the names. */
  lemma SplitsOnce(algo: bytes, info: AlgoInfo, names: seq<bytes>, n: nat)
    requires info.from < |info.parms| && info.ecc == (algo in EccNames()) && n <= |names|
    requires Splits(algo, Letters(info.parms[..info.from]), Letters(info.parms[info.from..]))
    requires info.from > 0 && Letters(info.parms[..info.from])[0] != "curve"
    requires Splits(algo, names[..n], names[n..])
    ensures ShapeOf(info, names) == Shape(names[..n], names[n..])
  {
    hide Letters, EccNames;
    assert names[..n] + names[n..] == names;
    assert |"curve"| == 5 && |"flags"| == 5 && |"q"| == 1 && |"p"| == 1;
    if algo in EccNames() {
      EccOnly(algo);
      assert names[0] == names[..n][0] && names[1] == names[..n][1];
    }
  }

  lemma EccOnly(algo: bytes)
    requires algo in EccNames()
    ensures algo != "rsa" && algo != "dsa" && algo != "elg"
  {
    assert |"rsa"| == 3 && |"ecc"| == 3 && "rsa"[0] == 'r' && "dsa"[0] == 'd' && "elg"[1] == 'l';
  }

  // ----- what is accepted, and what it is made into

  lemma OuterText()
    ensures "(" + TokenOf("private-key") == "(11:private-key"
  {
    assert Dec(11) == Dec(1) + "1";
  }

  /** The two names at the start of a key. */
  lemma KeyNames(name: bytes, algo: bytes, ps: seq<Param>, tail: bytes)
    requires name != [] && algo != []
    ensures var lists := ParamsText(ps) + (")" + tail); var inner := "(" + (TokenOf(algo) + lists);
            var key := TypedText(name, algo, ps, tail);
            && Head(key) == '(' && Token(key[1..]) == Tok(name, inner) && Used(key, inner) == "(" + TokenOf(name)
            && inner[0] == '(' && Token(inner[1..]) == Tok(algo, lists) && Used(inner, lists) == "(" + TokenOf(algo)
  {
    hide Token, TokenOf, ParamsText, Used;
    var lists := ParamsText(ps) + (")" + tail);
    var key := TypedText(name, algo, ps, tail);
    var inner := "(" + (TokenOf(algo) + lists);
    assert key == "(" + (TokenOf(name) + inner);
    assert key[1..] == TokenOf(name) + inner;
    TokenOfAppend(name, inner);
    assert inner[1..] == TokenOf(algo) + lists;
    TokenOfAppend(algo, lists);
    assert key == ("(" + TokenOf(name)) + inner && inner == ("(" + TokenOf(algo)) + lists;
    UsedPrefix("(" + TokenOf(name), inner);
    UsedPrefix("(" + TokenOf(algo), lists);
  }

  lemma KeyHead(name: bytes, algo: bytes, ps: seq<Param>, tail: bytes)
    requires name != [] && algo != []
    ensures SplitKey(TypedText(name, algo, ps, tail)) ==
            if name != "private-key" then Err(UnknownSexp)
            else match FindAlgo(algo)
                 case None => Err(UnsupportedAlgorithm)
                 case Some(info) => SplitParams("(11:private-key", "(" + TokenOf(algo), info, ParamsText(ps) + (")" + tail))
  {
    hide Token, TokenOf, ParamsText, SplitParams, FindAlgo, Used, TypedText;
    if name == "private-key" { OuterText(); }
    KeyNames(name, algo, ps, tail);
  }

  lemma UnsupportedNames(algo: bytes, public: seq<bytes>, secret: seq<bytes>)
    requires Splits(algo, public, secret)
    ensures Supported(algo)
  {
  }

  lemma ShapeSplits(algo: bytes, info: AlgoInfo, names: seq<bytes>)
    requires info.from < |info.parms| && info.ecc == (algo in EccNames())
    requires Splits(algo, Letters(info.parms[..info.from]), Letters(info.parms[info.from..]))
    ensures var shape := ShapeOf(info, names);
            names == shape.public + shape.secret ==>
            |shape.public| <= |names| && Splits(algo, names[..|shape.public|], names[|shape.public|..])
  {
    hide Letters, EccNames, Splits;
    var shape := ShapeOf(info, names);
    ShapeOfSplits(algo, info, names);
    if names == shape.public + shape.secret {
      assert names[..|shape.public|] == shape.public && names[|shape.public|..] == shape.secret;
    }
  }

  lemma ShapeOfSplits(algo: bytes, info: AlgoInfo, names: seq<bytes>)
    requires info.from < |info.parms| && info.ecc == (algo in EccNames())
    requires Splits(algo, Letters(info.parms[..info.from]), Letters(info.parms[info.from..]))
    ensures Splits(algo, ShapeOf(info, names).public, ShapeOf(info, names).secret)
  {
    hide Letters, EccNames;
  }

  /**
   agent_protect accepts the encoding of a key exactly if its parameters are
   those of its algorithm in their order, and tells the public ones from the others.
   */
  lemma AcceptedIff(algo: bytes, ps: seq<Param>, tail: bytes)
    requires algo != [] && HasValues(ps) && Scan(tail, 1, false) == Some(0)
    ensures !Supported(algo) ==> SplitKey(KeyText(algo, ps, tail)) == Err(UnsupportedAlgorithm)
    ensures forall n :: 0 <= n <= |ps| && Splits(algo, NamesOf(ps)[..n], NamesOf(ps)[n..]) ==>
              SplitKey(KeyText(algo, ps, tail)) ==
              Ok(Parts("(11:private-key", "(" + TokenOf(algo), ParamsText(ps[..n]), ParamsText(ps[n..]), ")" + tail))
    ensures Supported(algo) && (forall n :: 0 <= n <= |ps| ==> !Splits(algo, NamesOf(ps)[..n], NamesOf(ps)[n..])) ==>
              SplitKey(KeyText(algo, ps, tail)) == Err(InvSexp)
  {
    hide Token, TokenOf, Skip, Scan, ParamsText, SplitParams, FindAlgo, HasValues, Splits, Supported, EccNames, SplitKey, ShapeOf, Letters, TypedText;
    KeyHead("private-key", algo, ps, tail);
    TailSkips(tail);
    SupportedIs(algo);
    if Supported(algo) {
      InfoIs(algo);
      var info := FindAlgo(algo).value;
      var names := NamesOf(ps);
      var shape := ShapeOf(info, names);
      CutAt("(11:private-key", "(" + TokenOf(algo), info, ps, tail);
      ShapeSplits(algo, info, names);
      forall n | 0 <= n <= |ps| && Splits(algo, names[..n], names[n..])
        ensures SplitKey(KeyText(algo, ps, tail)) ==
                Ok(Parts("(11:private-key", "(" + TokenOf(algo), ParamsText(ps[..n]), ParamsText(ps[n..]), ")" + tail))
      {
        SplitsOnce(algo, info, names, n);
        assert names == names[..n] + names[n..];
      }
    } else {
      forall n | 0 <= n <= |ps| && Splits(algo, NamesOf(ps)[..n], NamesOf(ps)[n..])
        ensures false
      {
        UnsupportedNames(algo, NamesOf(ps)[..n], NamesOf(ps)[n..]);
      }
    }
  }

  /** The encrypted octets: the secret parameters in two lists, with a check of the public ones, the algorithm and the time. */
  function Locked(cr: Crypto, algo: bytes, public: seq<Param>, secret: seq<Param>, w: Sealing): bytes
    requires w.Valid()
  {
    var key := cr.kdf(w.passphrase, w.salt, w.count, 16);
    var front, stamp := "(" + TokenOf(algo) + ParamsText(public), "(12:protected-at15:" + w.time + ")";
    if w.ocb then
      var text := "((" + ParamsText(secret) + "))";
      cr.ocbEncrypt(Aes128, key, w.iv, text) + cr.ocbTag(Aes128, key, w.iv, front + stamp + ")", text)
    else
      var text := "((" + ParamsText(secret) + ")(4:hash4:sha120:" + cr.sha1(front + ParamsText(secret) + stamp + ")") + "))";
      cr.cbcEncrypt(Aes128, key, w.iv, text + w.padding[..16 - |text| % 16])
  }

  /**
   What agent_protect makes of a key: the secret parameters of its algorithm are
   nowhere but in the encrypted octets, which take their place; the time follows.
   */
  lemma ProtectedText(cr: Crypto, algo: bytes, public: seq<Param>, secret: seq<Param>, tail: bytes, w: Sealing)
    requires cr.Lawful() && w.Valid() && HasValues(public + secret) && Scan(tail, 1, false) == Some(0)
    requires Splits(algo, NamesOf(public), NamesOf(secret))
    ensures Protect(cr, KeyText(algo, public + secret, tail), w) ==
            if w.passphrase == [] then Err(NoPassphrase)
            else
              var method_ := if w.ocb then "openpgp-s2k3-ocb-aes" else "openpgp-s2k3-sha1-aes-cbc";
              var t := LockTokens("sha1", w.salt, Dec(w.count), w.iv, Locked(cr, algo, public, secret, w));
              Ok("(21:protected-private-key(" + TokenOf(algo) + ParamsText(public) + LockList(method_, t)
                 + "(12:protected-at15:" + w.time + "))" + tail)
  {
    hide TokenOf, Scan, ParamsText, FindAlgo, HasValues, Splits, SplitKey, TypedText, ProtectedList, LockList, Ciphertext, Locked, Dec;
    var ps, n := public + secret, |public|;
    var key := KeyText(algo, ps, tail);
    assert ps[..n] == public && ps[n..] == secret;
    assert NamesOf(ps)[..n] == NamesOf(public) && NamesOf(ps)[n..] == NamesOf(secret);
    AlgoSplits(algo, NamesOf(public), NamesOf(secret));
    AcceptedIff(algo, ps, tail);
    var k := Parts("(11:private-key", "(" + TokenOf(algo), ParamsText(public), ParamsText(secret), ")" + tail);
    SplitKeyWhole(algo, ps, n, tail);
    ProtectParts(cr, key, k, w);
    if w.passphrase != [] {
      LockedIs(cr, k, algo, public, secret, w);
      WrittenList(w, Ciphertext(cr, k, w));
      OneList("(" + TokenOf(algo) + ParamsText(public), ProtectedList(w, Ciphertext(cr, k, w)), w.time, tail);
      assert "(21:protected-private-key" + ("(" + TokenOf(algo) + ParamsText(public))
          == "(21:protected-private-key(" + TokenOf(algo) + ParamsText(public);
    }
  }

  lemma ProtectParts(cr: Crypto, key: bytes, k: Parts, w: Sealing)
    requires cr.Lawful() && w.Valid() && SplitKey(key) == Ok(k) && key == k.Whole() && k.outer == "(11:private-key"
    ensures Protect(cr, key, w) ==
            if w.passphrase == [] then Err(NoPassphrase)
            else Ok("(21:protected-private-key" + (k.inner + k.public) + ProtectedList(w, Ciphertext(cr, k, w))
                    + TimestampList(w.time) + k.tail)
  {
    hide SplitKey, ProtectedList, Ciphertext, TimestampList;
    CopiedFront(k, key);
    assert "(21:protected-" + ("private-key" + (k.inner + k.public)) == "(21:protected-private-key" + (k.inner + k.public);
  }

  lemma OneList(front: bytes, list: bytes, time: bytes, tail: bytes)
    ensures "(21:protected-private-key" + front + list + TimestampList(time) + (")" + tail)
         == "(21:protected-private-key" + front + list + "(12:protected-at15:" + time + "))" + tail
  {
    assert TimestampList(time) + (")" + tail) == "(12:protected-at15:" + time + "))" + tail;
  }

  lemma AlgoSplits(algo: bytes, public: seq<bytes>, secret: seq<bytes>)
    requires Splits(algo, public, secret)
    ensures algo != []
  {
    assert |"rsa"| == 3 && |"dsa"| == 3 && |"elg"| == 3 && |"ecc"| == 3 && |"ecdsa"| == 5 && |"ecdh"| == 4;
  }

  lemma SplitKeyWhole(algo: bytes, ps: seq<Param>, n: nat, tail: bytes)
    requires n <= |ps|
    ensures KeyText(algo, ps, tail) ==
            Parts("(11:private-key", "(" + TokenOf(algo), ParamsText(ps[..n]), ParamsText(ps[n..]), ")" + tail).Whole()
  {
    hide TokenOf, ParamsText;
    OuterText();
    ParamsSplit(ps, n);
  }

  lemma CopiedFront(k: Parts, key: bytes)
    requires k.outer == "(11:private-key" && key == k.Whole()
    ensures key[4..|k.outer + k.inner + k.public|] == "private-key" + (k.inner + k.public)
  {
    var middle, back := "private-key" + (k.inner + k.public), k.secret + k.tail;
    assert key == "(11:" + (middle + back) by { assert k.outer == "(11:" + "private-key"; }
    assert |k.outer + k.inner + k.public| == 4 + |middle|;
  }

  lemma LockedIs(cr: Crypto, k: Parts, algo: bytes, public: seq<Param>, secret: seq<Param>, w: Sealing)
    requires cr.Lawful() && w.Valid()
    requires k.inner == "(" + TokenOf(algo) && k.public == ParamsText(public) && k.secret == ParamsText(secret)
    ensures Ciphertext(cr, k, w) == Locked(cr, algo, public, secret, w)
  {
    hide Crypto.Lawful, TokenOf, ParamsText, MicInput, Framed, CbcLength;
    MicText(k, w.time);
    if w.ocb {
      FramedText(k.secret, None);
    } else {
      var mic := cr.sha1(MicInput(k, w.time));
      FramedText(k.secret, Some(mic));
      PaddedText(Framed(k.secret, Some(mic)), w.padding);
    }
  }

  lemma MicText(k: Parts, time: bytes)
    ensures MicInput(k, time) == k.inner + k.public + k.secret + ("(12:protected-at15:" + time + ")") + ")"
  {
  }

  lemma PaddedText(text: bytes, padding: bytes)
    requires |padding| == 16
    ensures (text + padding)[..CbcLength(|text|)] == text + padding[..16 - |text| % 16]
  {
    CbcPadding(|text|);
    assert CbcLength(|text|) == |text| + (16 - |text| % 16);
  }
}
