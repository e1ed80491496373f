/**
 The cursor code of agent_protect and do_encryption in agent/protect.c: loops
 over the plain key, and writes into buffers whose sizes were computed before.
 */
module ProtectLoops {
  import opened Octets
  import opened Buffers
  import opened Sexp
  import opened Protection

  /** A parenthesised name and value: the name and the cursor behind the list. */
  method PairAt(buf: bytes, pos: nat) returns (ok: bool, name: bytes, next: nat)
    requires pos <= |buf|
    ensures ok == ReadPair(buf[pos..]).Pair?
    ensures ok ==> pos < next <= |buf| && ReadPair(buf[pos..]).name == name && ReadPair(buf[pos..]).rest == buf[next..]
    ensures ok ==> buf[next - 1] == ')'
  {
    hide Token;
    name := [];
    if pos == |buf| || buf[pos] != '(' {
      return false, name, pos;
    }
    assert buf[pos..][1..] == buf[pos + 1..];
    var n, data := Snext(buf, pos + 1);
    if n == 0 || n > |buf| - data {
      return false, name, pos;
    }
    name := buf[data..data + n];
    var n', data' := Snext(buf, data + n);
    if n' == 0 || n' > |buf| - data' {
      return false, name, pos;
    }
    var close := data' + n';
    if close == |buf| || buf[close] != ')' {
      return false, name, pos;
    }
    assert buf[close..][1..] == buf[close + 1..];
    return true, name, close + 1;
  }

  lemma PairsStep(s: bytes, names: seq<bytes>, i: nat)
    requires i < |names|
    ensures ReadPairs(s, names[i..]) ==
            if ReadPair(s).Pair? && ReadPair(s).name == names[i]
            then ReadPairs(ReadPair(s).rest, names[i + 1..]) else None
  {
    hide ReadPair;
    assert names[i..][1..] == names[i + 1..];
  }

  lemma PairsDone(s: bytes, names: seq<bytes>)
    ensures ReadPairs(s, names[|names|..]) == Some(s)
    ensures names[0..] == names
  {
  }

  /** What the next list must be called, given the parameter letters that the loop works with. */
  ghost predicate Expects(info: AlgoInfo, s: bytes, cur: bytes, i: nat, parms: bytes, from: nat, curve: bool)
    requires info.from <= |info.parms|
  {
    var shape := KeyShape(info, s);
    && i <= |parms|
    && (i == 0 ==> cur == s && !curve)
    && (!curve ==> parms == info.parms && from == info.from)
    && (!curve && i > 0 ==> shape.public == Letters(info.parms[..from]) && shape.secret == Letters(info.parms[from..]))
    && (curve ==> i > 0 && info.ecc && ReadPair(s).Pair? && ReadPair(s).name == "curve")
    && (curve && i == 1 ==> parms == "?qd" && from == 2 && cur == ReadPair(s).rest)
    && (curve && i > 1 ==>
          || (parms == "?qd" && from == 2 && shape == Shape(["curve", "q"], ["d"]))
          || (parms == "??qd" && from == 3 && shape == Shape(["curve", "flags", "q"], ["d"])))
  }

  /** The outcome of one comparison of a name in the loop. */
  ghost predicate Checked(info: AlgoInfo, s: bytes, cur: bytes, i: nat, parms: bytes, from: nat, curve: bool)
    requires info.from <= |info.parms| && i < |parms| && ReadPair(cur).Pair?
  {
    var shape := KeyShape(info, s);
    var all := shape.public + shape.secret;
    var name, rest := ReadPair(cur).name, ReadPair(cur).rest;
    && i < |all|
    && if name == [parms[i]] then name == all[i] && Expects(info, s, rest, i + 1, parms, from, curve)
       else if name == "curve" && i == 0 && info.ecc
       then name == all[i] && Expects(info, s, rest, i + 1, "?qd", 2, true)
       else if name == "flags" && i == 1 && curve
       then name == all[i] && Expects(info, s, rest, i + 1, "??qd", 3, curve)
       else name != all[i]
  }

  lemma NameChecked(info: AlgoInfo, s: bytes, cur: bytes, i: nat, parms: bytes, from: nat, curve: bool)
    requires info in PROTECT_INFO && info.from <= |info.parms|
    requires Expects(info, s, cur, i, parms, from, curve) && i < |parms| && ReadPair(cur).Pair?
    ensures Checked(info, s, cur, i, parms, from, curve)
  {
    hide Checked, KeyShape, ReadPair;
    if i == 0 {
      FirstChecked(info, s);
    } else if curve {
      CurveChecked(info, s, cur, i, parms, from);
    } else {
      LetterChecked(info, s, cur, i);
    }
  }

  /** The first name: a letter, or a curve. */
  lemma FirstChecked(info: AlgoInfo, s: bytes)
    requires info in PROTECT_INFO && 2 <= info.from < |info.parms| && ReadPair(s).Pair?
    ensures Checked(info, s, s, 0, info.parms, info.from, false)
  {
    hide ReadPair, PROTECT_INFO;
    assert |"curve"| == 5;
  }

  /** A name behind the first one, in a key without a curve. */
  lemma LetterChecked(info: AlgoInfo, s: bytes, cur: bytes, i: nat)
    requires info.from <= |info.parms| && 0 < i < |info.parms| && ReadPair(cur).Pair?
    requires Expects(info, s, cur, i, info.parms, info.from, false)
    ensures Checked(info, s, cur, i, info.parms, info.from, false)
  {
    hide ReadPair, KeyShape, PROTECT_INFO;
  }

  /** A name behind a curve. */
  lemma CurveChecked(info: AlgoInfo, s: bytes, cur: bytes, i: nat, parms: bytes, from: nat)
    requires info.from <= |info.parms| && 0 < i < |parms| && ReadPair(cur).Pair?
    requires Expects(info, s, cur, i, parms, from, true)
    ensures Checked(info, s, cur, i, parms, from, true)
  {
    hide ReadPair, PROTECT_INFO;
    if i > 1 {
      hide KeyShape;
    }
    assert |"flags"| == 5 && |"q"| == 1 && |"d"| == 1;
  }

  /** How far the parameter loop has come: i lists behind s, with the secret ones starting at begin. */
  ghost predicate Progress(shape: Shape, s: bytes, cur: bytes, i: nat, begin: bytes) {
    var np := |shape.public|;
    && (i <= np ==> ReadPairs(s, shape.public) == ReadPairs(cur, shape.public[i..]))
    && (np < i <= np + |shape.secret| ==>
          ReadPairs(s, shape.public) == Some(begin)
          && ReadPairs(begin, shape.secret) == ReadPairs(cur, shape.secret[i - np..]))
  }

  lemma ProgressStep(shape: Shape, s: bytes, cur: bytes, i: nat, begin: bytes)
    requires Progress(shape, s, cur, i, begin) && i < |shape.public| + |shape.secret|
    requires i == |shape.public| ==> begin == cur
    ensures var all := shape.public + shape.secret;
            if ReadPair(cur).Pair? && ReadPair(cur).name == all[i]
            then Progress(shape, s, ReadPair(cur).rest, i + 1, begin)
            else Failed(shape, s)
  {
    hide ReadPair, ReadPairs;
    var np := |shape.public|;
    if i < np {
      PairsStep(cur, shape.public, i);
    } else {
      PairsDone(cur, shape.public);
      PairsDone(cur, shape.secret);
      PairsStep(cur, shape.secret, i - np);
    }
  }

  lemma LoopStart(info: AlgoInfo, s: bytes)
    requires info.from <= |info.parms|
    ensures Expects(info, s, s, 0, info.parms, info.from, false)
    ensures Progress(KeyShape(info, s), s, s, 0, s)
  {
    hide ReadPair, ReadPairs, KeyShape, Letters;
    PairsDone(s, KeyShape(info, s).public);
  }

  /** The secret parameters start where the loop counter meets its lower bound. */
  lemma FromIsPublic(info: AlgoInfo, s: bytes, cur: bytes, i: nat, parms: bytes, from: nat, curve: bool)
    requires info in PROTECT_INFO && info.from <= |info.parms|
    requires Expects(info, s, cur, i, parms, from, curve)
    ensures i >= 2 ==> from == |KeyShape(info, s).public| && |parms| == from + |KeyShape(info, s).secret| && |parms| > from
    ensures i < 2 ==> i != from && i < |KeyShape(info, s).public| && i < |parms|
  {
    hide ReadPair, KeyShape;
    KeyShapeBound(info, s);
  }

  lemma KeyShapeBound(info: AlgoInfo, s: bytes)
    requires info in PROTECT_INFO && info.from <= |info.parms|
    ensures 2 <= info.from < |info.parms|
    ensures |KeyShape(info, s).public| >= 2 && |KeyShape(info, s).secret| >= 1
  {
    hide ReadPair;
    assert forall j :: 0 <= j < |PROTECT_INFO| ==> 2 <= PROTECT_INFO[j].from < |PROTECT_INFO[j].parms|;
  }

  lemma Restart(info: AlgoInfo, s: bytes, cur: bytes, i: nat, parms: bytes, from: nat, curve: bool, begin: bytes)
    requires info in PROTECT_INFO && info.from <= |info.parms|
    requires Expects(info, s, cur, i, parms, from, curve) && Progress(KeyShape(info, s), s, cur, i, begin)
    ensures i == from ==> Progress(KeyShape(info, s), s, cur, i, cur)
    ensures i == |KeyShape(info, s).public| ==> i == from
  {
    hide ReadPair, ReadPairs, KeyShape, Expects;
    FromIsPublic(info, s, cur, i, parms, from, curve);
  }

  lemma LoopRound(info: AlgoInfo, s: bytes, cur: bytes, i: nat, parms: bytes, from: nat, curve: bool, begin: bytes)
    requires info in PROTECT_INFO && info.from <= |info.parms| && i < |parms|
    requires Expects(info, s, cur, i, parms, from, curve) && Progress(KeyShape(info, s), s, cur, i, begin)
    requires i == |KeyShape(info, s).public| ==> begin == cur
    ensures var shape := KeyShape(info, s); var all := shape.public + shape.secret;
            && i < |all|
            && (!ReadPair(cur).Pair? ==> Failed(shape, s))
            && (ReadPair(cur).Pair? ==>
                  var name, rest := ReadPair(cur).name, ReadPair(cur).rest;
                  if name == [parms[i]]
                  then Progress(shape, s, rest, i + 1, begin) && Expects(info, s, rest, i + 1, parms, from, curve)
                  else if name == "curve" && i == 0 && info.ecc
                  then Progress(shape, s, rest, i + 1, begin) && Expects(info, s, rest, i + 1, "?qd", 2, true)
                  else if name == "flags" && i == 1 && curve
                  then Progress(shape, s, rest, i + 1, begin) && Expects(info, s, rest, i + 1, "??qd", 3, curve)
                  else Failed(shape, s))
  {
    hide ReadPair, ReadPairs, KeyShape, Expects, Progress;
    var shape := KeyShape(info, s);
    FromIsPublic(info, s, cur, i, parms, from, curve);
    ProgressStep(shape, s, cur, i, begin);
    if ReadPair(cur).Pair? {
      NameChecked(info, s, cur, i, parms, from, curve);
    }
  }

  ghost predicate Failed(shape: Shape, s: bytes) {
    ReadPairs(s, shape.public).None? || ReadPairs(ReadPairs(s, shape.public).value, shape.secret).None?
  }

  lemma LoopDone(info: AlgoInfo, s: bytes, cur: bytes, i: nat, parms: bytes, from: nat, curve: bool, begin: bytes)
    requires info in PROTECT_INFO && info.from <= |info.parms| && i == |parms|
    requires Expects(info, s, cur, i, parms, from, curve) && Progress(KeyShape(info, s), s, cur, i, begin)
    ensures var shape := KeyShape(info, s);
            ReadPairs(s, shape.public) == Some(begin) && ReadPairs(begin, shape.secret) == Some(cur)
  {
    hide ReadPair, ReadPairs, KeyShape, Expects;
    FromIsPublic(info, s, cur, i, parms, from, curve);
    PairsDone(cur, KeyShape(info, s).secret);
  }

  /** The loop over the parameter list in agent_protect. */
  method ParamLoop(buf: bytes, start: nat, info: AlgoInfo)
    returns (ok: bool, protBegin: nat, protEnd: nat, end: nat)
    requires start <= |buf| && info in PROTECT_INFO && info.from <= |info.parms|
    ensures var s := buf[start..]; var shape := KeyShape(info, s);
            ok == (ReadPairs(s, shape.public).Some?
                   && ReadPairs(ReadPairs(s, shape.public).value, shape.secret).Some?)
    ensures ok ==> start <= protBegin <= protEnd < end <= |buf| && protEnd == end - 1 && buf[protEnd] == ')'
    ensures ok ==> var s := buf[start..]; var shape := KeyShape(info, s);
            && ReadPairs(s, shape.public) == Some(buf[protBegin..])
            && ReadPairs(buf[protBegin..], shape.secret) == Some(buf[end..])
  {
    hide ReadPair, ReadPairs, KeyShape, Expects, Progress, Letters;
    ghost var s := buf[start..];
    ghost var shape := KeyShape(info, s);
    var parms, from, to := info.parms, info.from, |info.parms| - 1;
    var curve := false;
    var i := 0;
    ok, protBegin, protEnd, end := true, start, start, start;
    LoopStart(info, s);
    KeyShapeBound(info, s);
    while i < |parms|
      invariant start <= protBegin <= end <= |buf|
      invariant to == |parms| - 1
      invariant i <= |parms|
      invariant Expects(info, s, buf[end..], i, parms, from, curve)
      invariant Progress(shape, s, buf[end..], i, buf[protBegin..])
      invariant i == |parms| ==> protBegin <= protEnd < end && protEnd == end - 1 && buf[protEnd] == ')'
      decreases |shape.public| + |shape.secret| - i
    {
      Restart(info, s, buf[end..], i, parms, from, curve, buf[protBegin..]);
      if i == from {
        protBegin := end;
      }
      var good, name, next := PairAt(buf, end);
      LoopRound(info, s, buf[end..], i, parms, from, curve, buf[protBegin..]);
      if !good {
        return false, start, start, start;
      }
      if name != [parms[i]] {
        if name == "curve" && i == 0 && info.ecc {
          curve, parms, from, to := true, "?qd", 2, 2;
        } else if name == "flags" && i == 1 && curve {
          parms, from, to := "??qd", 3, 3;
        } else {
          return false, start, start, start;
        }
      }
      if i == to {
        protEnd := next - 1;
      }
      end := next;
      i := i + 1;
    }
    LoopDone(info, s, buf[end..], i, parms, from, curve, buf[protBegin..]);
  }

  /** The linear search in protect_info. */
  method LookupAlgo(name: bytes) returns (i: nat)
    ensures i <= |PROTECT_INFO|
    ensures FindAlgo(name) == if i == |PROTECT_INFO| then None else Some(PROTECT_INFO[i])
  {
    i := 0;
    while i < |PROTECT_INFO| && PROTECT_INFO[i].name != name
      invariant i <= |PROTECT_INFO| && FindAlgo(name) == FindAlgo(name, i)
    {
      i := i + 1;
    }
  }

  /** The cursors that agent_protect has set when it starts to encrypt. */
  datatype Cuts = Cuts(hashBegin: nat, params: nat, protBegin: nat, protEnd: nat, realEnd: nat) {
    predicate Within(n: nat) {
      hashBegin <= params <= protBegin <= protEnd < realEnd < n
    }
    function PartsOf(plain: bytes): Parts
      requires Within(|plain|)
    {
      Parts(plain[..hashBegin], plain[hashBegin..params], plain[params..protBegin], plain[protBegin..protEnd + 1],
            plain[protEnd + 1..realEnd + 1])
    }
  }

  lemma UsedSlice(buf: bytes, i: nat, j: nat)
    requires i <= j <= |buf|
    ensures Used(buf[i..], buf[j..]) == buf[i..j]
    ensures i == 0 ==> Used(buf, buf[j..]) == buf[..j]
  {
  }

  /** From the algorithm name to the end of the key. */
  method CutParams(plain: bytes, hashBegin: nat, params: nat, info: AlgoInfo) returns (err: Option<Error>, c: Cuts)
    requires hashBegin <= params <= |plain| && info in PROTECT_INFO && info.from <= |info.parms|
    ensures err.Some? ==> SplitParams(plain[..hashBegin], plain[hashBegin..params], info, plain[params..]) == Err(err.value)
    ensures err.None? ==> c.Within(|plain|) && c.hashBegin == hashBegin && c.params == params
    ensures err.None? ==>
              SplitParams(plain[..hashBegin], plain[hashBegin..params], info, plain[params..]) == Ok(c.PartsOf(plain))
    ensures err.None? ==> plain[c.protEnd] == ')' && plain[c.protEnd + 1] == ')'
  {
    hide ReadPairs, KeyShape, Skip, Used;
    c := Cuts(0, 0, 0, 0, 0);
    var ok, protBegin, protEnd, s := ParamLoop(plain, params, info);
    if !ok || s == |plain| || plain[s] != ')' {
      return Some(InvSexp), c;
    }
    assert plain[s..][1..] == plain[s + 1..];
    var skipped, next := Sskip(plain, s + 1, 1);
    if !skipped {
      return Some(InvSexp), c;
    }
    UsedSlice(plain, params, protBegin);
    UsedSlice(plain, protBegin, s);
    UsedSlice(plain, s, next);
    SkipMoves(plain, s + 1, next);
    c := Cuts(hashBegin, params, protBegin, protEnd, next - 1);
    return None, c;
  }

  lemma SkipMoves(buf: bytes, i: nat, j: nat)
    requires i <= |buf| && j <= |buf| && Skip(buf[i..], 1, false) == Some(buf[j..])
    ensures i < j
  {
    assert |buf[j..]| < |buf[i..]|;
  }

  /** The parsing half of agent_protect. */
  method CutKey(plain: bytes) returns (err: Option<Error>, c: Cuts)
    ensures err.Some? ==> SplitKey(plain) == Err(err.value)
    ensures err.None? ==> c.Within(|plain|) && SplitKey(plain) == Ok(c.PartsOf(plain)) && c.params > 4
    ensures err.None? ==> plain[c.protEnd] == ')' && plain[c.protEnd + 1] == ')'
  {
    hide Token, SplitParams, FindAlgo, Used;
    c := Cuts(0, 0, 0, 0, 0);
    if plain == [] || plain[0] != '(' {
      return Some(InvSexp), c;
    }
    var n, s := Snext(plain, 1);
    if n == 0 || n > |plain| - s {
      return Some(InvSexp), c;
    }
    var hashBegin := s + n;
    if plain[s..hashBegin] != "private-key" || hashBegin == |plain| || plain[hashBegin] != '(' {
      return Some(UnknownSexp), c;
    }
    assert plain[hashBegin..][1..] == plain[hashBegin + 1..];
    var n', s' := Snext(plain, hashBegin + 1);
    if n' == 0 || n' > |plain| - s' {
      return Some(InvSexp), c;
    }
    var params := s' + n';
    var i := LookupAlgo(plain[s'..params]);
    if i == |PROTECT_INFO| {
      return Some(UnsupportedAlgorithm), c;
    }
    UsedSlice(plain, 0, hashBegin);
    UsedSlice(plain, hashBegin, params);
    assert |plain[s..hashBegin]| == 11;
    err, c := CutParams(plain, hashBegin, params, PROTECT_INFO[i]);
  }

  /**
   The clear text that do_encryption prepares: the framed parameters, in CBC
   mode with the integrity code and a block of padding, fill the buffer of the
   computed size exactly.
   */
  method FrameSecret(prot: bytes, mic: bytes, w: Sealing) returns (outbuf: array<octet>, encLen: nat)
    requires w.Valid() && |mic| == 20
    ensures fresh(outbuf)
    ensures w.ocb ==> outbuf[..] == Framed(prot, None) && encLen == outbuf.Length + 16
    ensures !w.ocb ==> var text := Framed(prot, Some(mic));
            outbuf[..] == text + w.padding && encLen == CbcLength(|text|) <= outbuf.Length
  {
    hide Flat, Framed;
    var outLen: nat, parts: seq<bytes>;
    if w.ocb {
      outLen := 2 + |prot| + 2;
      encLen := outLen + 16;
      parts := ["((", prot, "))"];
      FramedParts(prot);
    } else {
      outLen := 2 + |prot| + 2 + 6 + 6 + 23 + 2 + BLOCK;
      encLen := outLen / BLOCK * BLOCK;
      parts := ["((", prot, HASH_PREFIX, mic, "))", w.padding];
      HashedParts(prot, mic, w.padding);
    }
    outbuf := new octet[outLen];
    var p := PutAll(outbuf, parts);
    assert p == outLen;
    assert outbuf[..p] == outbuf[..];
  }

  lemma FramedParts(prot: bytes)
    ensures Flat(["((", prot, "))"]) == Framed(prot, None) && |Framed(prot, None)| == 2 + |prot| + 2
  {
    hide Flat;
    var three := ["((", prot, "))"];
    FlatFour("((", prot, "))", []);
    FlatMore(three, []);
    assert three + [[]] == ["((", prot, "))", []];
    assert Flat(three) + [] == Flat(three);
    assert "((" + prot + "))" + [] == "((" + prot + "" + "))";
  }

  lemma HashedParts(prot: bytes, mic: bytes, padding: bytes)
    requires |mic| == 20
    ensures Flat(["((", prot, HASH_PREFIX, mic, "))", padding]) == Framed(prot, Some(mic)) + padding
    ensures |Framed(prot, Some(mic))| == 2 + |prot| + 2 + 6 + 6 + 23 + 2
  {
    hide Flat;
    var four := ["((", prot, HASH_PREFIX, mic];
    FlatFour("((", prot, HASH_PREFIX, mic);
    FlatMore(four, "))");
    FlatMore(four + ["))"], padding);
    assert four + ["))"] + [padding] == ["((", prot, HASH_PREFIX, mic, "))", padding];
    assert |HASH_PREFIX| == 17;
    assert "((" + prot + HASH_PREFIX + mic + "))" == "((" + prot + (HASH_PREFIX + mic) + "))";
  }

  /** do_encryption: the protected list. */
  method DoEncryption(cr: Crypto, plain: bytes, c: Cuts, w: Sealing) returns (err: Option<Error>, list: bytes)
    requires cr.Lawful() && w.Valid() && c.Within(|plain|) && plain[c.protEnd + 1] == ')'
    ensures err == if w.passphrase == [] then Some(NoPassphrase) else None
    ensures err.None? ==> list == ProtectedList(w, Ciphertext(cr, c.PartsOf(plain), w))
  {
    hide ProtectedList, Framed, TimestampList;
    list := [];
    if w.passphrase == [] {
      return Some(NoPassphrase), list;
    }
    var key := cr.kdf(w.passphrase, w.salt, w.count, 16);
    var stamp := TimestampList(w.time);
    var before, prot, close := plain[c.hashBegin..c.protBegin], plain[c.protBegin..c.protEnd + 1],
                               plain[c.protEnd + 1..c.protEnd + 2];
    ghost var k := c.PartsOf(plain);
    assert before == k.inner + k.public;
    assert close == ")";
    var cipher;
    if w.ocb {
      var aad := before + stamp + close;
      var outbuf, encLen := FrameSecret(prot, seq(20, i => '\0'), w);
      var text := outbuf[..];
      cipher := cr.ocbEncrypt(Aes128, key, w.iv, text) + cr.ocbTag(Aes128, key, w.iv, aad, text);
    } else {
      var mic := cr.sha1(before + prot + stamp + close);
      var outbuf, encLen := FrameSecret(prot, mic, w);
      assert outbuf[..encLen] == outbuf[..][..encLen];
      cipher := cr.cbcEncrypt(Aes128, key, w.iv, outbuf[..encLen]);
    }
    list := ProtectedList(w, cipher);
    return None, list;
  }

  /**
   The result buffer of agent_protect has exactly the computed size: ten more
   octets than the copied prefix, the protected list, 35 octets of time stamp,
   and what follows the secret parameters.
   */
  method Assemble(plain: bytes, protBegin: nat, protEnd: nat, realEnd: nat, list: bytes, time: bytes)
    returns (result: array<octet>)
    requires 4 <= protBegin <= protEnd <= realEnd < |plain| && |time| == 15
    ensures fresh(result)
    ensures result[..] == "(21:protected-" + plain[4..protBegin] + list + TimestampList(time)
                          + plain[protEnd + 1..realEnd + 1]
  {
    hide Flat;
    var stamp := "(12:protected-at15:" + time + ")";
    var resultLen := 10 + protBegin + |list| + 35 + (realEnd - protEnd);
    result := new octet[resultLen];
    var before, tail := plain[4..protBegin], plain[protEnd + 1..realEnd + 1];
    var four: seq<bytes> := ["(21:protected-", before, list, stamp];
    FlatFour("(21:protected-", before, list, stamp);
    FlatMore(four, tail);
    var p := PutAll(result, four + [tail]);
    assert p == resultLen;
    assert result[..] == result[..p];
  }

  /** agent_protect. */
  method AgentProtect(cr: Crypto, plain: bytes, w: Sealing) returns (err: Option<Error>, result: array<octet>)
    requires cr.Lawful() && w.Valid()
    ensures fresh(result)
    ensures Protect(cr, plain, w) == if err.Some? then Err(err.value) else Ok(result[..])
  {
    hide SplitKey, Ciphertext, ProtectedList, Protect, TimestampList;
    result := new octet[0];
    var c, list;
    err, c := CutKey(plain);
    ProtectFails(cr, plain, w);
    if err.Some? {
      return;
    }
    err, list := DoEncryption(cr, plain, c, w);
    if err.Some? {
      return;
    }
    ghost var k := c.PartsOf(plain);
    assert |k.outer + k.inner + k.public| == c.protBegin;
    result := Assemble(plain, c.protBegin, c.protEnd, c.realEnd, list, w.time);
    ProtectParts(cr, plain, w, k);
  }

  lemma ProtectFails(cr: Crypto, plain: bytes, w: Sealing)
    requires cr.Lawful() && w.Valid()
    ensures SplitKey(plain).Err? ==> Protect(cr, plain, w) == Err(SplitKey(plain).error)
    ensures SplitKey(plain).Ok? && w.passphrase == [] ==> Protect(cr, plain, w) == Err(NoPassphrase)
  {
  }

  lemma ProtectParts(cr: Crypto, plain: bytes, w: Sealing, k: Parts)
    requires cr.Lawful() && w.Valid() && SplitKey(plain) == Ok(k) && w.passphrase != []
    requires 4 <= |k.outer + k.inner + k.public| <= |plain|
    ensures Protect(cr, plain, w) == Ok("(21:protected-" + plain[4..|k.outer + k.inner + k.public|]
                                        + ProtectedList(w, Ciphertext(cr, k, w)) + TimestampList(w.time) + k.tail)
  {
  }
}
