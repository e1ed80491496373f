/**
 Segments of canonical S-expressions, and the structure of the keys that agent_protect accepts.
 */
module KeyStructure {
  import opened Octets
  import opened Sexp
  import opened Protection

  // ----- segments: strings that are consumed completely

  ghost predicate TokSeg(x: bytes, data: bytes) {
    Token(x) == Tok(data, [])
  }

  ghost predicate PairSeg(x: bytes, name: bytes) {
    var p := ReadPair(x);
    p.Pair? && p.name == name && p.rest == []
  }

  ghost predicate PairsSeg(x: bytes, names: seq<bytes>) {
    ReadPairs(x, names) == Some([])
  }

  /** A complete list with the given name. */
  ghost predicate ListSeg(x: bytes, name: bytes) {
    && x != [] && x[0] == '('
    && Token(x[1..]).Tok?
    && Token(x[1..]).data == name
    && Scan(Token(x[1..]).rest, 1, false) == Some(0)
  }

  lemma TokSegFacts(x: bytes, data: bytes, r: bytes, depth: nat)
    requires TokSeg(x, data) && depth > 0
    ensures Token(x + r) == Tok(data, r)
    ensures x != [] && IsDigit(x[0])
    ensures Scan(x, depth, false) == Some(depth)
    ensures Scan(x, depth, true) == if x[0] == '0' then None else Some(depth)
  {
    TokenLocal(x, r);
    assert Used(x, []) == x;
    SkipToken(x, depth, false);
    SkipToken(x, depth, true);
  }

  lemma TokSegOf(s: bytes)
    requires Token(s).Tok?
    ensures TokSeg(Used(s, Token(s).rest), Token(s).data)
    ensures s == Used(s, Token(s).rest) + Token(s).rest
  {
    TokenLocal(s, []);
    var x := Used(s, Token(s).rest);
    assert x + [] == x;
  }

  lemma {:induction false} ScanShift(x: bytes, depth: nat, k: nat, canonical: bool)
    requires Scan(x, depth, canonical).Some?
    ensures Scan(x, depth + k, canonical) == Some(Scan(x, depth, canonical).value + k)
    decreases |x|
  {
    hide Token;
    if x == [] {
    } else if x[0] == '(' {
      ScanShift(x[1..], depth + 1, k, canonical);
    } else if x[0] == ')' {
      ScanShift(x[1..], depth - 1, k, canonical);
    } else {
      TokenLocal(x, []);
      ScanShift(Token(x).rest, depth, k, canonical);
    }
  }

  /** A complete list can be skipped, found by its name, or passed in the search for another one. */
  lemma ListSegFacts(x: bytes, name: bytes, r: bytes, depth: nat)
    requires ListSeg(x, name)
    ensures Token((x + r)[1..]) == Tok(name, Token(x[1..]).rest + r)
    ensures Skip(Token(x[1..]).rest + r, 1, false) == Some(r)
    ensures Skip((x + r)[1..], 1, false) == Some(r)
    ensures depth > 0 ==> Scan(x, depth, false) == Some(depth)
  {
    hide Token, Skip, Scan;
    var y := Token(x[1..]).rest;
    TokenLocal(x[1..], y + r);
    assert (x + r)[1..] == Used(x[1..], y) + (y + r);
    SkipScan(y, 1, r, false);
    SkipZero(r, false);
    SkipToken((x + r)[1..], 1, false);
    if depth > 0 {
      SkipToken(x[1..], 1, false);
      ScanShift(x[1..], 1, depth, false);
      Parens(x, depth, false);
    }
  }

  /** A pair is two token segments in parentheses. */
  lemma PairParts(s: bytes) returns (t: bytes, v: bytes)
    requires ReadPair(s).Pair?
    ensures var p := ReadPair(s);
            && TokSeg(t, p.name) && TokSeg(v, p.value)
            && Used(s, p.rest) == "(" + t + v + ")"
            && s == Used(s, p.rest) + p.rest
  {
    hide Token;
    var p := ReadPair(s);
    var s1 := Token(s[1..]).rest;
    var s2 := Token(s1).rest;
    TokSegOf(s[1..]);
    TokSegOf(s1);
    t, v := Used(s[1..], s1), Used(s1, s2);
    assert s2 == ")" + p.rest;
    PairGlue(s, t, s1, v, s2, p.rest);
  }

  lemma PairGlue(s: bytes, t: bytes, s1: bytes, v: bytes, s2: bytes, r: bytes)
    requires s != [] && s[0] == '(' && s[1..] == t + s1 && s1 == v + s2 && s2 == ")" + r
    ensures s == Used(s, r) + r && Used(s, r) == "(" + t + v + ")"
  {
    assert s == "(" + t + v + ")" + r;
    UsedPrefix("(" + t + v + ")", r);
  }

  lemma PairBuild(t: bytes, name: bytes, v: bytes, value: bytes, r: bytes)
    requires TokSeg(t, name) && TokSeg(v, value)
    ensures var x := "(" + t + v + ")";
            ReadPair(x + r) == Pair(name, value, r) && ListSeg(x, name)
  {
    hide Token, Scan, Skip;
    var x := "(" + t + v + ")";
    TokSegFacts(t, name, v + (")" + r), 1);
    TokSegFacts(v, value, ")" + r, 1);
    assert (x + r)[1..] == t + (v + (")" + r));
    assert (")" + r)[1..] == r;
    assert x[1..] == t + (v + ")");
    TokSegFacts(t, name, v + ")", 1);
    TokSegFacts(v, value, ")", 1);
    ScanConcat(v, ")", 1, false);
    Parens(")", 1, false);
    assert ")"[1..] == [];
    ScanEmpty(0, false);
  }

  lemma PairSegFacts(x: bytes, name: bytes, r: bytes)
    requires PairSeg(x, name)
    ensures x != [] && x[0] == '(' && ListSeg(x, name)
    ensures ReadPair(x + r) == Pair(name, ReadPair(x).value, r)
  {
    hide Token, ReadPair;
    var t, v := PairParts(x);
    assert Used(x, []) == x;
    PairBuild(t, name, v, ReadPair(x).value, r);
  }

  lemma PairSegOf(s: bytes)
    requires ReadPair(s).Pair?
    ensures var x := Used(s, ReadPair(s).rest);
            PairSeg(x, ReadPair(s).name) && s == x + ReadPair(s).rest && x != []
  {
    hide Token, ReadPair;
    var p := ReadPair(s);
    var t, v := PairParts(s);
    PairBuild(t, p.name, v, p.value, []);
    assert Used(s, p.rest) + [] == Used(s, p.rest);
  }

  lemma {:induction false} PairsSegOf(s: bytes, names: seq<bytes>)
    requires ReadPairs(s, names).Some?
    ensures var r := ReadPairs(s, names).value;
            |r| <= |s| && PairsSeg(Used(s, r), names) && s == Used(s, r) + r
    decreases |names|
  {
    hide ReadPair;
    var r := ReadPairs(s, names).value;
    if names == [] {
      assert Used(s, r) == [];
    } else {
      hide Used, Token;
      var rest := ReadPair(s).rest;
      PairsSegOf(rest, names[1..]);
      PairSegOf(s);
      PairSegFacts(Used(s, rest), names[0], Used(rest, r));
      UsedCompose(s, rest, r);
    }
  }

  /** The lists of a parameter block are passed by every loop that looks for something else. */
  lemma {:induction false} PairsSegFacts(x: bytes, names: seq<bytes>, r: bytes, other: bytes, depth: nat)
    requires PairsSeg(x, names) && depth > 0
    ensures ReadPairs(x + r, names) == Some(r)
    ensures SkipPairs(x + r) == SkipPairs(r)
    ensures Scan(x, depth, false) == Some(depth)
    ensures other !in names ==> FindList(x + r, other) == FindList(r, other)
    ensures "protected-at" !in names ==> FindTime(x + r) == FindTime(r)
    decreases |names|
  {
    hide Token, ReadPair, Skip, Scan;
    if names == [] {
      assert x + r == r;
      ScanEmpty(depth, false);
    } else {
      PairSegOf(x);
      var rest := ReadPair(x).rest;
      var p := Used(x, rest);
      var name := names[0];
      assert x + r == p + (rest + r);
      PairSegFacts(p, name, rest + r);
      ListSegFacts(p, name, rest + r, depth);
      PairsSegFacts(rest, names[1..], r, other, depth);
      ScanConcat(p, rest, depth, false);
    }
  }

  lemma TokSegText(ds: bytes, data: bytes)
    requires AllDigits(ds) && Value(ds) == |data| > 0
    ensures TokSeg(ds + ":" + data, data)
  {
    TokenAppend(ds, data, []);
    assert ds + ":" + data + [] == ds + ":" + data;
  }

  lemma TokSegOfToken(data: bytes)
    requires data != []
    ensures TokSeg(TokenOf(data), data) && TokenOf(data)[0] != '0'
  {
    TokenOfAppend(data, []);
    assert TokenOf(data) + [] == TokenOf(data);
  }

  lemma TokSegSplit(x: bytes, data: bytes) returns (ds: bytes)
    requires TokSeg(x, data)
    ensures ds != [] && AllDigits(ds) && Value(ds) == |data| && x == ds + ":" + data
  {
    var k := DigitCount(x);
    ds := x[..k];
    assert x[..0] == [];
    assert x == x[..k] + [x[k]] + x[k + 1..];
  }

  // ----- encoding keys

  datatype Param = Param(name: bytes, value: bytes)

  function ParamText(p: Param): bytes {
    "(" + TokenOf(p.name) + TokenOf(p.value) + ")"
  }

  function ParamsText(ps: seq<Param>): bytes {
    if ps == [] then [] else ParamText(ps[0]) + ParamsText(ps[1..])
  }

  /** The canonical encoding of a key of a type with its parameters and everything behind them. */
  function TypedText(name: bytes, algo: bytes, ps: seq<Param>, tail: bytes): bytes {
    "(" + TokenOf(name) + "(" + TokenOf(algo) + ParamsText(ps) + ")" + tail
  }

  function KeyText(algo: bytes, ps: seq<Param>, tail: bytes): bytes {
    TypedText("private-key", algo, ps, tail)
  }

  // ----- the structure of a key that agent_protect accepts

  /** The name of the algorithm, its token and the parameter names that a key was split with. */
  datatype Frame = Frame(head: bytes, token: bytes, algo: bytes, public: seq<bytes>, secret: seq<bytes>)

  ghost predicate Framing(k: Parts, f: Frame) {
    && k.outer == "(" + f.head && TokSeg(f.head, "private-key")
    && k.inner == "(" + f.token && TokSeg(f.token, f.algo) && FindAlgo(f.algo).Some?
    && PairsSeg(k.public, f.public) && PairsSeg(k.secret, f.secret)
    && "protected" !in f.public && "protected-at" !in f.public
    && k.tail != [] && k.tail[0] == ')' && Scan(k.tail[1..], 1, false) == Some(0)
  }

  lemma LettersShort(s: bytes, name: bytes)
    requires |name| != 1
    ensures name !in Letters(s)
  {
    assert forall i :: 0 <= i < |Letters(s)| ==> |Letters(s)[i]| == 1;
  }

  lemma ShapeNames(info: AlgoInfo, s: bytes)
    requires info.from <= |info.parms|
    ensures "protected" !in KeyShape(info, s).public && "protected-at" !in KeyShape(info, s).public
  {
    hide ReadPair;
    LettersShort(info.parms[..info.from], "protected");
    LettersShort(info.parms[..info.from], "protected-at");
    assert |"curve"| == 5 && |"flags"| == 5 && |"q"| == 1;
    assert |"protected"| == 9 && |"protected-at"| == 12;
  }

  lemma SplitParamsFrame(outer: bytes, inner: bytes, info: AlgoInfo, s: bytes) returns (after: bytes)
    requires info.from <= |info.parms|
    requires SplitParams(outer, inner, info, s).Ok?
    ensures var k := SplitParams(outer, inner, info, s).value; var shape := KeyShape(info, s);
            && k.outer == outer && k.inner == inner
            && PairsSeg(k.public, shape.public) && PairsSeg(k.secret, shape.secret)
            && k.tail != [] && k.tail[0] == ')' && Scan(k.tail[1..], 1, false) == Some(0)
            && s == k.public + k.secret + k.tail + after
  {
    hide ReadPairs, Skip, Scan, KeyShape;
    var shape := KeyShape(info, s);
    var s1 := ReadPairs(s, shape.public).value;
    var s2 := ReadPairs(s1, shape.secret).value;
    after := Skip(s2[1..], 1, false).value;
    PairsSegOf(s, shape.public);
    PairsSegOf(s1, shape.secret);
    CloseUsed(s2, after);
    Glue(s, Used(s, s1), s1, Used(s1, s2), s2, Used(s2, after), after);
  }

  lemma CloseUsed(s: bytes, after: bytes)
    requires Head(s) == ')' && Skip(s[1..], 1, false) == Some(after)
    ensures var x := Used(s, after); s == x + after && x != [] && x[0] == ')' && Scan(x[1..], 1, false) == Some(0)
  {
    hide Skip, Scan, Used;
    SkipUsed(s[1..], 1, false);
    UsedHead(s, after);
    var u := Used(s[1..], after);
    assert s == [s[0]] + (u + after) == ([s[0]] + u) + after;
    assert ([s[0]] + u)[1..] == u;
  }

  lemma Glue(s: bytes, a: bytes, s1: bytes, b: bytes, s2: bytes, c: bytes, s3: bytes)
    requires s == a + s1 && s1 == b + s2 && s2 == c + s3
    ensures s == a + b + c + s3
  {
  }

  lemma AlgoBound(algo: bytes)
    requires FindAlgo(algo).Some?
    ensures FindAlgo(algo).value.from <= |FindAlgo(algo).value.parms|
  {
    assert forall i :: 0 <= i < |PROTECT_INFO| ==> PROTECT_INFO[i].from <= |PROTECT_INFO[i].parms|;
  }

  lemma SplitKeyFrame(plain: bytes) returns (f: Frame, after: bytes)
    requires SplitKey(plain).Ok?
    ensures Framing(SplitKey(plain).value, f)
    ensures plain == SplitKey(plain).value.Whole() + after
  {
    hide Token, FindAlgo, SplitParams, Scan, ReadPairs, KeyShape, Used, TokSeg, PairsSeg;
    var k := SplitKey(plain).value;
    OpenToken(plain);
    var s := Token(plain[1..]).rest;
    OpenToken(s);
    var Tok(algo, s') := Token(s[1..]);
    var info := FindAlgo(algo).value;
    AlgoBound(algo);
    after := SplitParamsFrame(Used(plain, s), Used(s, s'), info, s');
    ShapeNames(info, s');
    f := Frame(Used(plain[1..], s), Used(s[1..], s'), algo, KeyShape(info, s').public, KeyShape(info, s').secret);
    KeyGlue(plain, k, s, s', after);
  }

  /** An opening parenthesis and the token behind it. */
  lemma OpenToken(s: bytes)
    requires Head(s) == '(' && Token(s[1..]).Tok?
    ensures var t := Token(s[1..]);
            TokSeg(Used(s[1..], t.rest), t.data) && Used(s, t.rest) == "(" + Used(s[1..], t.rest) && s == Used(s, t.rest) + t.rest
  {
    hide Token;
    TokSegOf(s[1..]);
    assert s == "(" + s[1..];
  }

  lemma KeyGlue(plain: bytes, k: Parts, s: bytes, s': bytes, after: bytes)
    requires plain == k.outer + s && s == k.inner + s' && s' == k.public + k.secret + k.tail + after
    ensures plain == k.Whole() + after
  {
  }
}
