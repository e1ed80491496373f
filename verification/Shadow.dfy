/**
 Keys whose secret parts are stored elsewhere: the shadow key functions of
 agent/protect.c.
 */
module Shadow {
  import opened Octets
  import opened Buffers
  import opened Hex
  import opened Sexp
  import opened Protection
  import opened KeyStructure
  import opened ProtectLoops
  import opened UnprotectLoops

  // ----- shadow info: a serial number and an id

  /** The octets of a string of hex digits; an odd last digit is dropped. */
  function HexOctets(s: bytes): bytes {
    if |s| < 2 then [] else [Octet(s[0], s[1])] + HexOctets(s[2..])
  }

  /** bin2hex. */
  function BinToHex(s: bytes): bytes {
    if s == [] then [] else [HexDigit(s[0] as int / 16 % 16), HexDigit(s[0] as int % 16)] + BinToHex(s[1..])
  }

  /** make_shadow_info; the length of an empty string is written as 0. */
  function ShadowInfo(serialno: bytes, id: bytes): bytes {
    "(" + TokenOf(HexOctets(serialno)) + TokenOf(id) + ")"
  }

  /** parse_shadow_info without the length of the PIN. */
  function ParseInfo(info: bytes): Result<(bytes, bytes)> {
    if Head(info) != '(' then Err(InvSexp)
    else
      match Token(info[1..])
      case NoTok => Err(InvSexp)
      case Tok(sn, s) =>
        match Token(s)
        case NoTok => Err(InvSexp)
        case Tok(id, _) => Ok((BinToHex(sn), id))
  }

  /** The macro xtoi_2 of common/util.h, stored in an octet. */
  function Octet(a: octet, b: octet): octet {
    ((16 * HexValue(a) + HexValue(b)) % 256) as char
  }

  lemma OctetDigits(a: octet, b: octet)
    requires IsHex(a) && IsHex(b)
    ensures var c := Octet(a, b); HexDigit(c as int / 16 % 16) == Upper(a) && HexDigit(c as int % 16) == Upper(b)
  {
    hide HexValue, HexDigit, Upper;
    var h, l := HexValue(a), HexValue(b);
    var c := Octet(a, b);
    Nibbles(h, l);
    assert c as int == 16 * h + l;
    DigitBack(a);
    DigitBack(b);
  }

  lemma Nibbles(h: nat, l: nat)
    requires h < 16 && l < 16
    ensures (16 * h + l) % 256 == 16 * h + l && (16 * h + l) / 16 % 16 == h && (16 * h + l) % 16 == l
  {
  }

  lemma DigitBack(c: octet)
    requires IsHex(c)
    ensures HexDigit(HexValue(c)) == Upper(c)
  {
  }

  lemma UppersTwo(s: bytes)
    requires |s| >= 2
    ensures Uppers(s) == [Upper(s[0]), Upper(s[1])] + Uppers(s[2..])
  {
    assert s[1..][1..] == s[2..];
  }

  /** The part of a serial number that is used. */
  function Even(s: bytes): bytes {
    s[..|s| / 2 * 2]
  }

  lemma {:induction false} HexBack(s: bytes)
    ensures |HexOctets(s)| == |s| / 2
    ensures AllHex(Even(s)) ==> BinToHex(HexOctets(s)) == Uppers(Even(s))
  {
    hide HexValue, HexDigit, Upper, Uppers;
    if |s| >= 2 {
      HexBack(s[2..]);
      var x := Even(s);
      assert x[2..] == Even(s[2..]);
      UppersTwo(x);
      if AllHex(x) {
        assert s[0] == x[0] && s[1] == x[1];
        OctetDigits(s[0], s[1]);
      }
      var c := Octet(s[0], s[1]);
      assert HexOctets(s) == [c] + HexOctets(s[2..]);
      assert HexOctets(s)[0] == c && HexOctets(s)[1..] == HexOctets(s[2..]);
    } else {
      assert s[..0] == [];
      NoUppers();
    }
  }

  lemma {:induction false} OnlyHex(s: bytes)
    ensures AllHex(BinToHex(s))
  {
    if s != [] {
      OnlyHex(s[1..]);
    }
  }

  /** Hex digits to octets and back is upper case, without an odd last digit; nothing else comes back as itself. */
  lemma HexRoundTrip(s: bytes)
    ensures |HexOctets(s)| == |s| / 2
    ensures BinToHex(HexOctets(s)) == Uppers(Even(s)) <==> AllHex(Even(s))
  {
    hide HexOctets, BinToHex, Uppers;
    HexBack(s);
    var x := Even(s);
    if BinToHex(HexOctets(s)) == Uppers(x) {
      OnlyHex(HexOctets(s));
      forall i | 0 <= i < |x|
        ensures IsHex(x[i])
      {
        UppersAt(x, i);
        assert IsHex(Upper(x[i]));
      }
    }
  }

  /**
   An info is parsed, whatever follows it, if and only if neither string is
   empty; then the id is read back, and the serial number, in upper case and
   without an odd last digit, if and only if it consists of hex digits.
   */
  lemma InfoRoundTrip(serialno: bytes, id: bytes, r: bytes)
    ensures var p := ParseInfo(ShadowInfo(serialno, id) + r);
            if |serialno| < 2 || id == [] then p == Err(InvSexp)
            else p.Ok? && p.value.1 == id && (p.value.0 == Uppers(Even(serialno)) <==> AllHex(Even(serialno)))
  {
    hide Token, TokenOf, HexOctets, BinToHex, Uppers;
    var sn := HexOctets(serialno);
    HexRoundTrip(serialno);
    var info := ShadowInfo(serialno, id) + r;
    assert info[1..] == TokenOf(sn) + (TokenOf(id) + (")" + r));
    if sn == [] {
      TokenOfEmpty(TokenOf(id) + (")" + r));
    } else {
      TokenOfAppend(sn, TokenOf(id) + (")" + r));
      if id == [] {
        TokenOfEmpty(")" + r);
      } else {
        TokenOfAppend(id, ")" + r);
      }
    }
  }

  /** An info that can be read back is one canonical expression. */
  lemma InfoCanonical(serialno: bytes, id: bytes)
    requires |serialno| >= 2 && id != []
    ensures var info := ShadowInfo(serialno, id); CanonLen(info, 0) == |info|
  {
    hide Token, TokenOf, HexOctets, Skip;
    HexRoundTrip(serialno);
    var sn := HexOctets(serialno);
    var info := ShadowInfo(serialno, id);
    assert info[1..] == TokenOf(sn) + (TokenOf(id) + ")");
    TokenOfAppend(sn, TokenOf(id) + ")");
    SkipToken(info[1..], 1, true);
    TokenOfAppend(id, ")");
    SkipToken(TokenOf(id) + ")", 1, true);
    Parens(")", 1, true);
    SkipZero([], true);
  }

  /** parse_shadow_info up to the length of the PIN. */
  method ParseShadowInfo(info: bytes) returns (r: Result<(bytes, bytes)>)
    ensures r == ParseInfo(info)
  {
    hide Token, BinToHex;
    if info == [] || info[0] != '(' {
      return Err(InvSexp);
    }
    var n, s := Snext(info, 1);
    if n == 0 || n > |info| - s {
      return Err(InvSexp);
    }
    var hexsn := ToHexLoop(info[s..s + n]);
    var m, t := Snext(info, s + n);
    if m == 0 || m > |info| - t {
      return Err(InvSexp);
    }
    return Ok((hexsn, info[t..t + m]));
  }

  lemma {:induction false} HexAppend(s: bytes, c: octet)
    ensures BinToHex(s + [c]) == BinToHex(s) + [HexDigit(c as int / 16 % 16), HexDigit(c as int % 16)]
  {
    if s == [] {
      assert s + [c] == [c] && [c][1..] == [];
      assert BinToHex([c][1..]) == [];
    } else {
      assert (s + [c])[1..] == s[1..] + [c];
      HexAppend(s[1..], c);
    }
  }

  method ToHexLoop(s: bytes) returns (hex: bytes)
    ensures hex == BinToHex(s)
  {
    hex := [];
    for i := 0 to |s|
      invariant hex == BinToHex(s[..i])
    {
      assert s[..i + 1] == s[..i] + [s[i]];
      HexAppend(s[..i], s[i]);
      hex := hex + [HexDigit(s[i] as int / 16 % 16), HexDigit(s[i] as int % 16)];
    }
    assert s[..|s|] == s;
  }

  /** The loop of make_shadow_info over pairs of digits. */
  method HexLoop(serialno: bytes) returns (octets: bytes)
    ensures octets == HexOctets(serialno)
  {
    hide HexValue, HexOctets, Octet;
    var s := 0;
    octets := [];
    assert serialno[0..] == serialno;
    assert [] + HexOctets(serialno) == HexOctets(serialno);
    while s + 1 < |serialno|
      invariant s <= |serialno|
      invariant octets + HexOctets(serialno[s..]) == HexOctets(serialno)
    {
      HexStep(serialno, s);
      var c := Octet(serialno[s], serialno[s + 1]);
      ghost var more := HexOctets(serialno[s + 2..]);
      assert octets + ([c] + more) == (octets + [c]) + more;
      octets := octets + [c];
      s := s + 2;
    }
    HexStep(serialno, s);
    assert octets + [] == octets;
  }

  lemma HexStep(s: bytes, i: nat)
    requires i <= |s|
    ensures HexOctets(s[i..]) == if i + 1 < |s| then [Octet(s[i], s[i + 1])] + HexOctets(s[i + 2..]) else []
  {
    hide Octet;
    if i + 1 < |s| {
      assert s[i..][2..] == s[i + 2..];
    }
  }

  /** make_shadow_info. */
  method MakeShadowInfo(serialno: bytes, id: bytes) returns (info: bytes)
    ensures info == ShadowInfo(serialno, id)
  {
    hide Dec, HexOctets;
    var n, s := 0, 0;
    while s + 1 < |serialno|
      invariant s == 2 * n && s <= |serialno|
    {
      n, s := n + 1, s + 2;
    }
    HexRoundTrip(serialno);
    var octets := HexLoop(serialno);
    info := "(" + (Dec(n) + ":" + octets) + (Dec(|id|) + ":" + id) + ")";
  }

  // ----- shadowed keys

  /** The cursor behind the last parameter of a public key. */
  function PublicPoint(pub: bytes): Result<bytes> {
    if Head(pub) != '(' then Err(InvSexp)
    else
      match Token(pub[1..])
      case NoTok => Err(InvSexp)
      case Tok(name, s) =>
        if name != "public-key" || Head(s) != '(' then Err(UnknownSexp)
        else
          match Token(s[1..])
          case NoTok => Err(InvSexp)
          case Tok(_, s') =>
            match SkipPairs(s')
            case None => Err(InvSexp)
            case Some(point) => if Head(point) != ')' then Err(InvSexp) else Ok(point)
  }

  /** The parts of a public key, with the names of its parameters. */
  datatype PublicFrame = PublicFrame(head: bytes, token: bytes, algo: bytes, params: bytes, names: seq<bytes>)

  ghost predicate PublicFraming(pub: bytes, f: PublicFrame, point: bytes) {
    && TokSeg(f.head, "public-key") && TokSeg(f.token, f.algo) && PairsSeg(f.params, f.names)
    && pub == "(" + (f.head + ("(" + (f.token + (f.params + point))))
    && Head(point) == ')'
  }

  lemma {:induction false} PairNames(s: bytes) returns (names: seq<bytes>)
    requires SkipPairs(s).Some?
    ensures ReadPairs(s, names) == SkipPairs(s)
    decreases |s|
  {
    hide ReadPair;
    if Head(s) != '(' {
      names := [];
    } else {
      PairSegOf(s);
      var more := PairNames(ReadPair(s).rest);
      names := [ReadPair(s).name] + more;
      assert names[1..] == more;
    }
  }

  lemma PublicParts(pub: bytes) returns (f: PublicFrame)
    requires PublicPoint(pub).Ok?
    ensures PublicFraming(pub, f, PublicPoint(pub).value)
  {
    hide Token, SkipPairs, ReadPairs, Used, TokSeg;
    var s := Token(pub[1..]).rest;
    var s' := Token(s[1..]).rest;
    var point := PublicPoint(pub).value;
    OpenToken(pub);
    OpenToken(s);
    var names := PairNames(s');
    PairsSegOf(s', names);
    f := PublicFrame(Used(pub[1..], s), Used(s[1..], s'), Token(s[1..]).data, Used(s', point), names);
    PublicGlue(pub, f.head, s, f.token, s', f.params, point);
  }

  lemma PublicGlue(pub: bytes, head: bytes, s: bytes, token: bytes, s': bytes, params: bytes, point: bytes)
    requires pub == "(" + head + s && s == "(" + token + s' && s' == params + point
    ensures pub == "(" + (head + ("(" + (token + (params + point))))
  {
  }

  /** The insertion point is inside the key. */
  lemma PointInside(pub: bytes)
    requires PublicPoint(pub).Ok? && CanonLen(pub, 0) > 0
    ensures 14 <= |pub| - |PublicPoint(pub).value| < CanonLen(pub, 0)
  {
    hide Token, Skip, PublicPoint, Scan, ReadPairs;
    var f := PublicParts(pub);
    var point := PublicPoint(pub).value;
    var r1 := f.params + point;
    var r2 := "(" + (f.token + r1);
    assert pub[1..] == f.head + r2;
    TokSegLong(f.head, "public-key");
    TokSegFacts(f.head, "public-key", r2, 1);
    CanonicalSkip(pub[1..], 1);
    SkipScan(f.head, 1, r2, false);
    Parens(r2, 1, false);
    assert r2[1..] == f.token + r1;
    TokSegFacts(f.token, f.algo, r1, 2);
    SkipScan(f.token, 2, r1, false);
    PairsSegFacts(f.params, f.names, point, "protected", 2);
    SkipScan(f.params, 2, point, false);
    SkipDrops(point, 2);
  }

  lemma SkipDrops(s: bytes, depth: nat)
    requires depth > 0 && Skip(s, depth, false).Some?
    ensures |Skip(s, depth, false).value| < |s|
  {
  }

  lemma TokSegLong(x: bytes, data: bytes)
    requires TokSeg(x, data)
    ensures |x| >= |data| + 2
  {
    TokenLocal(x, []);
  }

  const T1: bytes := "t1-v1"
  const TPM2: bytes := "tpm2-v1"

  /** The list that marks a shadowed key. */
  function ShadowList(kind: bytes, info: bytes): bytes {
    "(8:shadowed" + TokenOf(kind) + info + ")"
  }

  /** agent_shadow_key_type. */
  function ShadowKey(pub: bytes, info: bytes, kind: bytes): Result<bytes> {
    var n, m := CanonLen(pub, 0), CanonLen(info, 0);
    if n == 0 || m == 0 then Err(InvValue)
    else
      match PublicPoint(pub)
      case Err(e) => Err(e)
      case Ok(s) =>
        PointInside(pub);
        var point := |pub| - |s|;
        Ok("(20:shadowed-private-key" + pub[14..point] + ShadowList(kind, info[..m]) + pub[point..n])
  }

  /** The octets that agent_shadow_key_type allocates. */
  function ShadowSize(n: nat, m: nat): nat {
    12 + n + 1 + 3 + 8 + 2 + 5 + m + 1
  }

  lemma {:induction false} DecLength(n: nat)
    ensures n < 10 ==> |Dec(n)| == 1
    ensures n >= 10 ==> |Dec(n)| >= 2
  {
  }

  /** The allocated size suffices if and only if the name of the kind has at most eight octets. */
  lemma ShadowFits(pub: bytes, info: bytes, kind: bytes)
    requires ShadowKey(pub, info, kind).Ok?
    ensures |ShadowKey(pub, info, kind).value| <= ShadowSize(CanonLen(pub, 0), CanonLen(info, 0)) <==> |kind| <= 8
  {
    hide PublicPoint, CanonLen, Dec;
    PointInside(pub);
    DecLength(|kind|);
  }

  datatype Shadowing = Failed(error: Error) | Overrun | Stored(len: nat)

  /** agent_shadow_key_type with its buffer; the model stops before it would write behind the end. */
  method AgentShadowKey(pub: bytes, info: bytes, kind: bytes) returns (r: Shadowing, result: array<octet>)
    ensures fresh(result)
    ensures match r
            case Failed(e) => ShadowKey(pub, info, kind) == Err(e)
            case Overrun => ShadowKey(pub, info, kind).Ok? && |kind| > 8
            case Stored(len) => |kind| <= 8 && len <= result.Length && ShadowKey(pub, info, kind) == Ok(result[..len])
  {
    hide CanonLen, PublicPoint, Dec, ShadowList;
    result := new octet[0];
    var n, m := CanonLen(pub, 0), CanonLen(info, 0);
    if n == 0 || m == 0 {
      return Failed(InvValue), result;
    }
    var err, point := PublicPointAt(pub);
    if err.Some? {
      return Failed(err.value), result;
    }
    PointInside(pub);
    ShadowFits(pub, info, kind);
    result := new octet[ShadowSize(n, m)];
    assert |pub| - |pub[point..]| == point;
    ShadowText(pub, info, kind, pub[point..]);
    var a, b, c, d := "(20:shadowed-private-key", pub[14..point], ShadowList(kind, info[..m]), pub[point..n];
    if |a| + |b| + |c| + |d| > result.Length {
      return Overrun, result;
    }
    var len := PutFour(result, a, b, c, d);
    return Stored(len), result;
  }

  /** The four parts of the result one after the other. */
  method PutFour(out: array<octet>, a: bytes, b: bytes, c: bytes, d: bytes) returns (len: nat)
    requires |a + b + c + d| <= out.Length
    modifies out
    ensures len <= out.Length && out[..len] == a + b + c + d
  {
    hide Flat;
    FlatFour(a, b, c, d);
    len := PutAll(out, [a, b, c, d]);
  }

  lemma ShadowText(pub: bytes, info: bytes, kind: bytes, s: bytes)
    requires CanonLen(pub, 0) > 0 && CanonLen(info, 0) > 0 && PublicPoint(pub) == Ok(s)
    requires 14 <= |pub| - |s| <= CanonLen(pub, 0)
    ensures ShadowKey(pub, info, kind) ==
            Ok("(20:shadowed-private-key" + pub[14..|pub| - |s|] + ShadowList(kind, info[..CanonLen(info, 0)])
               + pub[|pub| - |s|..CanonLen(pub, 0)])
  {
    hide CanonLen, PublicPoint, ShadowList;
  }

  /** The parsing half of agent_shadow_key_type. */
  method PublicPointAt(pub: bytes) returns (err: Option<Error>, point: nat)
    ensures err.Some? ==> PublicPoint(pub) == Err(err.value)
    ensures err.None? ==> point <= |pub| && PublicPoint(pub) == Ok(pub[point..])
  {
    hide Token, SkipPairs;
    if pub == [] || pub[0] != '(' {
      return Some(InvSexp), 0;
    }
    var n, name := Snext(pub, 1);
    if n == 0 || n > |pub| - name {
      return Some(InvSexp), 0;
    }
    var s := name + n;
    if pub[name..s] != "public-key" || s == |pub| || pub[s] != '(' {
      return Some(UnknownSexp), 0;
    }
    assert pub[s..][1..] == pub[s + 1..];
    var n', algo := Snext(pub, s + 1);
    if n' == 0 || n' > |pub| - algo {
      return Some(InvSexp), 0;
    }
    var ok;
    ok, point := SkipPairsAt(pub, algo + n');
    if !ok || point == |pub| || pub[point] != ')' {
      return Some(InvSexp), 0;
    }
    return None, point;
  }

  // ----- reading the shadow info back

  /** The cursor behind the name of the shadowed list. */
  function FindShadowed(s: bytes): Result<bytes>
    decreases |s|
  {
    if Head(s) == ')' then Err(UnknownSexp)
    else if Head(s) != '(' then Err(InvSexp)
    else
      match Token(s[1..])
      case NoTok => Err(InvSexp)
      case Tok(name, r) =>
        if name == "shadowed" then Ok(r)
        else
          match ReadPair(s)
          case NoPair => Err(InvSexp)
          case Pair(_, _, rest) => FindShadowed(rest)
  }

  /** The kind of the shadowed key and the cursor at its info. */
  function ReadShadowed(s: bytes): Result<(bytes, bytes)> {
    match FindShadowed(s)
    case Err(e) => Err(e)
    case Ok(r) =>
      match Token(r)
      case NoTok => Err(InvSexp)
      case Tok(kind, r') =>
        if kind != T1 && kind != TPM2 then Err(UnsupportedProtocol)
        else if Head(r') != '(' then Err(InvSexp)
        else Ok((kind, r'))
  }

  /** agent_get_shadow_info_type. */
  function GetShadowInfo(key: bytes): Result<(bytes, bytes)> {
    if Head(key) != '(' then Err(InvSexp)
    else
      match Token(key[1..])
      case NoTok => Err(InvSexp)
      case Tok(name, s) =>
        if name != "shadowed-private-key" || Head(s) != '(' then Err(UnknownSexp)
        else
          match Token(s[1..])
          case NoTok => Err(InvSexp)
          case Tok(_, s') => ReadShadowed(s')
  }

  /** The search passes parameters with other names; a parameter that is called like the list ends it. */
  lemma {:induction false} ShadowSearch(x: bytes, names: seq<bytes>, r: bytes)
    requires PairsSeg(x, names)
    ensures "shadowed" !in names ==> FindShadowed(x + r) == FindShadowed(r)
    ensures "shadowed" in names ==> ReadShadowed(x + r).Err?
    decreases |names|
  {
    hide Token, ReadPair;
    if names == [] {
      assert x + r == r;
    } else {
      PairSegOf(x);
      var rest := ReadPair(x).rest;
      var p := Used(x, rest);
      assert x + r == p + (rest + r);
      var t, v := PairParts(x);
      var value := ReadPair(x).value;
      PairSegFacts(p, names[0], rest + r);
      assert (p + (rest + r))[1..] == t + (v + (")" + (rest + r)));
      TokSegFacts(t, names[0], v + (")" + (rest + r)), 1);
      TokSegFacts(v, value, ")" + (rest + r), 1);
      if names[0] != "shadowed" {
        ShadowSearch(rest, names[1..], r);
        assert names == [names[0]] + names[1..];
      }
    }
  }

  lemma ShadowListRead(kind: bytes, info: bytes, r: bytes)
    requires kind == T1 || kind == TPM2
    requires Head(info) == '('
    ensures ReadShadowed(ShadowList(kind, info) + r) == Ok((kind, info + (")" + r)))
  {
    hide Token, TokenOf, ReadPair, Value;
    var rest := info + (")" + r);
    var s := ShadowList(kind, info) + r;
    assert s == "(" + ("8:shadowed" + (TokenOf(kind) + rest));
    assert "8:shadowed" == ['8'] + ":" + "shadowed";
    ValueOne('8');
    TokenAppend(['8'], "shadowed", TokenOf(kind) + rest);
    assert s[1..] == ['8'] + ":" + "shadowed" + (TokenOf(kind) + rest);
    TokenOfAppend(kind, rest);
  }

  /**
   The shadow info of a shadowed key is read back, with its kind, if and only if
   no parameter of the public key is itself called "shadowed".
   */
  lemma ShadowRoundTrip(pub: bytes, info: bytes, kind: bytes, f: PublicFrame)
    requires ShadowKey(pub, info, kind).Ok? && (kind == T1 || kind == TPM2)
    requires PublicFraming(pub, f, PublicPoint(pub).value)
    ensures var r := GetShadowInfo(ShadowKey(pub, info, kind).value);
            if "shadowed" in f.names then r.Err?
            else r.Ok? && r.value.0 == kind
                 && CanonLen(r.value.1, 0) == CanonLen(info, 0) && r.value.1[..CanonLen(info, 0)] == info[..CanonLen(info, 0)]
  {
    hide Token, PublicPoint, ShadowList, ReadShadowed, ReadPairs, CanonLen;
    var s := PublicPoint(pub).value;
    var n, m := CanonLen(pub, 0), CanonLen(info, 0);
    PointInside(pub);
    var point := |pub| - |s|;
    PublicHeadIs(pub, f, s);
    var list, tail := ShadowList(kind, info[..m]), pub[point..n];
    var key := ShadowKey(pub, info, kind).value;
    var body := f.params + (list + tail);
    ShadowKeyText(pub, f, s, list, tail);
    assert key == "(" + ("20:shadowed-private-key" + ("(" + (f.token + body)));
    ShadowHeadSeg();
    TokSegFacts("20:shadowed-private-key", "shadowed-private-key", "(" + (f.token + body), 1);
    assert key[1..] == "20:shadowed-private-key" + ("(" + (f.token + body));
    assert ("(" + (f.token + body))[1..] == f.token + body;
    TokSegFacts(f.token, f.algo, body, 1);
    ShadowSearch(f.params, f.names, list + tail);
    if "shadowed" !in f.names {
      ShadowPass(f.params, list + tail);
    }
    InfoHead(info);
    ShadowListRead(kind, info[..m], tail);
    InfoLength(info, ")" + tail);
  }

  /**
   The serial number and the id that a key was shadowed with are what is parsed
   from the info found in the shadowed key.
   */
  lemma CardRoundTrip(pub: bytes, serialno: bytes, id: bytes, kind: bytes, f: PublicFrame)
    requires |serialno| >= 2 && id != [] && AllHex(serialno)
    requires ShadowKey(pub, ShadowInfo(serialno, id), kind).Ok? && (kind == T1 || kind == TPM2)
    requires PublicFraming(pub, f, PublicPoint(pub).value) && "shadowed" !in f.names
    ensures var r := GetShadowInfo(ShadowKey(pub, ShadowInfo(serialno, id), kind).value);
            r.Ok? && r.value.0 == kind && ParseInfo(r.value.1) == Ok((Uppers(Even(serialno)), id))
  {
    hide ShadowKey, GetShadowInfo, ShadowInfo, PublicPoint, CanonLen, ParseInfo, Uppers, PublicFraming;
    var info := ShadowInfo(serialno, id);
    ShadowRoundTrip(pub, info, kind, f);
    InfoCanonical(serialno, id);
    var found := GetShadowInfo(ShadowKey(pub, info, kind).value).value.1;
    assert found == info + found[|info|..];
    InfoRoundTrip(serialno, id, found[|info|..]);
  }

  lemma ShadowPass(x: bytes, r: bytes)
    requires FindShadowed(x + r) == FindShadowed(r)
    ensures ReadShadowed(x + r) == ReadShadowed(r)
  {
  }

  lemma ShadowHeadSeg()
    ensures TokSeg("20:shadowed-private-key", "shadowed-private-key")
  {
    hide Token, Value;
    var ds := ['2', '0'];
    ValueTwo('2', '0');
    TokenAppend(ds, "shadowed-private-key", []);
    assert "20:shadowed-private-key" == ds + ":" + "shadowed-private-key" + [];
  }

  /** A canonical public key starts with the fourteen octets that are not copied. */
  lemma PublicHeadIs(pub: bytes, f: PublicFrame, s: bytes)
    requires PublicFraming(pub, f, s) && CanonLen(pub, 0) > 0
    ensures f.head == "10:public-key"
  {
    hide Token, Skip, Value, Dec, ReadPairs, Scan;
    var r := "(" + (f.token + (f.params + s));
    assert pub[1..] == f.head + r;
    TokSegFacts(f.head, "public-key", r, 1);
    SkipToken(f.head + r, 1, true);
    assert (f.head + r)[0] == f.head[0] != '0';
    var ds := TokSegSplit(f.head, "public-key");
    assert ds[0] == f.head[0];
    DecUnique(ds);
    ValueTwo('1', '0');
    DecUnique(['1', '0']);
    assert "10:public-key" == ['1', '0'] + ":" + "public-key";
  }

  lemma ShadowKeyText(pub: bytes, f: PublicFrame, s: bytes, list: bytes, tail: bytes)
    requires PublicFraming(pub, f, s) && f.head == "10:public-key"
    ensures |pub| - |s| >= 14
    ensures "(20:shadowed-private-key" + pub[14..|pub| - |s|] + list + tail ==
            "(" + ("20:shadowed-private-key" + ("(" + (f.token + (f.params + (list + tail)))))
  {
    hide TokSeg, PairsSeg;
    var mid := "(" + f.token + f.params;
    assert |f.head| == 13;
    MiddlePart(pub, f.head, mid, s);
    ShadowHeadText();
    ShadowGlue("20:shadowed-private-key", f.token, f.params, list, tail);
  }

  lemma ShadowHeadText()
    ensures "(20:shadowed-private-key" == "(" + "20:shadowed-private-key"
  {
  }

  lemma MiddlePart(pub: bytes, head: bytes, mid: bytes, s: bytes)
    requires pub == "(" + (head + (mid + s))
    ensures |pub| - |s| >= 1 + |head| && pub[1 + |head|..|pub| - |s|] == mid
  {
    assert pub == ("(" + head) + mid + s;
  }

  lemma ShadowGlue(name: bytes, token: bytes, params: bytes, list: bytes, tail: bytes)
    ensures "(" + name + ("(" + token + params) + list + tail ==
            "(" + (name + ("(" + (token + (params + (list + tail)))))
  {
  }

  lemma InfoHead(info: bytes)
    requires CanonLen(info, 0) > 0
    ensures Head(info[..CanonLen(info, 0)]) == '('
  {
  }

  /** The canonical length of an expression does not depend on what follows it. */
  lemma InfoLength(info: bytes, r: bytes)
    requires CanonLen(info, 0) > 0
    ensures var m := CanonLen(info, 0); CanonLen(info[..m] + r, 0) == m && (info[..m] + r)[..m] == info[..m]
  {
    hide Skip, Scan;
    var m := CanonLen(info, 0);
    var after := Skip(info[1..], 1, true).value;
    SkipUsed(info[1..], 1, true);
    var x := Used(info[1..], after);
    assert info[..m] == [info[0]] + x;
    CanonicalScans(x, 1);
    SkipScan(x, 1, r, true);
    SkipZero(r, true);
    assert (info[..m] + r)[1..] == x + r;
  }

  lemma ShadowedStep(s: bytes)
    requires Head(s) == '(' && Token(s[1..]).Tok?
    ensures FindShadowed(s) ==
            if Token(s[1..]).data == "shadowed" then Ok(Token(s[1..]).rest)
            else if ReadPair(s).NoPair? then Err(InvSexp) else FindShadowed(ReadPair(s).rest)
  {
    hide Token, ReadPair;
  }

  lemma ShadowedEnd(s: bytes)
    ensures Head(s) == ')' ==> FindShadowed(s) == Err(UnknownSexp)
    ensures Head(s) != ')' && (Head(s) != '(' || Token(s[1..]).NoTok?) ==> FindShadowed(s) == Err(InvSexp)
  {
    hide Token, ReadPair;
  }

  /** The loop of agent_get_shadow_info_type. */
  method FindShadowedAt(buf: bytes, start: nat) returns (err: Option<Error>, next: nat)
    requires start <= |buf|
    ensures err.Some? ==> FindShadowed(buf[start..]) == Err(err.value)
    ensures err.None? ==> next <= |buf| && FindShadowed(buf[start..]) == Ok(buf[next..])
  {
    hide Token, ReadPair, FindShadowed;
    next := start;
    while true
      invariant start <= next <= |buf| && FindShadowed(buf[next..]) == FindShadowed(buf[start..])
      decreases |buf| - next
    {
      ShadowedEnd(buf[next..]);
      if next < |buf| && buf[next] == ')' {
        return Some(UnknownSexp), 0;
      }
      if next == |buf| || buf[next] != '(' {
        return Some(InvSexp), 0;
      }
      assert buf[next..][1..] == buf[next + 1..];
      var n, name := Snext(buf, next + 1);
      if n == 0 || n > |buf| - name {
        return Some(InvSexp), 0;
      }
      ShadowedStep(buf[next..]);
      if buf[name..name + n] == "shadowed" {
        return None, name + n;
      }
      var ok, _, after := PairAt(buf, next);
      if !ok {
        return Some(InvSexp), 0;
      }
      next := after;
    }
  }

  /** agent_get_shadow_info_type. */
  method GetShadowInfoAt(key: bytes) returns (err: Option<Error>, kind: bytes, info: nat)
    ensures err.Some? ==> GetShadowInfo(key) == Err(err.value)
    ensures err.None? ==> info <= |key| && GetShadowInfo(key) == Ok((kind, key[info..]))
  {
    hide Token, ReadShadowed;
    kind, info := [], 0;
    if key == [] || key[0] != '(' {
      return Some(InvSexp), kind, 0;
    }
    var n, name := Snext(key, 1);
    if n == 0 || n > |key| - name {
      return Some(InvSexp), kind, 0;
    }
    var s := name + n;
    if key[name..s] != "shadowed-private-key" || s == |key| || key[s] != '(' {
      return Some(UnknownSexp), kind, 0;
    }
    assert key[s..][1..] == key[s + 1..];
    var n', algo := Snext(key, s + 1);
    if n' == 0 || n' > |key| - algo {
      return Some(InvSexp), kind, 0;
    }
    err, kind, info := ReadShadowedAt(key, algo + n');
  }

  /** The part of agent_get_shadow_info_type behind the algorithm. */
  method ReadShadowedAt(key: bytes, start: nat) returns (err: Option<Error>, kind: bytes, info: nat)
    requires start <= |key|
    ensures err.Some? ==> ReadShadowed(key[start..]) == Err(err.value)
    ensures err.None? ==> info <= |key| && ReadShadowed(key[start..]) == Ok((kind, key[info..]))
  {
    hide Token, FindShadowed;
    kind, info := [], 0;
    var next;
    err, next := FindShadowedAt(key, start);
    if err.Some? {
      return;
    }
    var n, t := Snext(key, next);
    if n == 0 || n > |key| - t {
      return Some(InvSexp), kind, 0;
    }
    info := t + n;
    kind := key[t..info];
    if kind != T1 && kind != TPM2 {
      return Some(UnsupportedProtocol), kind, 0;
    }
    if info == |key| || key[info] != '(' {
      return Some(InvSexp), kind, 0;
    }
    return None, kind, info;
  }
}
