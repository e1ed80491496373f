/**
 The cursor primitives of common/sexp-parse.h over canonical S-expressions.

 A cursor into a buffer is represented in the specification by the part of the
 buffer that follows it.  A token that runs over the end of the buffer is
 reported as a parse failure.
 */
module Sexp {
  import opened Octets

  // ----- snext and smatch: one length-prefixed token

  datatype Tok = NoTok | Tok(data: bytes, rest: bytes)

  /** A token is a non-zero decimal length, a colon and that many octets. */
  function Token(s: bytes): Tok
  {
    var k := DigitCount(s);
    var n := Value(s[..k]);
    if n == 0 || k == |s| || s[k] != ':' || |s| - (k + 1) < n then NoTok
    else Tok(s[k + 1..k + 1 + n], s[k + 1 + n..])
  }

  /** The canonical encoding of a non-empty octet string. */
  function TokenOf(data: bytes): bytes {
    Dec(|data|) + ":" + data
  }

  /** The octets that a successful parse from s to its remainder r consumed. */
  function Used(s: bytes, r: bytes): bytes {
    if |r| <= |s| then s[..|s| - |r|] else []
  }

  lemma UsedPrefix(a: bytes, r: bytes)
    ensures Used(a + r, r) == a
  {
  }

  lemma UsedCompose(s: bytes, m: bytes, r: bytes)
    requires |r| <= |m| <= |s| && s == Used(s, m) + m && m == Used(m, r) + r
    ensures Used(s, r) == Used(s, m) + Used(m, r)
    ensures s == Used(s, r) + r
  {
    assert s == Used(s, m) + Used(m, r) + r;
  }

  lemma TokenData(s: bytes, k: nat)
    requires Token(s).Tok? && DigitCount(s) == k
    ensures var d := Token(s).data; |d| == Value(s[..k]) && k + 1 + |d| <= |s| && d == s[k + 1..k + 1 + |d|]
    ensures k > 0 && |s| == k + 1 + |Token(s).data| + |Token(s).rest|
  {
    assert s[..0] == [];
  }

  lemma TokenAppend(ds: bytes, data: bytes, r: bytes)
    requires AllDigits(ds) && Value(ds) == |data| > 0
    ensures Token(ds + ":" + data + r) == Tok(data, r)
  {
    var s := ds + ":" + data + r;
    assert s == ds + (":" + data + r);
    DigitCountAppend(ds, ":" + data + r);
    assert s[..|ds|] == ds;
    assert s[|ds| + 1..|ds| + 1 + |data|] == data;
    assert s[|ds| + 1 + |data|..] == r;
  }

  lemma TokenOfAppend(data: bytes, r: bytes)
    requires data != []
    ensures Token(TokenOf(data) + r) == Tok(data, r)
    ensures TokenOf(data)[0] != '0'
  {
    ValueOfDec(|data|);
    TokenAppend(Dec(|data|), data, r);
    assert TokenOf(data) + r == Dec(|data|) + ":" + data + r;
  }

  /** The encoding of an empty string is no token. */
  lemma TokenOfEmpty(r: bytes)
    ensures Token(TokenOf([]) + r) == NoTok
  {
    var s := TokenOf([]) + r;
    assert s[0] == '0' && s[1] == ':';
    assert s[1..][0] == ':';
    assert DigitCount(s) == 1;
    assert s[..1] == ['0'];
    assert ['0'][..0] == [];
    assert Value(['0']) == 0;
  }

  /** A token is recognised independently of what follows it. */
  lemma TokenLocal(s: bytes, r: bytes)
    requires Token(s).Tok?
    ensures var t := Token(s); var x := Used(s, t.rest);
            && s == x + t.rest && |x| > |t.data| + 1 && IsDigit(x[0])
            && Token(x + r) == Tok(t.data, r)
  {
    var t := Token(s);
    var k := DigitCount(s);
    var x := Used(s, t.rest);
    assert s[..k] + ":" + t.data == x;
    TokenAppend(s[..k], t.data, r);
    assert s[..0] == [];
    assert IsDigit(s[..k][0]);
  }

  // ----- sskip: skipping balanced lists

  /**
   Skip until depth zero.  With canonical set, lengths with a leading zero are
   refused: this is the scan of gcry_sexp_canon_len.
   */
  function Skip(s: bytes, depth: nat, canonical: bool): (r: Option<bytes>)
    ensures r.Some? ==> |r.value| <= |s| && (depth > 0 ==> |r.value| < |s|)
    decreases |s|
  {
    if depth == 0 then Some(s)
    else if s == [] then None
    else if s[0] == '(' then Skip(s[1..], depth + 1, canonical)
    else if s[0] == ')' then Skip(s[1..], depth - 1, canonical)
    else if canonical && s[0] == '0' then None
    else
      match Token(s)
      case NoTok => None
      case Tok(_, rest) => Skip(rest, depth, canonical)
  }

  /** The depth left after x has been scanned completely, starting inside depth lists. */
  function Scan(x: bytes, depth: nat, canonical: bool): Option<nat>
    decreases |x|
  {
    if x == [] then Some(depth)
    else if depth == 0 then None
    else if x[0] == '(' then Scan(x[1..], depth + 1, canonical)
    else if x[0] == ')' then Scan(x[1..], depth - 1, canonical)
    else if canonical && x[0] == '0' then None
    else
      match Token(x)
      case NoTok => None
      case Tok(_, rest) => Scan(rest, depth, canonical)
  }

  /**
   The length of the canonical expression at the start of s, 0 if there is none
   or if it does not fit into a non-zero limit.
   */
  function CanonLen(s: bytes, limit: nat): (n: nat)
    ensures n <= |s|
  {
    if Head(s) != '(' then 0
    else
      match Skip(s[1..], 1, true)
      case None => 0
      case Some(r) => if limit != 0 && |s| - |r| > limit then 0 else |s| - |r|
  }

  lemma SkipToken(s: bytes, depth: nat, canonical: bool)
    requires Token(s).Tok? && depth > 0
    ensures s != [] && IsDigit(s[0])
    ensures Skip(s, depth, canonical) ==
            if canonical && s[0] == '0' then None else Skip(Token(s).rest, depth, canonical)
    ensures Scan(s, depth, canonical) ==
            if canonical && s[0] == '0' then None else Scan(Token(s).rest, depth, canonical)
  {
    TokenLocal(s, []);
  }

  lemma SkipZero(s: bytes, canonical: bool)
    ensures Skip(s, 0, canonical) == Some(s)
  {
  }

  lemma Parens(s: bytes, depth: nat, canonical: bool)
    requires s != [] && depth > 0
    ensures s[0] == '(' ==> Scan(s, depth, canonical) == Scan(s[1..], depth + 1, canonical)
    ensures s[0] == ')' ==> Scan(s, depth, canonical) == Scan(s[1..], depth - 1, canonical)
    ensures s[0] == '(' ==> Skip(s, depth, canonical) == Skip(s[1..], depth + 1, canonical)
    ensures s[0] == ')' ==> Skip(s, depth, canonical) == Skip(s[1..], depth - 1, canonical)
  {
  }

  lemma ScanEmpty(depth: nat, canonical: bool)
    ensures Scan([], depth, canonical) == Some(depth)
  {
  }

  /** Skipping over a segment that scans is skipping what follows, if its lengths are acceptable. */
  lemma {:induction false} SkipScan(x: bytes, depth: nat, r: bytes, canonical: bool)
    requires Scan(x, depth, false).Some?
    ensures Skip(x + r, depth, canonical) ==
            if Scan(x, depth, canonical).Some? then Skip(r, Scan(x, depth, false).value, canonical) else None
    ensures Scan(x, depth, canonical).Some? ==> Scan(x, depth, canonical) == Scan(x, depth, false)
    decreases |x|
  {
    if x == [] {
      assert x + r == r;
    } else if x[0] == '(' {
      assert (x + r)[1..] == x[1..] + r;
      SkipScan(x[1..], depth + 1, r, canonical);
    } else if x[0] == ')' {
      assert (x + r)[1..] == x[1..] + r;
      SkipScan(x[1..], depth - 1, r, canonical);
    } else {
      SkipScanToken(x, depth, r, canonical);
      SkipScan(Token(x).rest, depth, r, canonical);
    }
  }

  lemma SkipScanToken(x: bytes, depth: nat, r: bytes, canonical: bool)
    requires Token(x).Tok? && depth > 0
    ensures x != [] && IsDigit(x[0])
    ensures Skip(x + r, depth, canonical) ==
            if canonical && x[0] == '0' then None else Skip(Token(x).rest + r, depth, canonical)
    ensures Scan(x + r, depth, canonical) ==
            if canonical && x[0] == '0' then None else Scan(Token(x).rest + r, depth, canonical)
    ensures Scan(x, depth, canonical) ==
            if canonical && x[0] == '0' then None else Scan(Token(x).rest, depth, canonical)
    ensures Scan(x, depth, false) == Scan(Token(x).rest, depth, false)
  {
    var rest := Token(x).rest;
    TokenLocal(x, rest + r);
    assert x + r == Used(x, rest) + (rest + r);
    SkipToken(x + r, depth, canonical);
    SkipToken(x, depth, canonical);
    SkipToken(x, depth, false);
  }

  lemma {:induction false} ScanConcat(x: bytes, y: bytes, depth: nat, canonical: bool)
    requires Scan(x, depth, false).Some?
    ensures Scan(x + y, depth, canonical) ==
            if Scan(x, depth, canonical).Some? then Scan(y, Scan(x, depth, false).value, canonical) else None
    ensures Scan(x, depth, canonical).Some? ==> Scan(x, depth, canonical) == Scan(x, depth, false)
    decreases |x|
  {
    if x == [] {
      assert x + y == y;
    } else if x[0] == '(' {
      assert (x + y)[1..] == x[1..] + y;
      ScanConcat(x[1..], y, depth + 1, canonical);
    } else if x[0] == ')' {
      assert (x + y)[1..] == x[1..] + y;
      ScanConcat(x[1..], y, depth - 1, canonical);
    } else {
      SkipScanToken(x, depth, y, canonical);
      ScanConcat(Token(x).rest, y, depth, canonical);
    }
  }

  /** What a skip passes over is a segment that scans down to depth zero. */
  lemma {:induction false} SkipUsed(s: bytes, depth: nat, canonical: bool)
    requires Skip(s, depth, canonical).Some?
    ensures var r := Skip(s, depth, canonical).value;
            s == Used(s, r) + r && Scan(Used(s, r), depth, canonical) == Some(0)
    decreases |s|
  {
    hide Token, Scan, Used;
    var r := Skip(s, depth, canonical).value;
    if depth == 0 {
      UsedPrefix([], s);
      assert [] + s == s;
      ScanEmpty(0, canonical);
    } else if s[0] == '(' || s[0] == ')' {
      SkipUsed(s[1..], if s[0] == '(' then depth + 1 else depth - 1, canonical);
      SkipUsedParen(s, r, depth, canonical);
    } else {
      var rest := Token(s).rest;
      TokenLocal(s, []);
      SkipUsed(rest, depth, canonical);
      SkipUsedToken(s, r, depth, canonical);
    }
  }

  /** The used octets, one at a time. */
  lemma UsedHead(s: bytes, r: bytes)
    requires s != [] && |r| < |s|
    ensures Used(s, r) == [s[0]] + Used(s[1..], r)
  {
  }

  lemma SkipUsedParen(s: bytes, r: bytes, depth: nat, canonical: bool)
    requires s != [] && (s[0] == '(' || s[0] == ')') && depth > 0 && |r| < |s| && s[1..] == Used(s[1..], r) + r
    requires Scan(Used(s[1..], r), if s[0] == '(' then depth + 1 else depth - 1, canonical) == Some(0)
    ensures s == Used(s, r) + r && Scan(Used(s, r), depth, canonical) == Some(0)
  {
    hide Scan, Used;
    UsedHead(s, r);
    var u := Used(s[1..], r);
    assert s == [s[0]] + s[1..];
    assert [s[0]] + (u + r) == ([s[0]] + u) + r;
    Parens([s[0]] + u, depth, canonical);
    assert ([s[0]] + u)[1..] == u;
  }

  lemma SkipUsedToken(s: bytes, r: bytes, depth: nat, canonical: bool)
    requires Token(s).Tok? && depth > 0 && (canonical ==> s[0] != '0')
    requires var rest := Token(s).rest;
             |r| <= |rest| && rest == Used(rest, r) + r && Scan(Used(rest, r), depth, canonical) == Some(0)
    ensures s == Used(s, r) + r && Scan(Used(s, r), depth, canonical) == Some(0)
  {
    hide Token, Scan, Used;
    var rest := Token(s).rest;
    TokenLocal(s, Used(rest, r));
    UsedCompose(s, rest, r);
    assert Used(s, r)[0] == s[0];
    SkipToken(Used(s, r), depth, canonical);
  }

  /** Skipping to depth zero from outer + inner levels passes the inner levels first. */
  lemma {:induction false} SkipCompose(s: bytes, inner: nat, outer: nat, canonical: bool)
    requires Skip(s, inner, canonical).Some?
    ensures Skip(s, inner + outer, canonical) == Skip(Skip(s, inner, canonical).value, outer, canonical)
    decreases |s|
  {
    hide Token;
    if inner == 0 {
    } else if s[0] == '(' {
      SkipCompose(s[1..], inner + 1, outer, canonical);
    } else if s[0] == ')' {
      SkipCompose(s[1..], inner - 1, outer, canonical);
    } else {
      TokenLocal(s, []);
      SkipCompose(Token(s).rest, inner, outer, canonical);
    }
  }

  /** A canonical scan is a plain scan. */
  lemma {:induction false} CanonicalScans(x: bytes, depth: nat)
    requires Scan(x, depth, true).Some?
    ensures Scan(x, depth, false) == Scan(x, depth, true)
    decreases |x|
  {
    if x == [] {
    } else if x[0] == '(' {
      CanonicalScans(x[1..], depth + 1);
    } else if x[0] == ')' {
      CanonicalScans(x[1..], depth - 1);
    } else {
      CanonicalScans(Token(x).rest, depth);
    }
  }

  // ----- the C loops

  /** snext: the length of the next token and the cursor behind its colon; 0 if there is none. */
  method Snext(buf: bytes, pos: nat) returns (n: nat, next: nat)
    requires pos <= |buf|
    ensures n == 0 ==> Token(buf[pos..]) == NoTok && next == pos
    ensures n != 0 ==> pos < next <= |buf|
    ensures n != 0 && n <= |buf| - next ==>
              Token(buf[pos..]) == Tok(buf[next..next + n], buf[next + n..])
    ensures n != 0 && n > |buf| - next ==> Token(buf[pos..]) == NoTok
  {
    hide Token;
    ghost var s := buf[pos..];
    ghost var k := DigitCount(s);
    var i := pos;
    n := 0;
    while i < |buf| && IsDigit(buf[i])
      invariant pos <= i <= pos + k
      invariant n == Value(s[..i - pos])
    {
      assert s[..i + 1 - pos][..i - pos] == s[..i - pos];
      assert s[i - pos] == buf[i];
      n := 10 * n + DigitValue(buf[i]);
      i := i + 1;
    }
    assert i < |buf| ==> buf[i] == s[i - pos];
    assert i == pos + k;
    TokenAt(buf, pos, k);
    if n == 0 || i == |buf| || buf[i] != ':' {
      return 0, pos;
    }
    next := i + 1;
  }

  /** The token at a position of a buffer. */
  lemma TokenAt(buf: bytes, pos: nat, k: nat)
    requires pos <= |buf| && k == DigitCount(buf[pos..])
    ensures var n := Value(buf[pos..][..k]); var next := pos + k + 1;
            Token(buf[pos..]) == if n == 0 || next > |buf| || buf[next - 1] != ':' || n > |buf| - next then NoTok
                                 else Tok(buf[next..next + n], buf[next + n..])
  {
    hide Value, DigitCount;
    var s := buf[pos..];
    var n, next := Value(s[..k]), pos + k + 1;
    if next <= |buf| && n <= |buf| - next {
      assert s[k + 1..k + 1 + n] == buf[next..next + n];
      assert s[k + 1 + n..] == buf[next + n..];
    }
  }

  /** One round of the loop in sskip, as a fact about the cursor. */
  lemma SkipAt(buf: bytes, pos: nat, depth: nat)
    requires pos <= |buf| && depth > 0
    ensures pos == |buf| ==> Skip(buf[pos..], depth, false).None?
    ensures pos < |buf| && buf[pos] == '(' ==>
              Skip(buf[pos..], depth, false) == Skip(buf[pos + 1..], depth + 1, false)
    ensures pos < |buf| && buf[pos] == ')' ==>
              Skip(buf[pos..], depth, false) == Skip(buf[pos + 1..], depth - 1, false)
    ensures pos < |buf| && buf[pos] != '(' && buf[pos] != ')' ==>
              Skip(buf[pos..], depth, false) ==
              if Token(buf[pos..]).Tok? then Skip(Token(buf[pos..]).rest, depth, false) else None
  {
    if pos < |buf| {
      assert buf[pos..][1..] == buf[pos + 1..];
    }
  }


  /** sskip: the cursor behind the list structure that the given depth is in. */
  method Sskip(buf: bytes, pos: nat, depth: nat) returns (ok: bool, next: nat)
    requires pos <= |buf|
    ensures ok == Skip(buf[pos..], depth, false).Some?
    ensures ok ==> pos <= next <= |buf| && Skip(buf[pos..], depth, false) == Some(buf[next..])
  {
    hide Skip, Token;
    ghost var skipped := Skip(buf[pos..], depth, false);
    var d := depth;
    next := pos;
    while d > 0
      invariant pos <= next <= |buf|
      invariant skipped == Skip(buf[next..], d, false)
      decreases |buf| - next
    {
      SkipAt(buf, next, d);
      if next == |buf| {
        return false, pos;
      }
      if buf[next] == '(' {
        d, next := d + 1, next + 1;
      } else if buf[next] == ')' {
        d, next := d - 1, next + 1;
      } else {
        var n, data := Snext(buf, next);
        if n == 0 || n > |buf| - data {
          return false, pos;
        }
        next := data + n;
      }
    }
    SkipZero(buf[next..], false);
    ok := true;
  }
}
