/**
 fixup_when_ecc_private_key of agent/sexp-secret.c: the private part of an ECC
 key loses the leading zero octet of the signed encoding, in place.
 */
module EccFixup {
  import opened Octets
  import opened Buffers
  import opened Sexp
  import opened Protection
  import opened KeyStructure
  import opened ProtectLoops

  /** The part of a string that C's strcmp looks at. */
  function CString(s: bytes): bytes {
    if s == [] || s[0] == '\0' then [] else [s[0]] + CString(s[1..])
  }

  /** Curves whose private part is not a number. */
  predicate OpaqueCurve(curve: bytes) {
    CString(curve) == "Ed25519" || CString(curve) == "Ed448" || CString(curve) == "X448"
  }

  const CURVE_NAME_SIZE := 256

  function FixedSecret(token: bytes, d: bytes, curve: bytes): bytes
    requires d != []
  {
    if d[0] == '\0' && !OpaqueCurve(curve) then TokenOf(d[1..]) else token
  }

  /** One parameter list: its fixed form, the curve from there on, and the remainder. */
  datatype Step = Fail | Step(text: bytes, curve: bytes, rest: bytes)

  function FixOne(s: bytes, curve: bytes): Step
    requires Head(s) == '('
  {
    match Token(s[1..])
    case NoTok => Fail
    case Tok(name, r) =>
      match Token(r)
      case NoTok => Fail
      case Tok(value, r') =>
        if Head(r') != ')' || (name == "curve" && |value| >= CURVE_NAME_SIZE) then Fail
        else
          var before, token := Used(s, r), Used(r, r');
          Step(before + (if name == "d" then FixedSecret(token, value, curve) else token) + ")",
               if name == "curve" then value else curve, r'[1..])
  }

  /** All parameter lists up to the end of the inner list, and everything behind. */
  function FixLists(s: bytes, curve: bytes): Result<bytes>
    decreases |s|
  {
    if Head(s) == ')' then Ok(s)
    else if Head(s) != '(' then Err(InvSexp)
    else
      match FixOne(s, curve)
      case Fail => Err(InvSexp)
      case Step(text, curve', rest) =>
        FixOneShorter(s, curve);
        match FixLists(rest, curve')
        case Err(e) => Err(e)
        case Ok(t) => Ok(text + t)
  }

  lemma FixOneShorter(s: bytes, curve: bytes)
    requires Head(s) == '(' && FixOne(s, curve).Step?
    ensures |FixOne(s, curve).rest| < |s|
  {
  }

  /** The whole function; the name of the curve is uninitialised memory until a curve list has been read. */
  function Fixup(buf: bytes, uninitialised: bytes): Result<bytes> {
    if Head(buf) != '(' then Err(InvSexp)
    else
      match Token(buf[1..])
      case NoTok => Err(InvSexp)
      case Tok(name, s) =>
        if name == "shadowed-private-key" then Ok(buf)
        else if name != "private-key" || Head(s) != '(' then Err(UnknownSexp)
        else
          match Token(s[1..])
          case NoTok => Ok(buf)
          case Tok(algo, s') =>
            if algo != "ecc" then Ok(buf)
            else
              match FixLists(s', uninitialised)
              case Err(e) => Err(e)
              case Ok(t) => Ok(Used(buf, s') + t)
  }

  // ----- the loop in place

  lemma ValueShort(ds: bytes)
    requires AllDigits(ds) && |ds| == 1
    ensures Value(ds) < 10
  {
    assert Value(ds[..0]) == 0;
  }

  /** A smaller number needs no more decimal digits. */
  lemma {:induction false} DecFits(n: nat, ds: bytes)
    requires AllDigits(ds) && ds != [] && n <= Value(ds)
    ensures |Dec(n)| <= |ds|
    decreases |ds|
  {
    if n >= 10 {
      var init := ds[..|ds| - 1];
      if |ds| == 1 {
        ValueShort(ds);
      }
      DecFits(n / 10, init);
    }
  }

  /** memmove to a lower position. */
  method MoveDown(a: array<octet>, to: nat, from: nat, n: nat)
    requires to <= from && from + n <= a.Length
    modifies a
    ensures a[..to] == old(a[..to]) && a[to..to + n] == old(a[from..from + n]) && a[to + n..] == old(a[to + n..])
  {
    forall i | 0 <= i < n {
      a[to + i] := a[from + i];
    }
  }

  /** memset to zero. */
  method Clear(a: array<octet>, from: nat, to: nat)
    requires from <= to <= a.Length
    modifies a
    ensures a[..from] == old(a[..from]) && a[to..] == old(a[to..])
    ensures forall i :: from <= i < to ==> a[i] == '\0'
  {
    forall i | from <= i < to {
      a[i] := '\0';
    }
  }

  /**
   snprintf, memmove and memset of the fixup: the token at tok, whose data
   starts with a zero octet at data, is rewritten without that octet, what
   follows is moved down, and the freed octets are cleared.
   */
  method DropZero(a: array<octet>, len: nat, tok: nat, data: nat, n: nat) returns (newLen: nat, numSize: nat)
    requires tok < data < len <= a.Length && 0 < n <= len - data
    requires |Dec(n - 1)| + 1 <= data - tok
    modifies a
    ensures numSize == |Dec(n - 1)| + 1 && newLen == len - 1 - (data - tok - numSize)
    ensures a[..newLen] == old(a[..tok]) + (Dec(n - 1) + ":") + old(a[data + 1..len])
    ensures forall i :: newLen <= i < len ==> a[i] == '\0'
    ensures a[len..] == old(a[len..])
  {
    hide Dec;
    ghost var was := a[..];
    var num := Dec(n - 1) + ":";
    numSize := |num|;
    var moved := len - 1 - data;
    newLen := tok + numSize + moved;
    var p := Put(a, tok, num + "\0");  // snprintf terminates its output
    ghost var printed := a[..];
    assert printed[..p] == was[..tok] + (num + "\0") && printed[p..] == was[p..];
    MoveDown(a, tok + numSize, data + 1, moved);
    DropText(was, printed, a[..], len, tok, data, num);
    Clear(a, newLen, len);
  }

  lemma DropText(was: bytes, printed: bytes, now: bytes, len: nat, tok: nat, data: nat, num: bytes)
    requires tok < data < len <= |was| == |printed| == |now| && |num| <= data - tok
    requires var p := tok + |num| + 1; printed[..p] == was[..tok] + (num + "\0") && printed[p..] == was[p..]
    requires var to, n := tok + |num|, len - 1 - data;
             && now[..to] == printed[..to] && now[to..to + n] == printed[data + 1..data + 1 + n]
             && now[to + n..] == printed[to + n..]
    ensures var newLen := tok + |num| + (len - 1 - data);
            now[..newLen] == was[..tok] + num + was[data + 1..len] && now[len..] == was[len..]
  {
    var p, to, n := tok + |num| + 1, tok + |num|, len - 1 - data;
    FrontOf(printed, was[..tok], num);
    SameSlice(printed, was, p, data + 1, len);
    SameSlice(printed, was, p, len, |was|);
    SameSlice(now, printed, to + n, len, |now|);
    assert now[..to + n] == now[..to] + now[to..to + n];
    assert now[len..|now|] == now[len..] && printed[len..|now|] == printed[len..] && was[len..|now|] == was[len..];
  }

  lemma FrontOf(printed: bytes, front: bytes, num: bytes)
    requires |front| + |num| + 1 <= |printed| && printed[..|front| + |num| + 1] == front + (num + "\0")
    ensures printed[..|front| + |num|] == front + num
  {
    assert printed[..|front| + |num|] == printed[..|front| + |num| + 1][..|front| + |num|];
  }

  /** Strings that agree from a position on agree on every part behind it. */
  lemma SameSlice(a: bytes, b: bytes, from: nat, i: nat, j: nat)
    requires |a| == |b| && from <= i <= j <= |a| && a[from..] == b[from..]
    ensures a[i..j] == b[i..j]
  {
    forall k | i <= k < j
      ensures a[k] == b[k]
    {
      assert a[from..][k - from] == b[from..][k - from];
    }
  }

  /** What FixOne reads, by cursors into the buffer. */
  lemma FixOneAt(buf: bytes, pos: nat, name: nat, n: nat, value: nat, m: nat, curve: bytes)
    requires pos < |buf| && buf[pos] == '(' && pos + 1 < name && 0 < n <= |buf| - name
    requires Token(buf[pos + 1..]) == Tok(buf[name..name + n], buf[name + n..])
    requires name + n < value && 0 < m <= |buf| - value
    requires Token(buf[name + n..]) == Tok(buf[value..value + m], buf[value + m..])
    ensures var close := value + m; var v := buf[value..close];
            FixOne(buf[pos..], curve) ==
            if close == |buf| || buf[close] != ')' || (buf[name..name + n] == "curve" && m >= CURVE_NAME_SIZE) then Fail
            else Step(buf[pos..name + n] + (if buf[name..name + n] == "d"
                                            then FixedSecret(buf[name + n..close], v, curve) else buf[name + n..close]) + ")",
                      if buf[name..name + n] == "curve" then v else curve, buf[close + 1..])
  {
    hide Token, FixedSecret, Used;
    assert buf[pos..][1..] == buf[pos + 1..];
    UsedSlice(buf, pos, name + n);
    UsedSlice(buf, name + n, value + m);
    if value + m < |buf| {
      assert buf[value + m..][1..] == buf[value + m + 1..];
    }
  }

  /** The length of a token leaves room for that of one octet less. */
  lemma RoomForLength(buf: bytes, tok: nat, value: nat, m: nat)
    requires tok < value && 0 < m <= |buf| - value
    requires Token(buf[tok..]) == Tok(buf[value..value + m], buf[value + m..])
    ensures |Dec(m - 1)| + 1 <= value - tok
  {
    hide Dec;
    var s := buf[tok..];
    var k := DigitCount(s);
    TokenData(s, k);
    assert s[..0] == [];
    DecFits(m - 1, s[..k]);
  }

  /** The cursors of one round: the second token at tok, its data at value; whether it is closed and what it is. */
  datatype Cursors = Cursors(tok: nat, value: nat, m: nat, closed: bool, secret: bool, curve: bytes)

  ghost predicate Reads(buf: bytes, pos: nat, curve: bytes, c: Cursors) {
    && pos < |buf| && buf[pos] == '('
    && pos < c.tok < c.value && 0 < c.m <= |buf| - c.value
    && |Dec(c.m - 1)| + 1 <= c.value - c.tok
    && (c.closed ==> c.m < |buf| - c.value && buf[c.value + c.m] == ')')
    && FixOne(buf[pos..], curve) ==
       if !c.closed then Fail
       else Step(buf[pos..c.tok] + (if c.secret && buf[c.value] == '\0' && !OpaqueCurve(curve)
                                    then TokenOf(buf[c.value..c.value + c.m][1..]) else buf[c.tok..c.value + c.m]) + ")",
                 c.curve, buf[c.value + c.m + 1..])
  }

  method ReadList(buf: bytes, pos: nat, curve: bytes) returns (ok: bool, c: Cursors)
    requires pos < |buf| && buf[pos] == '('
    ensures !ok ==> FixOne(buf[pos..], curve).Fail?
    ensures ok ==> Reads(buf, pos, curve, c)
  {
    hide Token, Dec, FixOne, OpaqueCurve, TokenOf;
    c := Cursors(0, 0, 0, false, false, curve);
    var n, name := Snext(buf, pos + 1);
    assert buf[pos..][1..] == buf[pos + 1..];
    if n == 0 || n > |buf| - name {
      FixOneFails(buf[pos..], curve);
      return false, c;
    }
    var tok := name + n;
    var m, value := Snext(buf, tok);
    if m == 0 || m > |buf| - value {
      FixOneFails(buf[pos..], curve);
      return false, c;
    }
    FixOneAt(buf, pos, name, n, value, m, curve);
    RoomForLength(buf, tok, value, m);
    var close := value + m;
    var closed := close < |buf| && buf[close] == ')';
    var isCurve := buf[name..tok] == "curve";
    if isCurve && m >= CURVE_NAME_SIZE {
      return false, c;
    }
    c := Cursors(tok, value, m, closed, buf[name..tok] == "d", if isCurve then buf[value..close] else curve);
    return true, c;
  }

  /** The effect of a round on a buffer: the fixed list in place of the read one, the rest moved up to it. */
  ghost predicate Rewritten(was: bytes, now: bytes, pos: nat, next: nat, step: Step) {
    && step.Step? && pos < next <= |now| && pos <= |was|
    && now[..next] == was[..pos] + step.text && now[next..] == step.rest
  }

  method DropInList(a: array<octet>, len: nat, pos: nat, curve: bytes, c: Cursors) returns (newLen: nat, next: nat)
    requires len <= a.Length && Reads(a[..len], pos, curve, c)
    requires c.secret && a[c.value] == '\0' && !OpaqueCurve(curve)
    modifies a
    ensures newLen <= len && a[len..] == old(a[len..]) && forall i :: newLen <= i < len ==> a[i] == '\0'
    ensures c.closed ==> newLen - next < len - pos
                         && Rewritten(old(a[..len]), a[..newLen], pos, next, FixOne(old(a[..len])[pos..], curve))
  {
    hide Dec, FixOne, OpaqueCurve, TokenOf, Rewritten, Reads;
    ghost var buf := a[..len];
    ReadsBounds(buf, pos, curve, c);
    var numSize;
    newLen, numSize := DropZero(a, len, c.tok, c.value, c.m);
    next := c.tok + numSize + c.m;
    if c.closed {
      SliceParts(old(a[..]), len, c.tok, c.value + 1);
      DroppedList(buf, a[..newLen], pos, curve, c);
    }
  }

  lemma ReadsBounds(buf: bytes, pos: nat, curve: bytes, c: Cursors)
    requires Reads(buf, pos, curve, c)
    ensures c.tok < c.value < |buf| && 0 < c.m <= |buf| - c.value && |Dec(c.m - 1)| + 1 <= c.value - c.tok
  {
    hide Dec, FixOne, OpaqueCurve, TokenOf;
  }

  lemma SliceParts(was: bytes, len: nat, i: nat, j: nat)
    requires i <= j <= len <= |was|
    ensures was[..len][..i] == was[..i] && was[..len][j..] == was[j..len]
  {
  }

  lemma DroppedList(buf: bytes, now: bytes, pos: nat, curve: bytes, c: Cursors)
    requires Reads(buf, pos, curve, c) && c.closed && c.secret && buf[c.value] == '\0' && !OpaqueCurve(curve)
    requires now == buf[..c.tok] + (Dec(c.m - 1) + ":") + buf[c.value + 1..]
    ensures var next := c.tok + |Dec(c.m - 1)| + 1 + c.m;
            Rewritten(buf, now, pos, next, FixOne(buf[pos..], curve)) && |now| - next < |buf| - pos
  {
    hide Dec, FixOne, OpaqueCurve, TokenOf;
    FixedText(buf, now, pos, c.tok, c.value, c.m);
  }

  lemma KeptList(buf: bytes, pos: nat, curve: bytes, c: Cursors)
    requires Reads(buf, pos, curve, c) && c.closed && !(c.secret && buf[c.value] == '\0' && !OpaqueCurve(curve))
    ensures Rewritten(buf, buf, pos, c.value + c.m + 1, FixOne(buf[pos..], curve))
  {
    hide Dec, FixOne, OpaqueCurve, TokenOf;
    UnchangedText(buf, pos, c.tok, c.value + c.m);
  }

  lemma ReadsResult(buf: bytes, pos: nat, curve: bytes, c: Cursors)
    requires Reads(buf, pos, curve, c)
    ensures FixOne(buf[pos..], curve).Step? == c.closed
    ensures c.closed ==> FixOne(buf[pos..], curve).curve == c.curve
    ensures c.value < |buf| && pos < c.value && c.m > 0
  {
    hide Dec, FixOne, OpaqueCurve, TokenOf;
  }

  /** One round of the loop in fixup_when_ecc_private_key. */
  method FixRound(a: array<octet>, len: nat, pos: nat, curve: bytes)
    returns (ok: bool, newLen: nat, next: nat, newCurve: bytes)
    requires pos < len <= a.Length && a[pos] == '('
    modifies a
    ensures ok == FixOne(old(a[..len])[pos..], curve).Step?
    ensures newLen <= len && a[len..] == old(a[len..]) && forall i :: newLen <= i < len ==> a[i] == '\0'
    ensures ok ==> newLen - next < len - pos
                   && Rewritten(old(a[..len]), a[..newLen], pos, next, FixOne(old(a[..len])[pos..], curve))
                   && newCurve == FixOne(old(a[..len])[pos..], curve).curve
  {
    hide FixOne, OpaqueCurve, Reads, Rewritten;
    newLen, next, newCurve := len, pos, curve;
    var buf := a[..len];
    var c;
    ok, c := ReadList(buf, pos, curve);
    if !ok {
      return;
    }
    ReadsResult(buf, pos, curve, c);
    newCurve := c.curve;
    ok := c.closed;
    if c.secret && buf[c.value] == '\0' && !OpaqueCurve(curve) {
      newLen, next := DropInList(a, len, pos, curve, c);
    } else if ok {
      next := c.value + c.m + 1;
      KeptList(buf, pos, curve, c);
    }
  }

  lemma UnchangedText(buf: bytes, pos: nat, tok: nat, close: nat)
    requires pos <= tok <= close < |buf| && buf[close] == ')'
    ensures buf[..close + 1] == buf[..pos] + (buf[pos..tok] + buf[tok..close] + ")")
  {
  }

  lemma FixOneFails(s: bytes, curve: bytes)
    requires Head(s) == '(' && (Token(s[1..]).NoTok? || Token(Token(s[1..]).rest).NoTok?)
    ensures FixOne(s, curve).Fail?
  {
    hide Token;
  }

  /** The rewritten buffer around the fixed token. */
  lemma FixedText(buf: bytes, now: bytes, pos: nat, tok: nat, value: nat, m: nat)
    requires pos < tok < value && 0 < m < |buf| - value && buf[value + m] == ')'
    requires now == buf[..tok] + (Dec(m - 1) + ":") + buf[value + 1..]
    ensures var close := value + m; var next := tok + |Dec(m - 1)| + 1 + (m - 1) + 1;
            && next <= |now|
            && now[..next] == buf[..pos] + (buf[pos..tok] + TokenOf(buf[value..close][1..]) + ")")
            && now[next..] == buf[close + 1..]
  {
    hide Dec;
    var close := value + m;
    var d := buf[value..close][1..];
    assert |d| == m - 1;
    assert buf[value + 1..] == d + ")" + buf[close + 1..];
    assert now == (buf[..tok] + (TokenOf(d) + ")")) + buf[close + 1..];
    assert buf[..tok] == buf[..pos] + buf[pos..tok];
  }

  function Prepend(x: bytes, r: Result<bytes>): Result<bytes> {
    if r.Err? then r else Ok(x + r.value)
  }

  lemma FixListsStep(s: bytes, curve: bytes)
    requires Head(s) == '('
    ensures var step := FixOne(s, curve);
            FixLists(s, curve) == if step.Fail? then Err(InvSexp) else Prepend(step.text, FixLists(step.rest, step.curve))
  {
    hide FixOne;
  }

  lemma FixListsEnd(s: bytes, curve: bytes)
    ensures Head(s) == ')' ==> FixLists(s, curve) == Ok(s)
    ensures Head(s) != ')' && Head(s) != '(' ==> FixLists(s, curve) == Err(InvSexp)
  {
  }

  /** One round moves the fixed text in front of the rest. */
  lemma RoundMoves(was: bytes, now: bytes, start: nat, pos: nat, next: nat, curve: bytes)
    requires start <= pos < |was| && was[pos] == '('
    requires Rewritten(was, now, pos, next, FixOne(was[pos..], curve))
    ensures var step := FixOne(was[pos..], curve);
            && now[..start] == was[..start]
            && Prepend(now[start..next], FixLists(now[next..], step.curve)) ==
               Prepend(was[start..pos], FixLists(was[pos..], curve))
  {
    hide FixOne, FixLists;
    var step := FixOne(was[pos..], curve);
    FixListsStep(was[pos..], curve);
    assert now[..next][..start] == was[..pos][..start];
    assert now[start..next] == now[..next][start..] == was[start..pos] + step.text;
    var t := FixLists(now[next..], step.curve);
    if t.Ok? {
      assert was[start..pos] + step.text + t.value == was[start..pos] + (step.text + t.value);
    }
  }

  /** The loop of fixup_when_ecc_private_key over the parameter lists. */
  method FixLoop(a: array<octet>, len: nat, start: nat, uninitialised: bytes) returns (err: Option<Error>, newLen: nat)
    requires start <= len <= a.Length
    modifies a
    ensures newLen <= len && a[len..] == old(a[len..]) && forall i :: newLen <= i < len ==> a[i] == '\0'
    ensures var r := FixLists(old(a[..len])[start..], uninitialised);
            if err.Some? then r == Err(err.value) else start <= newLen && r == Ok(a[start..newLen]) && a[..start] == old(a[..start])
  {
    hide FixOne, FixLists, Rewritten, Tidy, Walked;
    ghost var init, was := a[..], a[..len];
    ghost var all := FixLists(was[start..], uninitialised);
    var pos, curve := start, uninitialised;
    newLen := len;
    TidyStart(init, len);
    WalkStart(was, start, uninitialised);
    while pos < newLen && a[pos] == '('
      invariant start <= pos <= newLen <= len && Tidy(a[..], init, len, newLen)
      invariant Walked(a[..newLen], was, start, pos, curve, all)
      decreases newLen - pos
    {
      ghost var before, at, from, mid, m := a[..newLen], pos, curve, a[..], newLen;
      var ok, n, next, c := FixRound(a, newLen, pos, curve);
      TidyRound(mid, a[..], m, n);
      TidyMore(init, mid, a[..], len, m, n);
      if !ok {
        WalkFails(before, was, start, at, from, all);
        TidyMeans(a[..], init, len, n);
        return Some(InvSexp), n;
      }
      WalkRound(before, a[..n], was, start, at, next, from, all);
      RewrittenBounds(before, a[..n], at, next, FixOne(before[at..], from));
      newLen, pos, curve := n, next, c;
    }
    TidyMeans(a[..], init, len, newLen);
    assert pos < newLen ==> a[pos] == a[..newLen][pos];
    WalkEnds(a[..newLen], was, start, pos, curve, all);
    if pos == newLen || a[pos] != ')' {
      return Some(InvSexp), newLen;
    }
    assert a[..newLen][start..] == a[start..newLen] && a[..newLen][..start] == a[..start];
    assert was[..start] == init[..start];
    return None, newLen;
  }

  /** Nothing behind len has changed, and everything from newLen to there is zero. */
  ghost predicate Tidy(now: bytes, init: bytes, len: nat, newLen: nat) {
    && newLen <= len <= |now| == |init|
    && (forall i :: len <= i < |now| ==> now[i] == init[i]) && (forall i :: newLen <= i < len ==> now[i] == '\0')
  }

  lemma TidyStart(init: bytes, len: nat)
    requires len <= |init|
    ensures Tidy(init, init, len, len)
  {
  }

  lemma TidyRound(was: bytes, now: bytes, len: nat, newLen: nat)
    requires newLen <= len <= |now| == |was| && now[len..] == was[len..] && forall i :: newLen <= i < len ==> now[i] == '\0'
    ensures Tidy(now, was, len, newLen)
  {
    forall i | len <= i < |now|
      ensures now[i] == was[i]
    {
      assert now[len..][i - len] == was[len..][i - len];
    }
  }

  lemma TidyMore(init: bytes, mid: bytes, now: bytes, len: nat, m: nat, n: nat)
    requires Tidy(mid, init, len, m) && Tidy(now, mid, m, n)
    ensures Tidy(now, init, len, n)
  {
  }

  lemma TidyMeans(now: bytes, init: bytes, len: nat, newLen: nat)
    requires Tidy(now, init, len, newLen)
    ensures newLen <= len <= |now| == |init| && now[len..] == init[len..] && forall i :: newLen <= i < len ==> now[i] == '\0'
  {
  }

  /** Up to the cursor the lists are fixed, and fixing the rest completes them. */
  ghost predicate Walked(now: bytes, was: bytes, start: nat, pos: nat, curve: bytes, all: Result<bytes>) {
    && start <= pos <= |now| && start <= |was| && now[..start] == was[..start]
    && Prepend(now[start..pos], FixLists(now[pos..], curve)) == all
  }

  lemma WalkStart(was: bytes, start: nat, curve: bytes)
    requires start <= |was|
    ensures Walked(was, was, start, start, curve, FixLists(was[start..], curve))
  {
    hide FixLists;
    var all := FixLists(was[start..], curve);
    assert was[start..start] == [];
    assert all.Ok? ==> [] + all.value == all.value;
  }

  lemma WalkFails(now: bytes, was: bytes, start: nat, pos: nat, curve: bytes, all: Result<bytes>)
    requires Walked(now, was, start, pos, curve, all) && pos < |now| && now[pos] == '(' && FixOne(now[pos..], curve).Fail?
    ensures all == Err(InvSexp)
  {
    hide FixOne, FixLists;
    FixListsStep(now[pos..], curve);
  }

  lemma WalkRound(before: bytes, now: bytes, was: bytes, start: nat, at: nat, next: nat, curve: bytes, all: Result<bytes>)
    requires Walked(before, was, start, at, curve, all) && at < |before| && before[at] == '('
    requires Rewritten(before, now, at, next, FixOne(before[at..], curve))
    ensures Walked(now, was, start, next, FixOne(before[at..], curve).curve, all)
  {
    hide FixOne, FixLists;
    RoundMoves(before, now, start, at, next, curve);
  }

  lemma WalkEnds(now: bytes, was: bytes, start: nat, pos: nat, curve: bytes, all: Result<bytes>)
    requires Walked(now, was, start, pos, curve, all) && (pos < |now| ==> now[pos] != '(')
    ensures if pos == |now| || now[pos] != ')' then all == Err(InvSexp) else all == Ok(now[start..]) && now[..start] == was[..start]
  {
    hide FixLists;
    FixListsEnd(now[pos..], curve);
    assert now[start..] == now[start..pos] + now[pos..];
  }

  lemma RewrittenBounds(was: bytes, now: bytes, pos: nat, next: nat, step: Step)
    requires Rewritten(was, now, pos, next, step)
    ensures pos < next <= |now|
  {
  }

  datatype Header = Bad(error: Error) | NothingToDo | Lists(start: nat)

  /** The first part of fixup_when_ecc_private_key. */
  method ReadHeader(buf: bytes, ghost uninitialised: bytes) returns (h: Header)
    ensures h.Bad? ==> Fixup(buf, uninitialised) == Err(h.error)
    ensures h.NothingToDo? ==> Fixup(buf, uninitialised) == Ok(buf)
    ensures h.Lists? ==> h.start <= |buf|
                         && Fixup(buf, uninitialised) == Prepend(buf[..h.start], FixLists(buf[h.start..], uninitialised))
  {
    hide Token, FixLists;
    if buf == [] || buf[0] != '(' {
      return Bad(InvSexp);
    }
    var n, name := Snext(buf, 1);
    if n == 0 || n > |buf| - name {
      return Bad(InvSexp);
    }
    var s := name + n;
    if buf[name..s] == "shadowed-private-key" {
      return NothingToDo;
    }
    if buf[name..s] != "private-key" || s == |buf| || buf[s] != '(' {
      return Bad(UnknownSexp);
    }
    assert buf[s..][1..] == buf[s + 1..];
    var n', algo := Snext(buf, s + 1);
    if n' == 0 || n' > |buf| - algo || buf[algo..algo + n'] != "ecc" {
      return NothingToDo;
    }
    UsedSlice(buf, 0, algo + n');
    return Lists(algo + n');
  }

  /**
   fixup_when_ecc_private_key: nothing outside the old length is written, the
   octets between the new and the old length are zero, and on success the
   octets up to the new length are the fixed key.
   */
  method FixupEcc(a: array<octet>, len: nat, uninitialised: bytes) returns (err: Option<Error>, newLen: nat)
    requires len <= a.Length
    modifies a
    ensures newLen <= len && a[len..] == old(a[len..]) && forall i :: newLen <= i < len ==> a[i] == '\0'
    ensures Fixup(old(a[..len]), uninitialised) == if err.Some? then Err(err.value) else Ok(a[..newLen])
  {
    hide Fixup, FixLists;
    newLen := len;
    ghost var buf := a[..len];
    var h := ReadHeader(a[..len], uninitialised);
    if h.Bad? {
      return Some(h.error), len;
    }
    if h.NothingToDo? {
      return None, len;
    }
    err, newLen := FixLoop(a, len, h.start, uninitialised);
    if err.None? {
      assert buf[..h.start] == a[..h.start];
      assert a[..newLen] == a[..h.start] + a[h.start..newLen];
    }
  }
}
