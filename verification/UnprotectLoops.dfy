/**
 The cursor code of agent_unprotect, do_decryption, merge_lists and
 calculate_mic in agent/protect.c.
 */
module UnprotectLoops {
  import opened Octets
  import opened Buffers
  import opened Sexp
  import opened Protection
  import opened ProtectLoops

  lemma SkipPairsStep(s: bytes)
    ensures Head(s) == '(' ==>
              SkipPairs(s) == if ReadPair(s).Pair? then SkipPairs(ReadPair(s).rest) else None
    ensures Head(s) != '(' ==> SkipPairs(s) == Some(s)
  {
    hide ReadPair;
  }

  /** The loop over two-token lists in merge_lists and in calculate_mic. */
  method SkipPairsAt(buf: bytes, pos: nat) returns (ok: bool, next: nat)
    requires pos <= |buf|
    ensures ok == SkipPairs(buf[pos..]).Some?
    ensures ok ==> pos <= next <= |buf| && SkipPairs(buf[pos..]) == Some(buf[next..])
    ensures ok ==> Head(buf[next..]) != '('
  {
    hide ReadPair, SkipPairs;
    ghost var all := SkipPairs(buf[pos..]);
    next := pos;
    while next < |buf| && buf[next] == '('
      invariant pos <= next <= |buf| && all == SkipPairs(buf[next..])
    {
      SkipPairsStep(buf[next..]);
      var good, name, n := PairAt(buf, next);
      if !good {
        return false, pos;
      }
      next := n;
    }
    SkipPairsStep(buf[next..]);
    ok := true;
  }

  /** calculate_mic, up to the hashing: the range of octets that is hashed. */
  method CalculateMic(key: bytes) returns (err: Option<Error>, begin: nat, end: nat)
    ensures err.Some? ==> MicRange(key) == Err(err.value)
    ensures err.None? ==> begin <= end <= |key| && MicRange(key) == Ok(key[begin..end])
  {
    hide Token, MicLists;
    begin, end := 0, 0;
    if key == [] || key[0] != '(' {
      return Some(InvSexp), 0, 0;
    }
    var n, s := Snext(key, 1);
    if n == 0 || n > |key| - s {
      return Some(InvSexp), 0, 0;
    }
    begin := s + n;
    var name := key[s..begin];
    if (name != "private-key" && name != "shared-secret") || begin == |key| || key[begin] != '(' {
      return Some(UnknownSexp), 0, 0;
    }
    var lists := begin;
    if name != "shared-secret" {
      assert key[begin..][1..] == key[begin + 1..];
      var n', s' := Snext(key, begin + 1);
      if n' == 0 || n' > |key| - s' {
        return Some(InvSexp), 0, 0;
      }
      lists := s' + n';
    }
    err, end := MicListsAt(key, begin, lists);
  }

  /** The loop of calculate_mic and the closing parenthesis. */
  method MicListsAt(key: bytes, begin: nat, lists: nat) returns (err: Option<Error>, end: nat)
    requires begin <= lists <= |key|
    ensures err.Some? ==> MicLists(key[begin..], key[lists..]) == Err(err.value)
    ensures err.None? ==> begin <= end <= |key| && MicLists(key[begin..], key[lists..]) == Ok(key[begin..end])
  {
    hide SkipPairs, Used;
    var ok, close := SkipPairsAt(key, lists);
    if !ok || close == |key| || key[close] != ')' {
      return Some(InvSexp), 0;
    }
    assert key[close..][1..] == key[close + 1..];
    end := close + 1;
    UsedSlice(key, begin, end);
    return None, end;
  }

  lemma FindListStep(s: bytes, name: bytes)
    requires Head(s) == '(' && Token(s[1..]).Tok?
    ensures var t := Token(s[1..]);
            FindList(s, name) == if t.data == name then Ok((s, t.rest))
                                 else if Skip(t.rest, 1, false).Some? then FindList(Skip(t.rest, 1, false).value, name)
                                 else Err(InvSexp)
    ensures var t := Token(s[1..]);
            t.data != "protected-at" ==>
              FindTime(s) == if Skip(t.rest, 1, false).Some? then FindTime(Skip(t.rest, 1, false).value)
                             else Err(InvSexp)
  {
    hide Skip, Token;
  }

  /** The loop in agent_unprotect that looks for the protected list. */
  method FindListAt(buf: bytes, start: nat, name: bytes) returns (ok: bool, list: nat, body: nat)
    requires start <= |buf|
    ensures !ok ==> FindList(buf[start..], name) == Err(InvSexp)
    ensures ok ==> start <= list < body <= |buf| && FindList(buf[start..], name) == Ok((buf[list..], buf[body..]))
  {
    hide Token, Skip, FindList, FindTime;
    list := start;
    while true
      invariant start <= list <= |buf|
      invariant FindList(buf[list..], name) == FindList(buf[start..], name)
      decreases |buf| - list
    {
      if list == |buf| || buf[list] != '(' {
        FindListFails(buf[list..], name);
        return false, 0, 0;
      }
      assert buf[list..][1..] == buf[list + 1..];
      var n, data := Snext(buf, list + 1);
      if n == 0 || n > |buf| - data {
        FindListFails(buf[list..], name);
        return false, 0, 0;
      }
      FindListStep(buf[list..], name);
      if buf[data..data + n] == name {
        return true, list, data + n;
      }
      var skipped, next := Sskip(buf, data + n, 1);
      if !skipped {
        return false, 0, 0;
      }
      list := next;
    }
  }

  lemma FindListFails(s: bytes, name: bytes)
    requires Head(s) != '(' || Token(s[1..]).NoTok?
    ensures FindList(s, name) == Err(InvSexp)
    ensures FindTime(s) == if Head(s) != '(' then Ok(None) else Err(InvSexp)
  {
  }

  lemma FindTimeHere(s: bytes)
    requires Head(s) == '(' && Token(s[1..]).Tok? && Token(s[1..]).data == "protected-at"
    ensures var t := Token(Token(s[1..]).rest);
            FindTime(s) == if t.NoTok? then Err(InvSexp)
                           else if |t.data| != 15 then Err(UnknownSexp) else Ok(Some(t.data))
  {
    hide Token;
  }

  /** The loop in agent_unprotect that looks for the time stamp. */
  method FindTimeAt(buf: bytes, start: nat) returns (r: Result<Option<bytes>>)
    requires start <= |buf|
    ensures r == FindTime(buf[start..])
  {
    hide Token, Skip, FindList, FindTime;
    var list := start;
    while list < |buf| && buf[list] == '('
      invariant start <= list <= |buf|
      invariant FindTime(buf[list..]) == FindTime(buf[start..])
      decreases |buf| - list
    {
      assert buf[list..][1..] == buf[list + 1..];
      var n, data := Snext(buf, list + 1);
      if n == 0 || n > |buf| - data {
        FindListFails(buf[list..], []);
        return Err(InvSexp);
      }
      if buf[data..data + n] == "protected-at" {
        FindTimeHere(buf[list..]);
        var n', time := Snext(buf, data + n);
        if n' == 0 || n' > |buf| - time {
          return Err(InvSexp);
        }
        if n' != 15 {
          return Err(UnknownSexp);
        }
        return Ok(Some(buf[time..time + 15]));
      }
      FindListStep(buf[list..], []);
      var skipped, next := Sskip(buf, data + n, 1);
      if !skipped {
        return Err(InvSexp);
      }
      list := next;
    }
    FindListFails(buf[list..], []);
    return Ok(None);
  }

  // ----- the encrypted part

  method ReadCipherPartAt(buf: bytes, pos: nat, salt: bytes, count: nat, ocb: bool) returns (r: Result<Lock>)
    requires pos <= |buf|
    ensures r == ReadCipherPart(salt, count, buf[pos..], ocb)
  {
    hide Token;
    var n, iv := Snext(buf, pos);
    if n == 0 || n > |buf| - iv || n != (if ocb then 12 else 16) {
      return Err(CorruptedProtection);
    }
    var close := iv + n;
    if close == |buf| || buf[close] != ')' {
      return Err(InvSexp);
    }
    assert buf[close..][1..] == buf[close + 1..];
    var n', data := Snext(buf, close + 1);
    if n' == 0 || n' > |buf| - data {
      return Err(InvSexp);
    }
    return Ok(Lock(salt, count, buf[iv..iv + n], buf[data..data + n']));
  }

  method ReadLockAt(buf: bytes, pos: nat, ocb: bool) returns (r: Result<Lock>)
    requires pos <= |buf|
    ensures r == ReadLock(buf[pos..], ocb)
  {
    hide Token, ReadCount, ReadCipherPart;
    if |buf| - pos < 2 || buf[pos] != '(' || buf[pos + 1] != '(' {
      return Err(InvSexp);
    }
    assert buf[pos..][2..] == buf[pos + 2..];
    var n, hash := Snext(buf, pos + 2);
    if n == 0 || n > |buf| - hash {
      return Err(InvSexp);
    }
    if buf[hash..hash + n] != "sha1" {
      return Err(UnsupportedProtection);
    }
    var n', salt := Snext(buf, hash + n);
    if n' == 0 || n' > |buf| - salt || n' != 8 {
      return Err(CorruptedProtection);
    }
    var n'', field := Snext(buf, salt + n');
    if n'' == 0 || n'' > |buf| - field {
      return Err(CorruptedProtection);
    }
    var close := field + n'';
    if close == |buf| || buf[close] != ')' {
      return Err(InvSexp);
    }
    assert buf[close..][1..] == buf[close + 1..];
    var count := ReadCount(buf[field..close]);
    if count.Err? {
      return Err(count.error);
    }
    r := ReadCipherPartAt(buf, close + 1, buf[salt..salt + n'], count.value, ocb);
  }

  /** The contents of a buffer as allocated. */
  ghost function Contents(init: bytes): Junk {
    (i: nat) => if i < |init| then init[i] else '\0'
  }

  lemma BufferPrefix(now: bytes, init: bytes, n: nat)
    requires n <= |now| == |init| && now[n..] == init[n..]
    ensures now == Buffer(now[..n], |now|, Contents(init))
  {
    var b := Buffer(now[..n], |now|, Contents(init));
    assert |b| == |now|;
    forall i | 0 <= i < |now|
      ensures b[i] == now[i]
    {
      if i >= n {
        assert b[i] == Contents(init)(n + (i - n));
        assert now[i] == now[n..][i - n] == init[n..][i - n];
      }
    }
  }

  /** do_decryption: in OCB mode the last octets of the buffer keep what the allocation left there. */
  method DoDecryption(cr: Crypto, aad: bytes, m: Method, l: Lock, passphrase: bytes)
    returns (r: Result<bytes>, ghost junk: Junk)
    requires cr.Lawful()
    ensures r == Decrypt(cr, aad, m, l, passphrase, junk)
    ensures r.Ok? ==> |r.value| == |l.data|
  {
    hide CanonLen, Buffer;
    junk := Contents([]);
    if m.ocb {
      if |l.data| < 4 + 16 || |l.iv| != 12 {
        return Err(CorruptedProtection), junk;
      }
    } else {
      if |l.data| < 4 || |l.data| % BLOCK != 0 {
        return Err(CorruptedProtection), junk;
      }
    }
    if passphrase == [] {
      return Err(NoPassphrase), junk;
    }
    var outbuf := new octet[|l.data|];
    ghost var init := outbuf[..];
    junk := Contents(init);
    var key := cr.kdf(passphrase, l.salt, l.count, m.keyLen);
    var p;
    if m.ocb {
      var n := |l.data| - 16;
      var text := cr.ocbDecrypt(m.cipher, key, l.iv, l.data[..n]);
      p := Put(outbuf, 0, text);
      if cr.ocbTag(m.cipher, key, l.iv, aad, text) != l.data[n..] {
        return Err(BadPassphrase), junk;
      }
      assert outbuf[..][..p] == text;
    } else {
      var text := cr.cbcDecrypt(m.cipher, key, l.iv, l.data);
      p := Put(outbuf, 0, text);
      assert outbuf[..][..p] == text;
    }
    assert outbuf[..][p..] == init[p..];
    BufferPrefix(outbuf[..], init, p);
    var out := outbuf[..];
    if out[0] != '(' && out[1] != '(' {
      return Err(BadPassphrase), junk;
    }
    var realLen := CanonLen(out, |l.data|);
    if realLen == 0 || realLen + BLOCK < |l.data| {
      return Err(BadPassphrase), junk;
    }
    return Ok(out), junk;
  }

  // ----- merging

  method ReadMicAt(buf: bytes, pos: nat) returns (r: Result<bytes>)
    requires pos <= |buf|
    ensures r == ReadMic(buf[pos..])
  {
    hide Token;
    if pos == |buf| || buf[pos] != '(' {
      return Err(InvSexp);
    }
    assert buf[pos..][1..] == buf[pos + 1..];
    var n, name := Snext(buf, pos + 1);
    if n == 0 || n > |buf| - name || buf[name..name + n] != "hash" {
      return Err(InvSexp);
    }
    var n', algo := Snext(buf, name + n);
    if n' == 0 || n' > |buf| - algo || buf[algo..algo + n'] != "sha1" {
      return Err(InvSexp);
    }
    var n'', mic := Snext(buf, algo + n');
    if n'' == 0 || n'' > |buf| - mic || n'' != 20 {
      return Err(InvSexp);
    }
    var close := mic + n'';
    if close == |buf| || buf[close] != ')' {
      return Err(InvSexp);
    }
    return Ok(buf[mic..close]);
  }

  /** The part of merge_lists that looks behind the protected list. */
  method ReadRestAt(prot: bytes, pos: nat) returns (ok: bool, begin: nat, cutLen: nat, end: nat)
    requires pos < |prot|
    ensures !ok ==> ReadRest(prot[pos..]) == Err(InvSexp)
    ensures ok ==> pos < begin <= end <= |prot| && ReadRest(prot[pos..]) == Ok((prot[begin..end], cutLen))
    ensures ok ==> cutLen <= end - begin
    ensures ok ==> Skip(prot[pos + 1..], 1, false) == Some(prot[begin..])
                   && Skip(prot[begin..], 2, false) == Some(prot[end..])
  {
    hide Token, Skip, Used;
    begin, cutLen, end := 0, 0, 0;
    assert prot[pos..][1..] == prot[pos + 1..];
    ok, begin := Sskip(prot, pos + 1, 1);
    if !ok {
      return;
    }
    ghost var cutEnd := begin;
    if begin < |prot| && prot[begin] == '(' {
      assert prot[begin..][1..] == prot[begin + 1..];
      var n, name := Snext(prot, begin + 1);
      if n != 0 && n <= |prot| - name && prot[name..name + n] == "protected-at" {
        var next;
        ok, next := Sskip(prot, name + n, 1);
        if !ok {
          return;
        }
        cutLen := next - begin;
        cutEnd := next;
        UsedSlice(prot, begin, next);
        ListThenSkip(prot, begin, name + n, next);
      }
    }
    ok, end := Sskip(prot, begin, 2);
    if !ok {
      return;
    }
    UsedSlice(prot, begin, end);
    SkipShortens(prot, cutEnd, end);
  }

  /** A skipped list in front does not change where an enclosing skip ends. */
  lemma ListThenSkip(buf: bytes, begin: nat, body: nat, next: nat)
    requires begin < body <= next <= |buf| && buf[begin] == '('
    requires Token(buf[begin + 1..]).Tok? && Token(buf[begin + 1..]).rest == buf[body..]
    requires Skip(buf[body..], 1, false) == Some(buf[next..])
    ensures Skip(buf[begin..], 2, false) == Skip(buf[next..], 2, false)
  {
    hide Token, Skip;
    assert buf[begin..][1..] == buf[begin + 1..];
    Parens(buf[begin..], 2, false);
    SkipToken(buf[begin + 1..], 3, false);
    SkipCompose(buf[body..], 1, 2, false);
  }

  lemma SkipShortens(buf: bytes, i: nat, j: nat)
    requires i <= |buf| && j <= |buf| && Skip(buf[i..], 2, false) == Some(buf[j..])
    ensures i <= j
  {
    assert |buf[j..]| < |buf[i..]|;
  }

  /** The protected list is in the inner list of the key, and the clear text is not longer than it. */
  ghost predicate Located(prot: bytes, pos: nat, clear: bytes) {
    && 0 < pos < |prot| && prot[pos] == '('
    && Skip(prot[1..], 1, false) == Skip(prot[pos..], 2, false)
    && (Skip(prot[pos + 1..], 1, false).Some? ==>
          |clear| <= |prot[pos..]| - |Skip(prot[pos + 1..], 1, false).value|)
  }

  /** For every key, what merge_lists writes fits into the buffer that it allocates. */
  lemma MergeBound(prot: bytes, pos: nat, clear: bytes, begin: nat, end: nat, params: nat)
    requires Located(prot, pos, clear) && 25 <= pos && pos < begin <= end <= |prot|
    requires CanonLen(prot, 0) > 0
    requires Skip(prot[pos + 1..], 1, false) == Some(prot[begin..]) && Skip(prot[begin..], 2, false) == Some(prot[end..])
    requires params <= |clear|
    ensures 15 + (pos - 25) + params + (end - begin) <= CanonLen(prot, 0)
  {
    hide Skip, Scan;
    var r := Skip(prot[1..], 1, true).value;
    CanonicalSkip(prot[1..], 1);
    assert prot[pos..][1..] == prot[pos + 1..];
    Parens(prot[pos..], 2, false);
    SkipCompose(prot[pos + 1..], 1, 2, false);
    assert Some(prot[end..]) == Some(r);
  }

  lemma CanonicalSkip(s: bytes, depth: nat)
    requires Skip(s, depth, true).Some?
    ensures Skip(s, depth, false) == Skip(s, depth, true)
  {
    hide Skip, Scan;
    SkipUsed(s, depth, true);
    var r := Skip(s, depth, true).value;
    CanonicalScans(Used(s, r), depth);
    SkipScan(Used(s, r), depth, r, false);
    SkipZero(r, false);
  }

  /** merge_lists, after its parsing: writing the new list into a buffer of the estimated size. */
  method WriteMerged(prot: bytes, pos: nat, params: bytes, rest: bytes, size: nat)
    returns (newlist: array<octet>, cutOff: nat, ghost junk: Junk)
    requires 25 <= pos <= |prot| && 15 + (pos - 25) + |params| + |rest| <= size
    ensures fresh(newlist) && newlist.Length == size
    ensures var front := "(11:private-key" + prot[25..pos] + params;
            newlist[..] == Buffer(front + rest, size, junk) && cutOff == |front|
  {
    hide Buffer, Flat;
    newlist := new octet[size];
    ghost var init := newlist[..];
    junk := Contents(init);
    var head: bytes := "(11:private-key";
    FlatFour(head, prot[25..pos], params, rest);
    var p := PutAll(newlist, [head, prot[25..pos], params, rest]);
    cutOff := p - |rest|;
    BufferPrefix(newlist[..], init, p);
    assert newlist[..][..p] == newlist[..p];
  }

  /** merge_lists. */
  method MergeLists(prot: bytes, pos: nat, clear: bytes, wantMic: bool)
    returns (err: Option<Error>, newlist: array<octet>, m: Merged, ghost junk: Junk)
    requires Located(prot, pos, clear) && |clear| >= 2
    ensures fresh(newlist)
    ensures Merge(prot, prot[pos..], clear, wantMic) == if err.Some? then Err(err.value) else Ok(m)
    ensures err.None? ==> newlist[..] == Buffer(m.list, m.size, junk) && |m.list| <= m.size == newlist.Length
                          && m.cutOff + m.cutLen <= m.size
  {
    hide Skip, SkipPairs, ReadMic, ReadRest, CanonLen, Used;
    newlist, m, junk := new octet[0], Merged([], 0, 0, 0, []), Contents([]);
    assert |prot| - |prot[pos..]| == pos;
    var protLen, clearLen := CanonLen(prot, 0), CanonLen(clear, 0);
    if pos < 26 || protLen == 0 || clearLen == 0 {
      err := Some(Bug);
      return;
    }
    var ok, close := SkipPairsAt(clear, 2);
    if !ok || close == |clear| || clear[close] != ')' {
      err := Some(InvSexp);
      return;
    }
    assert clear[close..][1..] == clear[close + 1..];
    UsedSlice(clear, 2, close);
    var mic := [];
    if wantMic {
      var rm := ReadMicAt(clear, close + 1);
      if rm.Err? {
        err := Some(rm.error);
        return;
      }
      mic := rm.value;
    }
    var good, begin, cutLen, end := ReadRestAt(prot, pos);
    if !good {
      err := Some(InvSexp);
      return;
    }
    MergeBound(prot, pos, clear, begin, end, close - 2);
    var cutOff;
    newlist, cutOff, junk := WriteMerged(prot, pos, clear[2..close], prot[begin..end], protLen + clearLen);
    m := Merged("(11:private-key" + prot[25..pos] + clear[2..close] + prot[begin..end], protLen + clearLen,
                if cutLen == 0 then 0 else cutOff, cutLen, mic);
    err := None;
  }

  // ----- agent_unprotect

  /** memmove of the octets behind a cut. */
  method CloseGap(a: array<octet>, off: nat, n: nat)
    requires off + n <= a.Length
    modifies a
    ensures a[..] == CutOut(old(a[..]), off, n)
  {
    ghost var before := a[..];
    var i := off;
    while i + n < a.Length
      invariant off <= i <= a.Length - n
      invariant a[..off] == before[..off]
      invariant forall k :: off <= k < i ==> a[k] == before[k + n]
      invariant forall k :: i <= k < a.Length ==> a[k] == before[k]
    {
      a[i] := a[i + n];
      i := i + 1;
    }
    var cut := CutOut(before, off, n);
    assert |cut| == a.Length;
    forall k | 0 <= k < a.Length
      ensures a[k] == cut[k]
    {
      assert k < off ==> a[..off][k] == before[..off][k];
    }
  }

  /** The last steps of agent_unprotect. */
  method FinishAt(cr: Crypto, newlist: array<octet>, m: Merged, ocb: bool, ghost junk: Junk)
    returns (r: Result<bytes>)
    requires newlist[..] == Buffer(m.list, m.size, junk) && m.cutOff + m.cutLen <= newlist.Length
    modifies newlist
    ensures r == Finish(cr, m, ocb, junk)
  {
    hide MicRange, CanonLen, Buffer;
    if !ocb {
      var err, begin, end := CalculateMic(newlist[..]);
      if err.Some? {
        return Err(err.value);
      }
      assert newlist[..][begin..end] == newlist[begin..end];
      if cr.sha1(newlist[begin..end]) != m.mic {
        return Err(CorruptedProtection);
      }
    }
    CloseGap(newlist, m.cutOff, m.cutLen);
    var key := newlist[..];
    return Ok(key[..CanonLen(key, 0)]);
  }

  /** Decrypting, merging and checking. */
  method OpenLockAt(cr: Crypto, prot: bytes, pos: nat, aad: bytes, m: Method, l: Lock, passphrase: bytes)
    returns (r: Result<bytes>, ghost junk: Scratch)
    requires cr.Lawful() && Located(prot, pos, l.data)
    ensures r == OpenLock(cr, prot, prot[pos..], aad, m, l, passphrase, junk)
  {
    hide Decrypt, Merge, Finish, Located, Buffer;
    ghost var j1, j2 := Contents([]), Contents([]);
    var clear;
    clear, j1 := DoDecryption(cr, aad, m, l, passphrase);
    if clear.Err? {
      return Err(clear.error), Scratch(j1, j2);
    }
    SameLength(cr, aad, m, l, passphrase, j1, prot, pos, clear.value);
    var err, newlist, merged;
    err, newlist, merged, j2 := MergeLists(prot, pos, clear.value, !m.ocb);
    if err.Some? {
      return Err(err.value), Scratch(j1, j2);
    }
    r := FinishAt(cr, newlist, merged, m.ocb, j2);
    junk := Scratch(j1, j2);
  }

  lemma SameLength(cr: Crypto, aad: bytes, m: Method, l: Lock, passphrase: bytes, junk: Junk,
                   prot: bytes, pos: nat, clear: bytes)
    requires Located(prot, pos, l.data) && |clear| == |l.data|
    requires Decrypt(cr, aad, m, l, passphrase, junk).Ok?
    ensures Located(prot, pos, clear) && |clear| >= 2
  {
    hide Skip, CanonLen, Buffer;
  }

  // ----- where the protected list and its contents are

  /** The search for a list passes complete lists only. */
  lemma {:induction false} FindListWalk(s: bytes, name: bytes, depth: nat)
    requires FindList(s, name).Ok? && depth > 0
    ensures var (list, body) := FindList(s, name).value;
            Skip(s, depth, false) == Skip(list, depth, false) && Head(list) == '(' && Token(list[1..]) == Tok(name, body)
    decreases |s|
  {
    hide Skip, Token;
    var t := Token(s[1..]);
    if t.data != name {
      var s' := Skip(t.rest, 1, false).value;
      Parens(s, depth, false);
      SkipToken(s[1..], depth + 1, false);
      SkipCompose(t.rest, 1, depth, false);
      TokenShortens(s[1..]);
      FindListWalk(s', name, depth);
    }
  }

  lemma TokenShortens(s: bytes)
    requires Token(s).Tok?
    ensures |Token(s).data| + |Token(s).rest| < |s|
  {
  }

  lemma CipherPartInside(salt: bytes, count: nat, s: bytes, ocb: bool) returns (rest: bytes)
    requires ReadCipherPart(salt, count, s, ocb).Ok?
    ensures var l := ReadCipherPart(salt, count, s, ocb).value;
            Skip(s, 2, false) == Skip(rest, 1, false) && |l.data| + |rest| <= |s|
  {
    hide Skip, Token;
    var s' := Token(s).rest;
    rest := Token(s'[1..]).rest;
    TokenShortens(s);
    TokenShortens(s'[1..]);
    SkipToken(s, 2, false);
    Parens(s', 2, false);
    SkipToken(s'[1..], 1, false);
  }

  lemma LockInside(s: bytes, ocb: bool) returns (rest: bytes)
    requires ReadLock(s, ocb).Ok?
    ensures Skip(s, 1, false) == Skip(rest, 1, false) && |ReadLock(s, ocb).value.data| + |rest| <= |s|
  {
    hide Skip, Token, ReadCount, ReadCipherPart;
    var s1 := Token(s[2..]).rest;
    var s2 := Token(s1).rest;
    var s3 := Token(s2).rest;
    rest := CipherPartInside(Token(s1).data, ReadCount(Token(s2).data).value, s3[1..], ocb);
    TokenShortens(s[2..]);
    TokenShortens(s1);
    TokenShortens(s2);
    Parens(s, 1, false);
    Parens(s[1..], 2, false);
    assert s[1..][1..] == s[2..];
    SkipToken(s[2..], 3, false);
    SkipToken(s1, 3, false);
    SkipToken(s2, 3, false);
    Parens(s3, 3, false);
  }

  lemma DataInside(list: bytes, body: bytes, s: bytes, ocb: bool)
    requires list != [] && Token(list[1..]).Tok? && Token(list[1..]).rest == body
    requires Token(body).Tok? && Token(body).rest == s && ReadLock(s, ocb).Ok?
    requires Skip(list[1..], 1, false).Some?
    ensures |ReadLock(s, ocb).value.data| <= |list| - |Skip(list[1..], 1, false).value|
  {
    hide Token, ReadLock;
    var rest := LockInside(s, ocb);
    SkipToken(list[1..], 1, false);
    SkipToken(body, 1, false);
    TokenShortens(list[1..]);
    TokenShortens(body);
  }

  /** The cursor before the lists of the inner list is at depth two of the key. */
  lemma InnerDepth(prot: bytes, h: nat, q: nat)
    requires 0 < h < q <= |prot| && prot[h] == '('
    requires Token(prot[1..]).Tok? && Token(prot[1..]).rest == prot[h..]
    requires Token(prot[h + 1..]).Tok? && Token(prot[h + 1..]).rest == prot[q..]
    ensures Skip(prot[1..], 1, false) == Skip(prot[q..], 2, false)
    ensures Skip(prot[h + 1..], 1, false) == Skip(prot[q..], 1, false)
  {
    hide Token, Skip;
    SkipToken(prot[h + 1..], 1, false);
    SkipToken(prot[1..], 1, false);
    assert prot[h..][1..] == prot[h + 1..];
    Parens(prot[h..], 1, false);
    SkipToken(prot[h + 1..], 2, false);
  }

  lemma PlaceFound(prot: bytes, q: nat, pos: nat, body: nat, s: nat, ocb: bool)
    requires 0 < q <= pos < body <= s <= |prot|
    requires Skip(prot[1..], 1, false) == Skip(prot[q..], 2, false)
    requires FindList(prot[q..], "protected") == Ok((prot[pos..], prot[body..]))
    requires Token(prot[body..]).Tok? && Token(prot[body..]).rest == prot[s..]
    requires ReadLock(prot[s..], ocb).Ok?
    ensures Located(prot, pos, ReadLock(prot[s..], ocb).value.data)
  {
    hide Token, Skip, ReadLock, FindList;
    FindListWalk(prot[q..], "protected", 2);
    assert prot[pos..][1..] == prot[pos + 1..];
    if Skip(prot[pos + 1..], 1, false).Some? {
      DataInside(prot[pos..], prot[body..], prot[s..], ocb);
    }
  }

  /** The part of agent_unprotect that follows the search for the protected list. */
  method UnprotectListAt(cr: Crypto, prot: bytes, inner: nat, innerEnd: nat, q: nat, pos: nat, body: nat,
                         passphrase: bytes)
    returns (r: Result<Option<bytes>>, ghost junk: Scratch)
    requires cr.Lawful() && 0 < inner < q <= pos < body <= |prot| && inner <= innerEnd <= |prot|
    requires Skip(prot[1..], 1, false) == Skip(prot[q..], 2, false)
    requires Skip(prot[q..], 1, false) == Some(prot[innerEnd..])
    requires FindList(prot[q..], "protected") == Ok((prot[pos..], prot[body..]))
    ensures r == UnprotectList(cr, prot, prot[inner..], prot[innerEnd..], prot[pos..], prot[body..], passphrase, junk)
  {
    hide Token, Skip, ReadLock, FindList, OpenLock, Used, FindMethod, Located;
    junk := Scratch(Contents([]), Contents([]));
    assert prot[pos..][1..] == prot[pos + 1..];
    var ok, holeEnd := Sskip(prot, pos + 1, 1);
    if !ok {
      return Err(InvSexp), junk;
    }
    var n, mode := Snext(prot, body);
    if n == 0 || n > |prot| - mode {
      return Err(InvSexp), junk;
    }
    var m := FindMethod(prot[mode..mode + n]);
    if m.None? {
      r := if prot[mode..mode + n] == NATIVE_MODE then Ok(None) else Err(UnsupportedProtection);
      return r, junk;
    }
    var l := ReadLockAt(prot, mode + n, m.value.ocb);
    if l.Err? {
      return Err(l.error), junk;
    }
    PlaceFound(prot, q, pos, body, mode + n, m.value.ocb);
    HoleInside(prot, q, pos, body, holeEnd, innerEnd);
    UsedSlice(prot, inner, pos);
    UsedSlice(prot, holeEnd, innerEnd);
    var aad := prot[inner..pos] + prot[holeEnd..innerEnd];
    var key;
    key, junk := OpenLockAt(cr, prot, pos, aad, m.value, l.value, passphrase);
    r := if key.Err? then Err(key.error) else Ok(Some(key.value));
  }

  /** The protected list ends inside the inner list, so the authenticated ranges are ranges. */
  lemma HoleInside(prot: bytes, q: nat, pos: nat, body: nat, holeEnd: nat, innerEnd: nat)
    requires q <= pos < body <= |prot| && holeEnd <= |prot| && innerEnd <= |prot|
    requires Skip(prot[q..], 1, false) == Some(prot[innerEnd..])
    requires FindList(prot[q..], "protected") == Ok((prot[pos..], prot[body..]))
    requires Skip(prot[pos + 1..], 1, false) == Some(prot[holeEnd..])
    ensures holeEnd <= innerEnd
  {
    hide Token, FindList;
    FindListWalk(prot[q..], "protected", 1);
    assert prot[pos..][1..] == prot[pos + 1..];
    Parens(prot[pos..], 1, false);
    SkipCompose(prot[pos + 1..], 1, 1, false);
    assert |prot[innerEnd..]| <= |prot[holeEnd..]|;
  }

  /** agent_unprotect. */
  method AgentUnprotect(cr: Crypto, prot: bytes, passphrase: bytes, wantTime: bool)
    returns (r: Result<Unprotected>, ghost junk: Scratch)
    requires cr.Lawful()
    ensures r == Unprotect(cr, prot, passphrase, wantTime, junk)
  {
    hide Token, Skip, UnprotectLists, FindAlgo;
    junk := Scratch(Contents([]), Contents([]));
    if prot == [] || prot[0] != '(' {
      return Err(InvSexp), junk;
    }
    var n, name := Snext(prot, 1);
    if n == 0 || n > |prot| - name {
      return Err(InvSexp), junk;
    }
    var inner := name + n;
    if prot[name..inner] != "protected-private-key" || inner == |prot| || prot[inner] != '(' {
      return Err(UnknownSexp), junk;
    }
    assert prot[inner..][1..] == prot[inner + 1..];
    var ok, innerEnd := Sskip(prot, inner + 1, 1);
    if !ok {
      return Err(InvSexp), junk;
    }
    var n', algo := Snext(prot, inner + 1);
    if n' == 0 || n' > |prot| - algo {
      return Err(InvSexp), junk;
    }
    var q := algo + n';
    var i := LookupAlgo(prot[algo..q]);
    if i == |PROTECT_INFO| {
      return Err(UnsupportedAlgorithm), junk;
    }
    InnerDepth(prot, inner, q);
    r, junk := UnprotectListsAt(cr, prot, inner, innerEnd, q, passphrase, wantTime);
  }

  /** The part of agent_unprotect behind the algorithm. */
  method UnprotectListsAt(cr: Crypto, prot: bytes, inner: nat, innerEnd: nat, q: nat, passphrase: bytes, wantTime: bool)
    returns (r: Result<Unprotected>, ghost junk: Scratch)
    requires cr.Lawful() && 0 < inner < q <= |prot| && inner <= innerEnd <= |prot|
    requires Skip(prot[1..], 1, false) == Skip(prot[q..], 2, false)
    requires Skip(prot[q..], 1, false) == Some(prot[innerEnd..])
    ensures r == UnprotectLists(cr, prot, prot[inner..], prot[innerEnd..], prot[q..], passphrase, wantTime, junk)
  {
    hide Token, Skip, FindList, FindTime, UnprotectList;
    junk := Scratch(Contents([]), Contents([]));
    var time: Result<Option<bytes>> := Ok(None);
    if wantTime {
      time := FindTimeAt(prot, q);
      if time.Err? {
        return Err(time.error), junk;
      }
    }
    var found, pos, body := FindListAt(prot, q, "protected");
    if !found {
      return Err(InvSexp), junk;
    }
    var key;
    key, junk := UnprotectListAt(cr, prot, inner, innerEnd, q, pos, body, passphrase);
    if key.Err? {
      return Err(key.error), junk;
    }
    r := Ok(if key.value.Some? then Plain(key.value.value, time.value) else OpenPgpNative(prot[pos..]));
  }
}
