/**
 agent_unprotect undoes agent_protect, on exactly the canonical keys.
 */
module RoundTrip {
  import opened Octets
  import opened Numbers
  import opened Sexp
  import opened Protection
  import opened KeyStructure
  import opened S2k

  /** The laws asked of the primitives are consistent: here is a choice that meets them. */
  lemma LawfulExists() returns (cr: Crypto)
    ensures cr.Lawful()
  {
    var same := (c: Cipher, key: bytes, iv: bytes, text: bytes) => text;
    cr := Crypto((p, s, n, k) => [], x => seq(20, _ => '\0'), same, same, same, same,
                 (c, k, v, a, x) => seq(16, _ => '\0'));
  }

  // ----- what agent_protect inserts

  /** The time stamp list is a name and a value like a parameter. */
  lemma TimestampSeg(time: bytes)
    requires |time| == 15
    ensures PairSeg(TimestampList(time), "protected-at") && ReadPair(TimestampList(time)).value == time
    ensures |TimestampList(time)| == 35
    ensures Scan(TimestampList(time), 2, true) == Some(2)
  {
    hide Token, Scan, Value, TimestampList, TokSeg, ReadPair;
    var name: bytes := "protected-at";
    var t, v := ['1', '2'] + ":" + name, ['1', '5'] + ":" + time;
    ValueTwo('1', '2');
    ValueTwo('1', '5');
    TokSegText(['1', '2'], name);
    TokSegText(['1', '5'], time);
    var x := TimestampList(time);
    StampText(time);
    PairBuild(t, name, v, time, []);
    assert x + [] == x;
    PairCanonical(t, name, v, time, 2);
  }

  lemma StampText(time: bytes)
    requires |time| == 15
    ensures TimestampList(time) == "(" + (['1', '2'] + ":" + "protected-at") + (['1', '5'] + ":" + time) + ")"
    ensures |TimestampList(time)| == 35 && |"protected-at"| == 12
  {
    assert "(12:protected-at15:" == "(" + (['1', '2'] + ":" + "protected-at") + (['1', '5'] + ":");
  }

  lemma PairCanonical(t: bytes, name: bytes, v: bytes, value: bytes, depth: nat)
    requires TokSeg(t, name) && TokSeg(v, value) && t[0] != '0' && v[0] != '0' && depth > 0
    ensures Scan("(" + t + v + ")", depth, true) == Some(depth)
  {
    hide Token, Scan;
    var x := "(" + t + v + ")";
    assert x[1..] == t + (v + ")");
    TokSegFacts(t, name, [], depth + 1);
    TokSegFacts(v, value, [], depth + 1);
    Parens(x, depth, true);
    ScanConcat(t, v + ")", depth + 1, true);
    ScanConcat(v, ")", depth + 1, true);
    Parens(")", depth + 1, true);
    assert ")"[1..] == [];
    ScanEmpty(depth, true);
  }

  lemma ScanTok(x: bytes, data: bytes, r: bytes, depth: nat, canonical: bool)
    requires TokSeg(x, data) && depth > 0 && x[0] != '0'
    ensures Scan(x + r, depth, canonical) == Scan(r, depth, canonical)
  {
    hide Token, Scan;
    TokSegFacts(x, data, r, depth);
    ScanConcat(x, r, depth, canonical);
  }

  lemma ScanOpen(r: bytes, depth: nat, canonical: bool)
    requires depth > 0
    ensures Scan("(" + r, depth, canonical) == Scan(r, depth + 1, canonical)
  {
    hide Scan;
    Parens("(" + r, depth, canonical);
    assert ("(" + r)[1..] == r;
  }

  lemma ScanClose(r: bytes, depth: nat, canonical: bool)
    requires depth > 0
    ensures Scan(")" + r, depth, canonical) == Scan(r, depth - 1, canonical)
  {
    hide Scan;
    Parens(")" + r, depth, canonical);
    assert (")" + r)[1..] == r;
  }

  /** The octets of a protected list behind the name of the method. */
  function LockText(w: Sealing, ciphertext: bytes): bytes {
    "(" + ("(" + ("4:sha1" + ("8:" + w.salt + (TokenOf(Dec(w.count)) + (")" + (TokenOf(w.iv)
    + (")" + (TokenOf(ciphertext) + (")" + [])))))))))
  }

  function ModeOf(w: Sealing): bytes {
    if w.ocb then OCB_MODE else CBC_MODE
  }

  lemma ProtectedListText(w: Sealing, c: bytes)
    ensures ProtectedList(w, c) == "(" + ("9:protected" + (TokenOf(ModeOf(w)) + LockText(w, c)))
  {
    hide TokenOf, Dec;
    assert "((4:sha18:" == "(" + "(" + "4:sha1" + "8:";
  }

  lemma FixedTokens(salt: bytes)
    requires |salt| == 8
    ensures TokSeg("9:protected", "protected") && TokSeg("4:sha1", "sha1") && TokSeg("8:" + salt, salt)
  {
    hide Token, Value;
    ValueOne('9');
    ValueOne('4');
    ValueOne('8');
    TokSegText("9", "protected");
    TokSegText("4", "sha1");
    TokSegText("8", salt);
    assert "9:protected" == "9" + ":" + "protected";
    assert "4:sha1" == "4" + ":" + "sha1";
    assert "8:" + salt == "8" + ":" + salt;
  }

  lemma LockScans(w: Sealing, c: bytes, canonical: bool)
    requires w.Valid() && c != []
    ensures Scan(LockText(w, c), 1, canonical) == Some(0)
  {
    hide Token, Scan, TokenOf, Dec;
    var count := Dec(w.count);
    FixedTokens(w.salt);
    TokSegOfToken(count);
    TokSegOfToken(w.iv);
    TokSegOfToken(c);
    var r0 := ")" + [];
    var r1 := TokenOf(c) + r0;
    var r2 := TokenOf(w.iv) + (")" + r1);
    var r3 := TokenOf(count) + (")" + r2);
    var r4 := "8:" + w.salt + r3;
    var r5 := "4:sha1" + r4;
    assert LockText(w, c) == "(" + ("(" + r5);
    ScanOpen("(" + r5, 1, canonical);
    ScanOpen(r5, 2, canonical);
    ScanTok("4:sha1", "sha1", r4, 3, canonical);
    ScanTok("8:" + w.salt, w.salt, r3, 3, canonical);
    ScanTok(TokenOf(count), count, ")" + r2, 3, canonical);
    ScanClose(r2, 3, canonical);
    ScanTok(TokenOf(w.iv), w.iv, ")" + r1, 2, canonical);
    ScanClose(r1, 2, canonical);
    ScanTok(TokenOf(c), c, r0, 1, canonical);
    ScanClose([], 1, canonical);
    ScanEmpty(0, canonical);
  }

  lemma ModeText(w: Sealing)
    ensures ModeOf(w) != [] && FindMethod(ModeOf(w)) == Some(Method(ModeOf(w), Aes128, 16, w.ocb))
  {
    assert |CBC_MODE| == 25 && |CBC256_MODE| == 28 && |OCB_MODE| == 20;
  }

  /** The protected list can be found and skipped like any list, and its parts can be read back. */
  lemma ProtectedListSeg(w: Sealing, c: bytes, r: bytes)
    requires w.Valid() && c != []
    ensures var l := ProtectedList(w, c);
            && ListSeg(l, "protected")
            && Scan(l, 2, true) == Some(2)
            && Token(Token(l[1..]).rest + r) == Tok(ModeOf(w), LockText(w, c) + r)
  {
    hide Token, Scan, TokenOf, LockText, Dec;
    var mode := ModeOf(w);
    var l := ProtectedList(w, c);
    var y := TokenOf(mode) + LockText(w, c);
    ProtectedListText(w, c);
    FixedTokens(w.salt);
    ModeText(w);
    TokSegOfToken(mode);
    assert l[1..] == "9:protected" + y;
    TokSegFacts("9:protected", "protected", y, 1);
    TokSegFacts(TokenOf(mode), mode, LockText(w, c) + r, 1);
    assert y + r == TokenOf(mode) + (LockText(w, c) + r);
    ScanTok(TokenOf(mode), mode, LockText(w, c), 1, false);
    LockScans(w, c, false);
    ScanTok(TokenOf(mode), mode, LockText(w, c), 1, true);
    ScanTok("9:protected", "protected", y, 1, true);
    LockScans(w, c, true);
    ScanShift(l[1..], 1, 2, true);
    Parens(l, 2, true);
  }

  // ----- the count field

  lemma StrToUlDec(n: nat)
    requires n <= ULONG_MAX
    ensures StrToUl(Dec(n)) == n
  {
    hide Dec;
    ValueOfDec(n);
    var ds := Dec(n);
    assert IsDigit(ds[0]);
    DigitCountAppend(ds, []);
    assert ds + [] == ds;
    assert ds[..|ds|] == ds;
  }

  /** A count that is read without an error. */
  predicate Readable(n: nat) {
    n >= 65536 || 96 <= n < 256
  }

  /** The count that is read. */
  function CountRead(n: nat): nat {
    if n < 256 then DecodeCount(n) else n
  }

  /** The count that is read derives the key of the count that was written; this is no restriction but for 96 to 255. */
  ghost predicate SameKey(cr: Crypto, w: Sealing) {
    Readable(w.count) ==> cr.kdf(w.passphrase, w.salt, CountRead(w.count), 16) == cr.kdf(w.passphrase, w.salt, w.count, 16)
  }

  /** The byte encodings from 96 on stand for counts that are large enough. */
  lemma OldEncodings(n: nat)
    requires n < 256
    ensures DecodeCount(n) >= 65536 <==> n >= 96
    ensures DecodeCount(n) > n
  {
    hide DecodeCount;
    DecodedLimits();
    if n < 95 { DecodeIncreases(n, 95); }
    if n > 96 { DecodeIncreases(96, n); }
    if n > 0 { DecodeIncreases(0, n); }
  }

  lemma DecodedLimits()
    ensures DecodeCount(0) == 1024 && DecodeCount(95) == 63488 && DecodeCount(96) == 65536
  {
    assert Pow2(3) == 8;
    assert Pow2(6) == 8 * Pow2(3);
    assert Pow2(9) == 8 * Pow2(6);
    assert Pow2(11) == 4 * Pow2(9);
    assert Pow2(12) == 2 * Pow2(11);
  }

  /**
   A count is read back unchanged if and only if it is at least 65536: from 96
   to 255 it is taken for the old byte encoding of another count, and all others are refused.
   */
  lemma CountReadBack(n: nat)
    requires 0 < n <= ULONG_MAX
    ensures ReadCount(Dec(n)) == if Readable(n) then Ok(CountRead(n)) else Err(CorruptedProtection)
    ensures ReadCount(Dec(n)) == Ok(n) <==> n >= 65536
  {
    hide Dec, StrToUl, DecodeCount;
    StrToUlDec(n);
    if n < 256 {
      OldEncodings(n);
    }
  }

  /** The parts of the protected list are read back. */
  lemma LockReadBack(w: Sealing, c: bytes, r: bytes)
    requires w.Valid() && c != []
    ensures ReadLock(LockText(w, c) + r, w.ocb) ==
            match ReadCount(Dec(w.count))
            case Err(e) => Err(e)
            case Ok(n) => Ok(Lock(w.salt, n, w.iv, c))
  {
    hide Token, TokenOf, Dec, ReadCount;
    var count := Dec(w.count);
    FixedTokens(w.salt);
    TokSegOfToken(count);
    TokSegOfToken(w.iv);
    TokSegOfToken(c);
    var q0 := ")" + r;
    var q1 := TokenOf(c) + q0;
    var q2 := TokenOf(w.iv) + (")" + q1);
    var q3 := TokenOf(count) + (")" + q2);
    var q4 := "8:" + w.salt + q3;
    var s := LockText(w, c) + r;
    assert s == "(" + ("(" + ("4:sha1" + q4));
    assert s[2..] == "4:sha1" + q4;
    TokSegFacts("4:sha1", "sha1", q4, 1);
    TokSegFacts("8:" + w.salt, w.salt, q3, 1);
    TokSegFacts(TokenOf(count), count, ")" + q2, 1);
    assert (")" + q2)[1..] == q2;
    TokSegFacts(TokenOf(w.iv), w.iv, ")" + q1, 1);
    assert (")" + q1)[1..] == q1;
    TokSegFacts(TokenOf(c), c, q0, 1);
  }

  // ----- reading a protected key

  /** The inner list of a protected key, from its opening parenthesis. */
  function InnerText(k: Parts, list: bytes, stamp: bytes): bytes {
    k.inner + (k.public + (list + (stamp + k.tail)))
  }

  ghost predicate Spliced(k: Parts, f: Frame, list: bytes, stamp: bytes) {
    && Framing(k, f)
    && ListSeg(list, "protected")
    && IsStamp(stamp)
  }

  /** A time stamp list, or none: keys that were protected by old versions have none. */
  ghost predicate IsStamp(stamp: bytes) {
    stamp == [] || (PairSeg(stamp, "protected-at") && |ReadPair(stamp).value| == 15)
  }

  function TimeOf(stamp: bytes): Option<bytes> {
    if stamp == [] then None else var p := ReadPair(stamp); if p.Pair? then Some(p.value) else None
  }

  /** What calculate_mic hashes. */
  function StampedMic(k: Parts, stamp: bytes): bytes {
    k.inner + k.public + k.secret + stamp + ")"
  }

  /** What OCB mode authenticates. */
  function StampedAad(k: Parts, stamp: bytes): bytes {
    k.inner + k.public + stamp + ")"
  }

  /** A time stamp list is skipped by everything that looks for something else. */
  lemma StampPassed(stamp: bytes, r: bytes, depth: nat)
    requires IsStamp(stamp) && Head(r) == ')' && depth > 0
    ensures Scan(stamp, depth, false) == Some(depth)
    ensures SkipPairs(stamp + r) == Some(r)
    ensures FindTime(stamp + r) == Ok(TimeOf(stamp))
  {
    hide Token, Scan, Skip, ReadPair;
    if stamp == [] {
      assert stamp + r == r;
      ScanEmpty(depth, false);
    } else {
      PairSegFacts(stamp, "protected-at", r);
      ListSegFacts(stamp, "protected-at", r, depth);
      StampSkipped(stamp, r);
      StampTime(stamp, r);
    }
  }

  lemma StampTime(stamp: bytes, r: bytes)
    requires stamp != [] && IsStamp(stamp)
    ensures FindTime(stamp + r) == Ok(TimeOf(stamp))
  {
    hide Token, Skip, Scan;
    PairSegFacts(stamp, "protected-at", r);
    StampIsPair(stamp);
  }

  lemma StampOf(k: Parts, time: bytes)
    requires |time| == 15
    ensures var stamp := TimestampList(time);
            && IsStamp(stamp) && stamp != [] && TimeOf(stamp) == Some(time)
            && AuthData(k, time) == StampedAad(k, stamp) && MicInput(k, time) == StampedMic(k, stamp)
  {
    hide ReadPair, TimestampList, Scan;
    TimestampSeg(time);
    StampIsPair(TimestampList(time));
  }

  lemma StampIsPair(stamp: bytes)
    requires stamp != [] && PairSeg(stamp, "protected-at")
    ensures TimeOf(stamp) == Some(ReadPair(stamp).value)
  {
  }

  lemma TailSkip(k: Parts, f: Frame)
    requires Framing(k, f)
    ensures Skip(k.tail, 1, false) == Some(k.tail[1..])
    ensures Scan(k.tail, 2, false) == Some(0) && Skip(k.tail, 2, false) == Some([])
  {
    hide Skip, Scan;
    Parens(k.tail, 1, false);
    SkipZero(k.tail[1..], false);
    Parens(k.tail, 2, false);
    SkipScan(k.tail, 2, [], false);
    SkipZero([], false);
    assert k.tail + [] == k.tail;
  }

  /** The whole inner list is skipped up to its closing parenthesis. */
  lemma InnerSkip(k: Parts, f: Frame, list: bytes, stamp: bytes)
    requires Spliced(k, f, list, stamp)
    ensures Skip(InnerText(k, list, stamp)[1..], 1, false) == Some(k.tail[1..])
    ensures Token(InnerText(k, list, stamp)[1..]) == Tok(f.algo, k.public + (list + (stamp + k.tail)))
  {
    hide Skip, Scan, Token, ReadPair, ReadPairs;
    var r2 := stamp + k.tail;
    var r1 := list + r2;
    var r0 := k.public + r1;
    assert InnerText(k, list, stamp)[1..] == f.token + r0;
    TokSegFacts(f.token, f.algo, r0, 1);
    SkipScan(f.token, 1, r0, false);
    PairsSegFacts(k.public, f.public, r1, "protected", 1);
    SkipScan(k.public, 1, r1, false);
    ListSegFacts(list, "protected", r2, 1);
    SkipScan(list, 1, r2, false);
    StampPassed(stamp, k.tail, 1);
    SkipScan(stamp, 1, k.tail, false);
    TailSkip(k, f);
  }

  /** The search for the protected list stops at the inserted one. */
  lemma ListFound(k: Parts, f: Frame, list: bytes, stamp: bytes)
    requires Spliced(k, f, list, stamp)
    ensures FindList(k.public + (list + (stamp + k.tail)), "protected") ==
            Ok((list + (stamp + k.tail), Token(list[1..]).rest + (stamp + k.tail)))
  {
    hide Skip, Scan, Token, ReadPair, ReadPairs;
    var r := stamp + k.tail;
    PairsSegFacts(k.public, f.public, list + r, "protected", 1);
    ListSegFacts(list, "protected", r, 1);
  }

  /** The search for the time stamp passes the parameters and the protected list. */
  lemma TimeFound(k: Parts, f: Frame, list: bytes, stamp: bytes)
    requires Spliced(k, f, list, stamp)
    ensures FindTime(k.public + (list + (stamp + k.tail))) == Ok(TimeOf(stamp))
  {
    hide Skip, Scan, Token, ReadPairs;
    var r := stamp + k.tail;
    PairsSegFacts(k.public, f.public, list + r, "protected", 1);
    ListSegFacts(list, "protected", r, 1);
    assert |"protected"| == 9 && |"protected-at"| == 12;
    assert FindTime(list + r) == FindTime(r);
    StampPassed(stamp, k.tail, 1);
  }

  /** What is left of the inner list without the protected list is what was authenticated. */
  lemma AadAgrees(k: Parts, f: Frame, list: bytes, stamp: bytes)
    requires Spliced(k, f, list, stamp)
    ensures var r := stamp + k.tail; AadOf(InnerText(k, list, stamp), k.tail[1..], list + r, r) == StampedAad(k, stamp)
  {
    hide Used, IsStamp, ListSeg, PairSeg, TokSeg, PairsSeg, Scan;
    var r := stamp + k.tail;
    assert InnerText(k, list, stamp) == (k.inner + k.public) + (list + r);
    UsedPrefix(k.inner + k.public, list + r);
    assert r == (stamp + ")") + k.tail[1..];
    UsedPrefix(stamp + ")", k.tail[1..]);
    assert StampedAad(k, stamp) == (k.inner + k.public) + (stamp + ")");
  }

  // ----- decrypting

  /** The clear text scans as one canonical list exactly if the secret parameters are canonical. */
  lemma FramedLength(secret: bytes, names: seq<bytes>, mic: Option<bytes>, junk: bytes, limit: nat)
    requires PairsSeg(secret, names) && (mic.Some? ==> |mic.value| == 20)
    requires limit == 0 || |Framed(secret, mic)| <= limit
    ensures CanonLen(Framed(secret, mic) + junk, limit) ==
            if Scan(secret, 2, true).Some? then |Framed(secret, mic)| else 0
  {
    hide Skip, Scan, ReadPairs, PairsSeg;
    var end := FrameEnd(mic);
    var b := Framed(secret, mic) + junk;
    assert b == "(" + ("(" + (secret + (end + junk)));
    assert b[1..] == "(" + (secret + (end + junk));
    FramedSkip(secret, names, mic, junk);
  }

  function FrameEnd(mic: Option<bytes>): bytes {
    (if mic.Some? then HASH_PREFIX + mic.value else "") + "))"
  }

  lemma FramedSkip(secret: bytes, names: seq<bytes>, mic: Option<bytes>, junk: bytes)
    requires PairsSeg(secret, names) && (mic.Some? ==> |mic.value| == 20)
    ensures Skip("(" + (secret + (FrameEnd(mic) + junk)), 1, true) ==
            if Scan(secret, 2, true).Some? then Some(junk) else None
  {
    hide Skip, Scan, ReadPairs, FrameEnd;
    var end := FrameEnd(mic);
    var r := end + junk;
    Parens("(" + (secret + r), 1, true);
    assert ("(" + (secret + r))[1..] == secret + r;
    PairsSegFacts(secret, names, [], "protected", 2);
    SkipScan(secret, 2, r, true);
    EndScans(mic, true);
    EndScans(mic, false);
    SkipScan(end, 2, junk, true);
    SkipZero(junk, true);
  }

  /** The end of the clear text closes its two lists. */
  lemma EndScans(mic: Option<bytes>, canonical: bool)
    requires mic.Some? ==> |mic.value| == 20
    ensures Scan(FrameEnd(mic), 2, canonical) == Some(0)
  {
    hide Scan, Token;
    assert "))" == ")" + (")" + []);
    if mic.Some? {
      MicTokens(mic.value);
      var r0 := "))";
      var r1 := "20:" + mic.value + r0;
      var r2 := "4:sha1" + r1;
      assert HASH_PREFIX + mic.value + "))" == ")" + ("(" + ("4:hash" + r2));
      ScanClose("(" + ("4:hash" + r2), 2, canonical);
      ScanOpen("4:hash" + r2, 1, canonical);
      ScanTok("4:hash", "hash", r2, 2, canonical);
      ScanTok("4:sha1", "sha1", r1, 2, canonical);
      ScanTok("20:" + mic.value, mic.value, r0, 2, canonical);
    }
    ScanClose(")" + [], 2, canonical);
    ScanClose([], 1, canonical);
    ScanEmpty(0, canonical);
    assert "" + "))" == "))";
  }

  lemma MicTokens(mic: bytes)
    requires |mic| == 20
    ensures TokSeg("4:hash", "hash") && TokSeg("4:sha1", "sha1") && TokSeg("20:" + mic, mic)
  {
    hide Token, Value;
    ValueOne('4');
    ValueTwo('2', '0');
    TokSegText("4", "hash");
    TokSegText("4", "sha1");
    TokSegText("20", mic);
    assert "4:hash" == "4" + ":" + "hash";
    assert "4:sha1" == "4" + ":" + "sha1";
    assert "20:" + mic == "20" + ":" + mic;
  }

  /**
   The padding arithmetic of CBC mode: whole blocks that hold the framed list
   and between one octet and one block of padding.
   */
  lemma CbcPadding(framed: nat)
    ensures CbcLength(framed) % BLOCK == 0
    ensures framed < CbcLength(framed) <= framed + BLOCK
    ensures CbcLength(framed) >= 4
  {
  }

  /** The integrity code that is put into the clear text. */
  function MicOf(cr: Crypto, k: Parts, w: Sealing): Option<bytes> {
    if w.ocb then None else Some(cr.sha1(MicInput(k, w.time)))
  }

  /** Decrypting gives the framed list back, followed by something, if the secret parameters are canonical. */
  lemma DecryptBack(cr: Crypto, k: Parts, names: seq<bytes>, w: Sealing, junk: Junk) returns (rest: bytes)
    requires cr.Lawful() && w.Valid() && PairsSeg(k.secret, names) && w.passphrase != []
    ensures Ciphertext(cr, k, w) != []
    ensures var m := Method(ModeOf(w), Aes128, 16, w.ocb);
            var l := Lock(w.salt, w.count, w.iv, Ciphertext(cr, k, w));
            Decrypt(cr, AuthData(k, w.time), m, l, w.passphrase, junk) ==
            if Scan(k.secret, 2, true).Some? then Ok(Framed(k.secret, MicOf(cr, k, w)) + rest)
            else Err(BadPassphrase)
  {
    hide Scan, ReadPairs, CanonLen, MicInput, AuthData;
    var text := Framed(k.secret, MicOf(cr, k, w));
    var c := Ciphertext(cr, k, w);
    var key := cr.kdf(w.passphrase, w.salt, w.count, 16);
    if w.ocb {
      var e := cr.ocbEncrypt(Aes128, key, w.iv, text);
      assert c[..|text|] == e;
      assert c[|text|..] == cr.ocbTag(Aes128, key, w.iv, AuthData(k, w.time), text);
      rest := Buffer(text, |c|, junk)[|text|..];
      assert Buffer(text, |c|, junk) == text + rest;
    } else {
      CbcPadding(|text|);
      rest := w.padding[..CbcLength(|text|) - |text|];
      assert (text + w.padding)[..CbcLength(|text|)] == text + rest;
      assert Buffer(text + rest, |c|, junk) == text + rest;
    }
    FramedLength(k.secret, names, MicOf(cr, k, w), rest, |c|);
  }

  /**
   Both length checks of the reader are met: in CBC mode the data is whole
   blocks, and the canonical length is short of it by one octet to one block; in
   OCB mode it is short of it by exactly the tag.
   */
  lemma ReaderChecks(cr: Crypto, k: Parts, names: seq<bytes>, w: Sealing, rest: bytes)
    requires cr.Lawful() && w.Valid() && PairsSeg(k.secret, names) && Scan(k.secret, 2, true).Some?
    requires var c := Ciphertext(cr, k, w);
             |Framed(k.secret, MicOf(cr, k, w)) + rest| == |c|
    ensures var c := Ciphertext(cr, k, w); var n := CanonLen(Framed(k.secret, MicOf(cr, k, w)) + rest, |c|);
            if w.ocb then |c| >= 4 + 16 && n + 16 == |c| else |c| >= 4 && |c| % BLOCK == 0 && n < |c| <= n + BLOCK
  {
    hide Scan, CanonLen, MicInput, AuthData, PairsSeg;
    var text := Framed(k.secret, MicOf(cr, k, w));
    CbcPadding(|text|);
    FramedLength(k.secret, names, MicOf(cr, k, w), rest, |Ciphertext(cr, k, w)|);
  }

  // ----- canonical lengths

  /** No length in the key is written with a leading zero. */
  ghost predicate CanonicalKey(k: Parts, f: Frame)
    requires Framing(k, f)
  {
    && f.head != [] && f.head[0] != '0'
    && Scan(k.secret, 2, true).Some?
    && CanonicalRest(k, f)
  }

  ghost predicate CanonicalRest(k: Parts, f: Frame)
    requires Framing(k, f)
  {
    && f.token != [] && f.token[0] != '0'
    && Scan(k.public, 2, true).Some?
    && Scan(k.tail, 2, true).Some?
  }

  lemma SkipSeg(x: bytes, r: bytes, depth: nat)
    requires Scan(x, depth, false) == Some(depth)
    ensures Skip(x + r, depth, true) == if Scan(x, depth, true).Some? then Skip(r, depth, true) else None
  {
    hide Skip, Scan;
    SkipScan(x, depth, r, true);
  }

  /** A token, an opening parenthesis and the algorithm, then whatever follows in the inner list. */
  lemma SkipHead(head: bytes, name: bytes, k: Parts, f: Frame, r: bytes)
    requires Framing(k, f) && TokSeg(head, name)
    ensures head != [] && f.token != []
    ensures Skip(head + (k.inner + r), 1, true) ==
            if head[0] != '0' && f.token[0] != '0' then Skip(r, 2, true) else None
  {
    hide Skip, Scan, Token, ReadPairs, FindAlgo;
    TokSegFacts(head, name, k.inner + r, 1);
    SkipSeg(head, k.inner + r, 1);
    Parens(k.inner + r, 1, true);
    assert (k.inner + r)[1..] == f.token + r;
    TokSegFacts(f.token, f.algo, r, 2);
    SkipSeg(f.token, r, 2);
  }

  lemma SkipTail(k: Parts, f: Frame, r: bytes)
    requires Framing(k, f)
    ensures Skip(k.tail + r, 2, true) == if Scan(k.tail, 2, true).Some? then Some(r) else None
  {
    hide Skip, Scan, Token, ReadPairs, FindAlgo;
    TailSkip(k, f);
    SkipScan(k.tail, 2, r, true);
    SkipZero(r, true);
  }

  /** A plain key has a canonical length exactly if none of its lengths has a leading zero. */
  lemma PlainLength(k: Parts, f: Frame, r: bytes)
    requires Framing(k, f)
    ensures CanonLen(k.Whole() + r, 0) == if CanonicalKey(k, f) then |k.Whole()| else 0
  {
    hide Skip, Scan, Token, ReadPairs, FindAlgo;
    var s2 := k.secret + (k.tail + r);
    var s1 := k.public + s2;
    var b := k.Whole() + r;
    assert b[1..] == f.head + (k.inner + s1);
    SkipHead(f.head, "private-key", k, f, s1);
    PairsSegFacts(k.public, f.public, [], "protected", 2);
    SkipSeg(k.public, s2, 2);
    PairsSegFacts(k.secret, f.secret, [], "protected", 2);
    SkipSeg(k.secret, k.tail + r, 2);
    SkipTail(k, f, r);
  }

  const PROT_HEAD: bytes := "21:protected-private-key"

  lemma ProtHeadSeg()
    ensures TokSeg(PROT_HEAD, "protected-private-key") && |PROT_HEAD| == 24 && PROT_HEAD[0] == '2'
  {
    hide Token, Value, PROT_HEAD, TokSeg;
    var ds := ['2', '1'];
    ValueTwo('2', '1');
    TokSegText(ds, "protected-private-key");
    ProtHeadText();
  }

  lemma ProtHeadText()
    ensures PROT_HEAD == ['2', '1'] + ":" + "protected-private-key" && |PROT_HEAD| == 24 && |"protected-private-key"| == 21
  {
  }

  /** A protected key has a canonical length exactly if the parts copied from the plain key are canonical. */
  lemma ProtLength(k: Parts, f: Frame, list: bytes, stamp: bytes)
    requires Spliced(k, f, list, stamp) && Scan(list, 2, true).Some? && Scan(stamp, 2, true).Some?
    ensures var prot := "(" + (PROT_HEAD + InnerText(k, list, stamp));
            CanonLen(prot, 0) == if CanonicalRest(k, f) then |prot| else 0
  {
    hide Skip, Scan, Token, ReadPairs, FindAlgo, ReadPair;
    var s3 := stamp + k.tail;
    var s2 := list + s3;
    var s1 := k.public + s2;
    var b := "(" + (PROT_HEAD + InnerText(k, list, stamp));
    ProtHeadSeg();
    assert b[1..] == PROT_HEAD + (k.inner + s1);
    SkipHead(PROT_HEAD, "protected-private-key", k, f, s1);
    PairsSegFacts(k.public, f.public, [], "protected", 2);
    SkipSeg(k.public, s2, 2);
    ListSegFacts(list, "protected", [], 2);
    SkipSeg(list, s3, 2);
    StampPassed(stamp, k.tail, 2);
    SkipSeg(stamp, k.tail, 2);
    SkipTail(k, f, []);
    assert k.tail + [] == k.tail;
  }

  // ----- merging

  /** The parameters and the integrity code are found in the clear text. */
  lemma ClearParts(secret: bytes, names: seq<bytes>, mic: Option<bytes>, rest: bytes)
    requires PairsSeg(secret, names) && (mic.Some? ==> |mic.value| == 20)
    ensures var clear := Framed(secret, mic) + rest; var s := FrameEnd(mic) + rest;
            && |clear| >= 2 && clear[2..] == secret + s
            && SkipPairs(clear[2..]) == Some(s) && Used(clear[2..], s) == secret
            && Head(s) == ')'
            && (mic.Some? ==> ReadMic(s[1..]) == Ok(mic.value))
  {
    hide ReadPairs, Token, ReadPair, ReadMic;
    var clear := Framed(secret, mic) + rest;
    var s := FrameEnd(mic) + rest;
    assert clear == "((" + (secret + s);
    assert clear[2..] == secret + s;
    PairsSegFacts(secret, names, s, "protected", 1);
    UsedPrefix(secret, s);
    if mic.Some? {
      MicReadBack(mic.value, rest);
    }
  }

  lemma MicReadBack(mic: bytes, rest: bytes)
    requires |mic| == 20
    ensures ReadMic((FrameEnd(Some(mic)) + rest)[1..]) == Ok(mic)
  {
    hide Token;
    MicTokens(mic);
    var r0 := "))" + rest;
    var r1 := "20:" + mic + r0;
    var r2 := "4:sha1" + r1;
    var s := (FrameEnd(Some(mic)) + rest)[1..];
    assert s == "(" + ("4:hash" + r2);
    assert s[1..] == "4:hash" + r2;
    TokSegFacts("4:hash", "hash", r2, 1);
    TokSegFacts("4:sha1", "sha1", r1, 1);
    TokSegFacts("20:" + mic, mic, r0, 1);
  }

  /** Behind the protected list there is the time stamp list, which is to be cut out, and the tail. */
  lemma RestFound(k: Parts, f: Frame, list: bytes, stamp: bytes)
    requires Spliced(k, f, list, stamp)
    ensures ReadRest(list + (stamp + k.tail)) == Ok((stamp + k.tail, |stamp|))
  {
    hide ReadPairs, Token, ReadPair, Skip, Scan, FindAlgo;
    var s := stamp + k.tail;
    ListSegFacts(list, "protected", s, 1);
    StampPassed(stamp, k.tail, 2);
    if stamp != [] {
      PairSegFacts(stamp, "protected-at", k.tail);
      ListSegFacts(stamp, "protected-at", k.tail, 2);
    }
    UsedPrefix(stamp, k.tail);
    SkipScan(stamp, 2, k.tail, false);
    TailSkip(k, f);
    UsedPrefix(s, []);
    assert s + [] == s;
  }

  function ProtText(k: Parts, list: bytes, stamp: bytes): bytes {
    "(" + (PROT_HEAD + InnerText(k, list, stamp))
  }

  /** Where the protected list is in the protected key, and what is before it. */
  lemma ListPosition(k: Parts, list: bytes, stamp: bytes)
    requires k.inner != []
    ensures var prot := ProtText(k, list, stamp); var pos := |prot| - |list + (stamp + k.tail)|;
            pos >= 26 && prot[25..pos] == k.inner + k.public
  {
    var prot := ProtText(k, list, stamp);
    assert |PROT_HEAD| == 24;
    assert prot == ("(" + PROT_HEAD) + ((k.inner + k.public) + (list + (stamp + k.tail)));
  }

  /** The merged list is the plain key with the time stamp list before its tail. */
  lemma MergeBack(k: Parts, f: Frame, list: bytes, stamp: bytes, mic: Option<bytes>, rest: bytes)
    requires Spliced(k, f, list, stamp) && Scan(list, 2, true).Some? && Scan(stamp, 2, true).Some?
    requires k.outer == "(11:private-key" && (mic.Some? ==> |mic.value| == 20)
    requires Scan(k.secret, 2, true).Some?
    ensures var prot := ProtText(k, list, stamp);
            var clear := Framed(k.secret, mic) + rest;
            var front := k.outer + (k.inner + k.public) + k.secret;
            Merge(prot, list + (stamp + k.tail), clear, mic.Some?) ==
            if !CanonicalRest(k, f) then Err(Bug)
            else Ok(Merged(front + (stamp + k.tail), |prot| + |Framed(k.secret, mic)|, if stamp == [] then 0 else |front|,
                           |stamp|, if mic.Some? then mic.value else []))
  {
    hide ReadPairs, Token, ReadPair, Skip, Scan, FindAlgo, Framed, ProtText, InnerText, CanonLen, ReadMic, ReadRest,
         Used, SkipPairs, CanonicalRest, FrameEnd;
    ProtTextIs(k, list, stamp);
    ProtLength(k, f, list, stamp);
    FramedLength(k.secret, f.secret, mic, rest, 0);
    ClearParts(k.secret, f.secret, mic, rest);
    RestFound(k, f, list, stamp);
    ListPosition(k, list, stamp);
    FramedPositive(k.secret, mic);
  }

  lemma ProtTextIs(k: Parts, list: bytes, stamp: bytes)
    ensures ProtText(k, list, stamp) == "(" + (PROT_HEAD + InnerText(k, list, stamp))
    ensures |ProtText(k, list, stamp)| > 0
  {
  }

  lemma FramedPositive(secret: bytes, mic: Option<bytes>)
    ensures |Framed(secret, mic)| >= 4 + |secret|
  {
  }

  // ----- the integrity code

  /** The hash over the merged list covers what was hashed at protect time. */
  lemma MicAgrees(k: Parts, f: Frame, stamp: bytes, junk: bytes)
    requires Framing(k, f) && k.outer == "(11:private-key" && IsStamp(stamp)
    ensures MicRange(k.outer + (k.inner + k.public) + k.secret + (stamp + k.tail) + junk) == Ok(StampedMic(k, stamp))
  {
    hide ReadPairs, Token, ReadPair, Skip, Scan, FindAlgo, IsStamp, Used, MicRange, SkipPairs;
    var r3 := k.tail + junk;
    var r2 := stamp + r3;
    var r1 := k.secret + r2;
    var r0 := k.public + r1;
    var key := k.outer + (k.inner + k.public) + k.secret + (stamp + k.tail) + junk;
    assert key[1..] == f.head + (k.inner + r0);
    TokSegFacts(f.head, "private-key", k.inner + r0, 1);
    assert (k.inner + r0)[1..] == f.token + r0;
    TokSegFacts(f.token, f.algo, r0, 1);
    PairsSegFacts(k.public, f.public, r1, "protected", 1);
    PairsSegFacts(k.secret, f.secret, r2, "protected", 1);
    StampPassed(stamp, r3, 1);
    MicRangeIs(key, k.inner + r0, r0, r3);
    MicText(k, stamp, junk);
    UsedPrefix(k.inner + k.public + k.secret + stamp + ")", r3[1..]);
  }

  lemma StampSkipped(stamp: bytes, r: bytes)
    requires PairSeg(stamp, "protected-at") && Head(r) == ')'
    ensures SkipPairs(stamp + r) == Some(r)
  {
    hide ReadPair;
    PairSegFacts(stamp, "protected-at", r);
    assert (stamp + r)[0] == '(';
    assert SkipPairs(r) == Some(r);
  }

  lemma MicText(k: Parts, stamp: bytes, junk: bytes)
    requires k.tail != [] && k.tail[0] == ')'
    ensures var r3 := k.tail + junk;
            k.inner + (k.public + (k.secret + (stamp + r3))) == (k.inner + k.public + k.secret + stamp + ")") + r3[1..]
  {
    assert k.tail + junk == ")" + (k.tail + junk)[1..];
  }

  /** What calculate_mic hashes, given the cursors it stops at. */
  lemma MicRangeIs(key: bytes, s: bytes, s': bytes, close: bytes)
    requires Head(key) == '(' && Token(key[1..]) == Tok("private-key", s) && Head(s) == '('
    requires Token(s[1..]).Tok? && Token(s[1..]).rest == s' && SkipPairs(s') == Some(close) && Head(close) == ')'
    ensures MicRange(key) == Ok(Used(s, close[1..]))
  {
    hide Token, SkipPairs, Used;
    assert MicLists(s, s') == Ok(Used(s, close[1..]));
    assert "private-key"[0] != "shared-secret"[0];
  }

  // ----- the theorem

  /** The last steps return the plain key, if the integrity code of CBC mode is right. */
  lemma FinishBack(cr: Crypto, k: Parts, f: Frame, stamp: bytes, m: Merged, ocb: bool, junk: Junk)
    requires Framing(k, f) && k.outer == "(11:private-key" && IsStamp(stamp) && CanonicalKey(k, f)
    requires var front := k.outer + (k.inner + k.public) + k.secret;
             && m.list == front + (stamp + k.tail)
             && m.cutOff == (if stamp == [] then 0 else |front|) && m.cutLen == |stamp| && |m.list| <= m.size
    ensures Finish(cr, m, ocb, junk) ==
            if ocb || cr.sha1(StampedMic(k, stamp)) == m.mic then Ok(k.Whole()) else Err(CorruptedProtection)
  {
    hide ReadPairs, Token, ReadPair, Skip, Scan, FindAlgo, IsStamp, Used, MicRange, CanonLen, StampedMic, CutOut,
         TokSeg, PairsSeg, CanonicalKey;
    var front := k.outer + (k.inner + k.public) + k.secret;
    var final := Buffer(m.list, m.size, junk);
    var rest := final[|m.list|..];
    assert final == front + (stamp + k.tail) + rest;
    MicAgrees(k, f, stamp, rest);
    var more := StampCut(front, stamp, k.tail, rest);
    assert front + k.tail == k.Whole();
    PlainLength(k, f, more);
    assert (k.Whole() + more)[..|k.Whole()|] == k.Whole();
  }

  /** Cutting out the time stamp moves the tail up to the secret parameters. */
  lemma StampCut(front: bytes, stamp: bytes, tail: bytes, rest: bytes) returns (more: bytes)
    ensures CutOut(front + (stamp + tail) + rest, if stamp == [] then 0 else |front|, |stamp|) == front + tail + more
  {
    var final := front + (stamp + tail) + rest;
    assert final[|front| + |stamp|..] == tail + rest;
    more := rest + final[|final| - |stamp|..];
    if stamp == [] {
      assert stamp + tail == tail && final[|final|..] == [] && final[..0] == [];
      assert CutOut(final, 0, 0) == final;
    }
  }

  /** The four octets that agent_protect does not copy are "(11:" if the length has no leading zero ... */
  lemma HeadIsCanonical(head: bytes)
    requires TokSeg(head, "private-key")
    ensures head != []
    ensures head[0] != '0' ==> head == "11:private-key"
  {
    hide Token, Value, Dec;
    var ds := TokSegSplit(head, "private-key");
    if head[0] != '0' {
      assert head[0] == ds[0];
      DecUnique(ds);
      DecUnique("11");
      ValueTwo('1', '1');
      assert "11" == ['1', '1'];
    }
  }

  /** ... and otherwise what is copied does not start with the name. */
  lemma HeadShifted(head: bytes)
    requires TokSeg(head, "private-key") && head[0] == '0'
    ensures |head| > 3 && head[3] != 'p'
  {
    hide Token, Value;
    var ds := TokSegSplit(head, "private-key");
    assert head[0] == ds[0];
    ZeroPrefix(ds);
    if |ds| > 3 {
      assert IsDigit(ds[3]);
    }
  }

  lemma ZeroPrefix(ds: bytes)
    requires AllDigits(ds) && ds != [] && ds[0] == '0'
    ensures |ds| <= 2 ==> Value(ds) < 10
  {
    ValueOne(ds[0]);
    if |ds| == 1 {
      assert ds == [ds[0]];
    } else if |ds| == 2 {
      ValueTwo(ds[0], ds[1]);
      assert ds == [ds[0], ds[1]];
    }
  }

  lemma ShiftedFails(cr: Crypto, x: bytes, passphrase: bytes, wantTime: bool, junk: Scratch)
    requires x != [] && x[0] != 'p'
    ensures Unprotect(cr, "(21:protected-" + x, passphrase, wantTime, junk).Err?
  {
    hide Token, Unprotect, Value;
    var key: bytes := "(21:protected-" + x;
    var s := key[1..];
    var ds := ['2', '1'];
    var t: bytes := ":protected-" + x;
    assert s == ds + t;
    ValueTwo('2', '1');
    DigitCountAppend(ds, t);
    assert s[..2] == ds;
    if Token(s).Tok? {
      TokenData(s, 2);
      assert s[13] == x[0];
      assert Token(s).data[10] == x[0];
      OtherName(Token(s).data);
    }
    WrongName(cr, key, passphrase, wantTime, junk);
  }

  lemma OtherName(d: bytes)
    requires |d| > 10 && d[10] != 'p'
    ensures d != "protected-private-key"
  {
    assert "protected-private-key"[10] == 'p';
  }

  /** A key with another name is refused. */
  lemma WrongName(cr: Crypto, key: bytes, passphrase: bytes, wantTime: bool, junk: Scratch)
    requires Head(key) == '(' && (Token(key[1..]).Tok? ==> Token(key[1..]).data != "protected-private-key")
    ensures Unprotect(cr, key, passphrase, wantTime, junk).Err?
  {
    hide Token, Skip, UnprotectLists, FindAlgo;
  }

  /** Reading back a protected key whose first length was canonical. */
  lemma UnprotectBack(cr: Crypto, k: Parts, f: Frame, w: Sealing, wantTime: bool, junk: Scratch)
    requires cr.Lawful() && w.Valid() && SameKey(cr, w) && w.passphrase != []
    requires Framing(k, f) && k.outer == "(11:private-key"
    ensures var prot := ProtText(k, ProtectedList(w, Ciphertext(cr, k, w)), TimestampList(w.time));
            var r := Unprotect(cr, prot, w.passphrase, wantTime, junk);
            if CanonicalKey(k, f) && Readable(w.count)
            then r == Ok(Plain(k.Whole(), if wantTime then Some(w.time) else None))
            else r.Err?
  {
    hide ReadPairs, Token, ReadPair, Skip, Scan, FindAlgo, TimestampList, Used, ProtectedList, FindList, FindTime,
         UnprotectList, InnerText, Ciphertext;
    var c := Ciphertext(cr, k, w);
    var _ := DecryptBack(cr, k, f.secret, w, junk.clear);
    var list, stamp := ProtectedList(w, c), TimestampList(w.time);
    ProtectedListSeg(w, c, stamp + k.tail);
    TimestampSeg(w.time);
    var prot := ProtText(k, list, stamp);
    var inner := InnerText(k, list, stamp);
    ProtHeadSeg();
    assert prot[1..] == PROT_HEAD + inner;
    TokSegFacts(PROT_HEAD, "protected-private-key", inner, 1);
    InnerHead(k, list, stamp);
    InnerSkip(k, f, list, stamp);
    ListFound(k, f, list, stamp);
    TimeFound(k, f, list, stamp);
    NonEmptyList(list, "protected", []);
    UnprotectListBack(cr, k, f, w, list, Token(list[1..]).rest, junk);
  }

  lemma InnerHead(k: Parts, list: bytes, stamp: bytes)
    requires k.inner != []
    ensures Head(InnerText(k, list, stamp)) == k.inner[0]
  {
  }

  lemma UnprotectListBack(cr: Crypto, k: Parts, f: Frame, w: Sealing, list: bytes, y: bytes, junk: Scratch)
    requires cr.Lawful() && w.Valid() && SameKey(cr, w) && w.passphrase != []
    requires Framing(k, f) && k.outer == "(11:private-key"
    requires Ciphertext(cr, k, w) != [] && list == ProtectedList(w, Ciphertext(cr, k, w))
    requires list != [] && Token(list[1..]) == Tok("protected", y)
    ensures var stamp := TimestampList(w.time);
            var inner, r := InnerText(k, list, stamp), stamp + k.tail;
            var u := UnprotectList(cr, ProtText(k, list, stamp), inner, k.tail[1..], list + r,
                                   y + r, w.passphrase, junk);
            if CanonicalKey(k, f) && Readable(w.count) then u == Ok(Some(k.Whole())) else u.Err?
  {
    hide ReadPairs, Token, ReadPair, Skip, Scan, FindAlgo, TimestampList, Used, ProtectedList, FindList, FindTime,
         InnerText, Ciphertext, AadOf, OpenLock, ReadLock, ReadCount, ProtText, LockText, AuthData, CanonicalKey,
         FindMethod, ModeOf, ListSeg, PairSeg, Dec, TokSeg, PairsSeg, UnprotectList;
    var c := Ciphertext(cr, k, w);
    var stamp := TimestampList(w.time);
    var r := stamp + k.tail;
    ProtectedListSeg(w, c, r);
    TimestampSeg(w.time);
    TimestampValue(w.time);
    NonEmptyList(list, "protected", r);
    ModeText(w);
    LockReadBack(w, c, r);
    CountReadBack(w.count);
    if !Readable(w.count) {
      LockRefused(cr, ProtText(k, list, stamp), InnerText(k, list, stamp), k.tail[1..], list + r,
                  y + r, w.passphrase, junk, r, ModeOf(w), LockText(w, c) + r, Method(ModeOf(w), Aes128, 16, w.ocb));
      return;
    }
    StampOf(k, w.time);
    AadAgrees(k, f, list, stamp);
    UnprotectListStages(cr, ProtText(k, list, stamp), InnerText(k, list, stamp), k.tail[1..], list + r,
                        y + r, w.passphrase, junk, r, ModeOf(w), LockText(w, c) + r,
                        Method(ModeOf(w), Aes128, 16, w.ocb), Lock(w.salt, CountRead(w.count), w.iv, c));
    OpenLockBack(cr, k, f, w, list, junk);
    SameLock(cr, ProtText(k, list, stamp), list + r, AuthData(k, w.time), Method(ModeOf(w), Aes128, 16, w.ocb),
             Lock(w.salt, w.count, w.iv, c), CountRead(w.count), w.passphrase, junk);
  }

  /** The count matters only for the key that it derives. */
  lemma SameLock(cr: Crypto, prot: bytes, list: bytes, aad: bytes, m: Method, l: Lock, n: nat, passphrase: bytes, junk: Scratch)
    requires cr.kdf(passphrase, l.salt, n, m.keyLen) == cr.kdf(passphrase, l.salt, l.count, m.keyLen)
    ensures OpenLock(cr, prot, list, aad, m, l.(count := n), passphrase, junk) == OpenLock(cr, prot, list, aad, m, l, passphrase, junk)
  {
    hide Merge, Finish, CanonLen, Buffer;
    assert Decrypt(cr, aad, m, l.(count := n), passphrase, junk.clear) == Decrypt(cr, aad, m, l, passphrase, junk.clear);
  }

  lemma UnprotectListStages(cr: Crypto, prot: bytes, inner: bytes, innerEnd: bytes, list: bytes, s: bytes,
                            passphrase: bytes, junk: Scratch, listEnd: bytes, mode: bytes, s': bytes, m: Method, l: Lock)
    requires list != [] && Skip(list[1..], 1, false) == Some(listEnd)
    requires Token(s) == Tok(mode, s') && FindMethod(mode) == Some(m) && ReadLock(s', m.ocb) == Ok(l)
    ensures UnprotectList(cr, prot, inner, innerEnd, list, s, passphrase, junk) ==
            match OpenLock(cr, prot, list, AadOf(inner, innerEnd, list, listEnd), m, l, passphrase, junk)
            case Err(e) => Err(e)
            case Ok(key) => Ok(Some(key))
  {
  }

  lemma LockRefused(cr: Crypto, prot: bytes, inner: bytes, innerEnd: bytes, list: bytes, s: bytes,
                    passphrase: bytes, junk: Scratch, listEnd: bytes, mode: bytes, s': bytes, m: Method)
    requires list != [] && Skip(list[1..], 1, false) == Some(listEnd)
    requires Token(s) == Tok(mode, s') && FindMethod(mode) == Some(m) && ReadLock(s', m.ocb).Err?
    ensures UnprotectList(cr, prot, inner, innerEnd, list, s, passphrase, junk).Err?
  {
  }

  lemma TimestampValue(time: bytes)
    requires |time| == 15
    ensures PairSeg(TimestampList(time), "protected-at") && |ReadPair(TimestampList(time)).value| == 15
  {
    hide Token, Scan, ReadPair, TimestampList;
    TimestampSeg(time);
  }

  lemma NonEmptyList(list: bytes, name: bytes, r: bytes)
    requires ListSeg(list, name)
    ensures list != [] && Token(list[1..]).Tok? && Token(list[1..]).data == name
    ensures Skip((list + r)[1..], 1, false) == Some(r)
  {
    hide Token, Scan, Skip;
    ListSegFacts(list, name, r, 1);
  }

  lemma OpenLockBack(cr: Crypto, k: Parts, f: Frame, w: Sealing, list: bytes, junk: Scratch)
    requires cr.Lawful() && w.Valid() && w.passphrase != []
    requires k.outer == "(11:private-key"
    requires Spliced(k, f, list, TimestampList(w.time)) && Scan(list, 2, true).Some?
    ensures var stamp := TimestampList(w.time);
            var m := Method(ModeOf(w), Aes128, 16, w.ocb);
            var l := Lock(w.salt, w.count, w.iv, Ciphertext(cr, k, w));
            var u := OpenLock(cr, ProtText(k, list, stamp), list + (stamp + k.tail), AuthData(k, w.time),
                              m, l, w.passphrase, junk);
            if CanonicalKey(k, f) then u == Ok(k.Whole()) else u.Err?
  {
    hide ReadPairs, Token, ReadPair, Skip, Scan, FindAlgo, TimestampList, Used, ListSeg, PairSeg, PairsSeg,
         Ciphertext, Merge, Finish, Decrypt, ProtText, Framed, AuthData, MicInput;
    var stamp := TimestampList(w.time);
    TimestampSeg(w.time);
    var rest := DecryptBack(cr, k, f.secret, w, junk.clear);
    if Scan(k.secret, 2, true).Some? {
      var mic := MicOf(cr, k, w);
      HeadOf(k, f);
      MergeBack(k, f, list, stamp, mic, rest);
      if CanonicalRest(k, f) {
        var front := k.outer + (k.inner + k.public) + k.secret;
        var m := Merged(front + (stamp + k.tail), |ProtText(k, list, stamp)| + |Framed(k.secret, mic)|,
                        |front|, |stamp|, if mic.Some? then mic.value else []);
        MergedFits(k, list, stamp, mic);
        StampOf(k, w.time);
        FinishBack(cr, k, f, stamp, m, w.ocb, junk.list);
      }
    }
  }

  lemma HeadOf(k: Parts, f: Frame)
    requires Framing(k, f) && k.outer == "(11:private-key"
    ensures f.head == "11:private-key"
  {
    hide Token, Scan, ReadPairs, FindAlgo;
    assert f.head == k.outer[1..];
  }

  /** The buffer that merge_lists allocates holds everything that it writes. */
  lemma MergedFits(k: Parts, list: bytes, stamp: bytes, mic: Option<bytes>)
    requires k.outer == "(11:private-key"
    ensures |k.outer + (k.inner + k.public) + k.secret + (stamp + k.tail)|
            <= |ProtText(k, list, stamp)| + |Framed(k.secret, mic)|
  {
    assert |PROT_HEAD| == 24;
  }

  /**
   Unprotecting a protected key with the same passphrase gives the plain key
   back, octet for octet, if the plain key is a canonical S-expression and the
   count is one that can be read; if a length of the key is written with a
   leading zero, or the count cannot be read, unprotecting fails.  Only if a
   count from 96 to 255 is read as one that derives another key does the outcome
   depend on the cipher.
   */
  lemma RoundTripExact(cr: Crypto, plain: bytes, w: Sealing, wantTime: bool, junk: Scratch)
    requires cr.Lawful() && w.Valid() && SameKey(cr, w)
    requires Protect(cr, plain, w).Ok?
    ensures var n := CanonLen(plain, 0);
            var r := Unprotect(cr, Protect(cr, plain, w).value, w.passphrase, wantTime, junk);
            if n > 0 && Readable(w.count)
            then r == Ok(Plain(plain[..n], if wantTime then Some(w.time) else None)) else r.Err?
  {
    hide ReadPairs, Token, ReadPair, Skip, Scan, FindAlgo, TimestampList, Used, ProtectedList, Unprotect,
         Ciphertext, SplitKey, CanonLen;
    var k := SplitKey(plain).value;
    var f, after := SplitKeyFrame(plain);
    PlainLength(k, f, after);
    HeadIsCanonical(f.head);
    if f.head[0] == '0' {
      HeadShifted(f.head);
      ShiftedResult(cr, plain, k, f, after, w, wantTime, junk);
    } else {
      AlignedResult(cr, plain, k, f, after, w);
      UnprotectBack(cr, k, f, w, wantTime, junk);
    }
  }

  lemma ShiftedResult(cr: Crypto, plain: bytes, k: Parts, f: Frame, after: bytes, w: Sealing, wantTime: bool, junk: Scratch)
    requires cr.Lawful() && w.Valid() && Protect(cr, plain, w).Ok? && SplitKey(plain) == Ok(k)
    requires Framing(k, f) && plain == k.Whole() + after && |f.head| > 3 && f.head[3] != 'p'
    ensures Unprotect(cr, Protect(cr, plain, w).value, w.passphrase, wantTime, junk).Err?
  {
    hide TimestampList, ProtectedList, Unprotect, Ciphertext, SplitKey, Scan, FindAlgo, TokSeg, PairsSeg;
    var list, stamp := ProtectedList(w, Ciphertext(cr, k, w)), TimestampList(w.time);
    var copied := plain[4..|k.outer + k.inner + k.public|];
    assert copied[0] == f.head[3];
    var x := copied + list + stamp + k.tail;
    assert "(21:protected-" + copied + list + stamp + k.tail == "(21:protected-" + x;
    ShiftedFails(cr, x, w.passphrase, wantTime, junk);
  }

  lemma AlignedResult(cr: Crypto, plain: bytes, k: Parts, f: Frame, after: bytes, w: Sealing)
    requires cr.Lawful() && w.Valid() && Protect(cr, plain, w).Ok? && SplitKey(plain) == Ok(k)
    requires Framing(k, f) && plain == k.Whole() + after && f.head == "11:private-key"
    ensures k.outer == "(11:private-key"
    ensures Protect(cr, plain, w) ==
            Ok(ProtText(k, ProtectedList(w, Ciphertext(cr, k, w)), TimestampList(w.time)))
  {
    hide TimestampList, ProtectedList, Ciphertext, SplitKey, Scan, FindAlgo, TokSeg, PairsSeg;
    var list, stamp := ProtectedList(w, Ciphertext(cr, k, w)), TimestampList(w.time);
    assert k.outer == "(11:private-key";
    AlignedText(plain, k, after, list, stamp);
  }

  lemma AlignedText(plain: bytes, k: Parts, after: bytes, list: bytes, stamp: bytes)
    requires k.outer == "(11:private-key" && plain == k.Whole() + after
    ensures "(21:protected-" + plain[4..|k.outer + k.inner + k.public|] + list + stamp + k.tail ==
            ProtText(k, list, stamp)
  {
    hide ProtText, InnerText;
    var name, copied := "private-key", plain[4..|k.outer + k.inner + k.public|];
    assert k.outer == "(11:" + name;
    Middle(plain, "(11:", name, k.inner, k.public, k.secret + k.tail + after);
    assert "(" + PROT_HEAD == "(21:protected-" + name;
    Regroup("(21:protected-", name, k.inner, k.public, list, stamp, k.tail, "(" + PROT_HEAD);
    ProtTextIs(k, list, stamp);
    InnerTextIs(k, list, stamp);
  }

  lemma InnerTextIs(k: Parts, list: bytes, stamp: bytes)
    ensures "(" + (PROT_HEAD + InnerText(k, list, stamp)) ==
            ("(" + PROT_HEAD) + (k.inner + (k.public + (list + (stamp + k.tail))))
  {
  }

  lemma Middle(s: bytes, a: bytes, b: bytes, c: bytes, d: bytes, e: bytes)
    requires s == a + b + c + d + e
    ensures s[|a|..|a + b + c + d|] == b + c + d
  {
  }

  lemma Regroup(a: bytes, b: bytes, c: bytes, d: bytes, e: bytes, f: bytes, g: bytes, ab: bytes)
    requires ab == a + b
    ensures a + (b + c + d) + e + f + g == ab + (c + (d + (e + (f + g))))
  {
  }

}
