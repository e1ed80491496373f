/**
 What agent_unprotect accepts: any protected list that is sealed with the right
 passphrase opens between the public parts and the time that its check covers,
 and nowhere else.
 */
module Opening {
  import opened Octets
  import opened Sexp
  import opened Protection
  import opened KeyStructure
  import opened RoundTrip

  // ----- protected lists of any contents

  /** The strings in a protected list behind the name of its method. */
  datatype LockTokens = LockTokens(hash: bytes, salt: bytes, field: bytes, iv: bytes, data: bytes) {
    predicate Filled() {
      hash != [] && salt != [] && field != [] && iv != [] && data != []
    }
  }

  function TokensText(t: LockTokens): bytes {
    "(" + ("(" + (TokenOf(t.hash) + (TokenOf(t.salt) + (TokenOf(t.field) + (")" + (TokenOf(t.iv)
    + (")" + (TokenOf(t.data) + (")" + [])))))))))
  }

  function LockList(mode: bytes, t: LockTokens): bytes {
    "(" + (TokenOf("protected") + (TokenOf(mode) + TokensText(t)))
  }

  lemma TokenScans(data: bytes, r: bytes, depth: nat, canonical: bool)
    requires data != [] && depth > 0
    ensures Scan(TokenOf(data) + r, depth, canonical) == Scan(r, depth, canonical)
    ensures Token(TokenOf(data) + r) == Tok(data, r)
  {
    hide Token, Scan, TokenOf;
    TokSegOfToken(data);
    ScanTok(TokenOf(data), data, r, depth, canonical);
    TokenOfAppend(data, r);
  }

  lemma TokensScan(t: LockTokens, canonical: bool)
    requires t.Filled()
    ensures Scan(TokensText(t), 1, canonical) == Some(0)
  {
    hide Token, Scan, TokenOf;
    var r0 := ")" + [];
    var r1 := TokenOf(t.data) + r0;
    var r2 := TokenOf(t.iv) + (")" + r1);
    var r3 := TokenOf(t.field) + (")" + r2);
    var r4 := TokenOf(t.salt) + r3;
    var r5 := TokenOf(t.hash) + r4;
    assert TokensText(t) == "(" + ("(" + r5);
    ScanOpen("(" + r5, 1, canonical);
    ScanOpen(r5, 2, canonical);
    TokenScans(t.hash, r4, 3, canonical);
    TokenScans(t.salt, r3, 3, canonical);
    TokenScans(t.field, ")" + r2, 3, canonical);
    ScanClose(r2, 3, canonical);
    TokenScans(t.iv, ")" + r1, 2, canonical);
    ScanClose(r1, 2, canonical);
    TokenScans(t.data, r0, 1, canonical);
    ScanClose([], 1, canonical);
    ScanEmpty(0, canonical);
  }

  lemma LockListSeg(mode: bytes, t: LockTokens, r: bytes)
    requires mode != [] && t.Filled()
    ensures var l := LockList(mode, t);
            && ListSeg(l, "protected") && Scan(l, 2, true) == Some(2)
            && Token(Token(l[1..]).rest + r) == Tok(mode, TokensText(t) + r)
  {
    hide Token, Scan, TokenOf, TokensText;
    var l := LockList(mode, t);
    var y := TokenOf(mode) + TokensText(t);
    assert l[1..] == TokenOf("protected") + y;
    TokenScans("protected", y, 1, true);
    TokenScans(mode, TokensText(t), 1, true);
    TokenScans(mode, TokensText(t), 1, false);
    TokenScans(mode, TokensText(t) + r, 1, true);
    assert y + r == TokenOf(mode) + (TokensText(t) + r);
    TokensScan(t, true);
    TokensScan(t, false);
    ScanShift(l[1..], 1, 2, true);
    Parens(l, 2, true);
  }

  /** The strings are read back, and checked in this order. */
  lemma TokensRead(t: LockTokens, ocb: bool, r: bytes)
    requires t.Filled()
    ensures ReadLock(TokensText(t) + r, ocb) ==
            if t.hash != "sha1" then Err(UnsupportedProtection)
            else if |t.salt| != 8 then Err(CorruptedProtection)
            else match ReadCount(t.field)
                 case Err(e) => Err(e)
                 case Ok(n) => if |t.iv| != (if ocb then 12 else 16) then Err(CorruptedProtection)
                               else Ok(Lock(t.salt, n, t.iv, t.data))
  {
    hide Token, TokenOf, ReadCount;
    var q0 := ")" + r;
    var q1 := TokenOf(t.data) + q0;
    var q2 := TokenOf(t.iv) + (")" + q1);
    var q3 := TokenOf(t.field) + (")" + q2);
    var q4 := TokenOf(t.salt) + q3;
    var s := TokensText(t) + r;
    assert s == "(" + ("(" + (TokenOf(t.hash) + q4));
    assert s[2..] == TokenOf(t.hash) + q4;
    TokenOfAppend(t.hash, q4);
    TokenOfAppend(t.salt, q3);
    TokenOfAppend(t.field, ")" + q2);
    assert (")" + q2)[1..] == q2;
    TokenOfAppend(t.iv, ")" + q1);
    assert (")" + q1)[1..] == q1;
    TokenOfAppend(t.data, q0);
  }

  // ----- reading them in a key

  /** A time stamp, or none. */
  function StampText(time: Option<bytes>): bytes {
    if time.Some? then "(12:protected-at15:" + time.value + ")" else []
  }

  predicate ValidTime(time: Option<bytes>) {
    time.Some? ==> |time.value| == 15
  }

  /** A time stamp has fifteen octets; any other length is an error, whatever parameters stand before it. */
  lemma TimeRead(x: bytes, names: seq<bytes>, time: bytes, r: bytes)
    requires PairsSeg(x, names) && "protected-at" !in names && time != []
    ensures FindTime(x + ("(" + (TokenOf("protected-at") + (TokenOf(time) + r)))) ==
            if |time| == 15 then Ok(Some(time)) else Err(UnknownSexp)
  {
    hide Token, TokenOf, Skip, Scan, ReadPairs, SkipPairs;
    var s := "(" + (TokenOf("protected-at") + (TokenOf(time) + r));
    PairsSegFacts(x, names, s, "", 1);
    assert s[1..] == TokenOf("protected-at") + (TokenOf(time) + r);
    TokenOfAppend("protected-at", TokenOf(time) + r);
    TokenOfAppend(time, r);
  }

  lemma StampTextFacts(time: Option<bytes>)
    requires ValidTime(time)
    ensures var stamp := StampText(time); IsStamp(stamp) && TimeOf(stamp) == time && Scan(stamp, 2, true).Some?
  {
    hide ReadPair, Scan;
    if time.Some? {
      TimestampSeg(time.value);
      StampIsPair(TimestampList(time.value));
    } else {
      ScanEmpty(2, true);
    }
  }

  /** Reading a key with any protected list comes down to reading that list. */
  lemma ReadsList(cr: Crypto, k: Parts, f: Frame, mode: bytes, t: LockTokens, time: Option<bytes>, passphrase: bytes,
                  wantTime: bool, junk: Scratch)
    requires Framing(k, f) && mode != [] && t.Filled() && ValidTime(time)
    ensures var list, stamp := LockList(mode, t), StampText(time);
            var prot := ProtText(k, list, stamp);
            Unprotect(cr, prot, passphrase, wantTime, junk) ==
            match ReadsMethod(cr, prot, k, list, stamp, mode, t, passphrase, junk)
            case Err(e) => Err(e)
            case Ok(None) => Ok(OpenPgpNative(list + (stamp + k.tail)))
            case Ok(Some(key)) => Ok(Plain(key, if wantTime then time else None))
  {
    hide ReadPairs, Token, ReadPair, Skip, Scan, FindAlgo, Used, FindList, FindTime, UnprotectList, InnerText, LockList,
         StampText, ReadsMethod, TokenOf, TokensText;
    var list, stamp := LockList(mode, t), StampText(time);
    LockListSeg(mode, t, stamp + k.tail);
    StampTextFacts(time);
    var prot := ProtText(k, list, stamp);
    var inner := InnerText(k, list, stamp);
    ProtHeadSeg();
    assert prot[1..] == PROT_HEAD + inner;
    TokSegFacts(PROT_HEAD, "protected-private-key", inner, 1);
    InnerHead(k, list, stamp);
    InnerSkip(k, f, list, stamp);
    ListFound(k, f, list, stamp);
    TimeFound(k, f, list, stamp);
    NonEmptyList(list, "protected", []);
    ListMethod(cr, k, f, mode, t, time, passphrase, junk);
  }

  /** The method of a list, and what it does with the strings. */
  function ReadsMethod(cr: Crypto, prot: bytes, k: Parts, list: bytes, stamp: bytes, mode: bytes, t: LockTokens,
                       passphrase: bytes, junk: Scratch): Result<Option<bytes>>
  {
    match FindMethod(mode)
    case None => if mode == NATIVE_MODE then Ok(None) else Err(UnsupportedProtection)
    case Some(m) =>
      var l :- ReadLock(TokensText(t) + (stamp + k.tail), m.ocb);
      var key :- OpenLock(cr, prot, list + (stamp + k.tail), StampedAad(k, stamp), m, l, passphrase, junk);
      Ok(Some(key))
  }

  lemma ListMethod(cr: Crypto, k: Parts, f: Frame, mode: bytes, t: LockTokens, time: Option<bytes>, passphrase: bytes, junk: Scratch)
    requires Framing(k, f) && mode != [] && t.Filled() && ValidTime(time)
    ensures var list, stamp := LockList(mode, t), StampText(time);
            var inner, r := InnerText(k, list, stamp), stamp + k.tail; var prot := ProtText(k, list, stamp);
            && list != [] && Token(list[1..]).Tok?
            && UnprotectList(cr, prot, inner, k.tail[1..], list + r, Token(list[1..]).rest + r, passphrase, junk) ==
               ReadsMethod(cr, prot, k, list, stamp, mode, t, passphrase, junk)
  {
    hide Token, Skip, Scan, LockList, StampText, TokensText, OpenLock, ReadLock, ProtText, InnerText, AadOf, FindMethod, FindAlgo,
         ReadPairs, ReadPair, StampedAad;
    var list, stamp := LockList(mode, t), StampText(time);
    var r := stamp + k.tail;
    LockListSeg(mode, t, r);
    StampTextFacts(time);
    NonEmptyList(list, "protected", r);
    AadAgrees(k, f, list, stamp);
  }

  // ----- which lists are refused before anything is decrypted

  /** The methods that can be read, with their ciphers and key lengths. */
  predicate IsMethod(m: Method) {
    || m == Method("openpgp-s2k3-sha1-aes-cbc", Aes128, 16, false)
    || m == Method("openpgp-s2k3-sha1-aes256-cbc", Aes256, 32, false)
    || m == Method("openpgp-s2k3-ocb-aes", Aes128, 16, true)
  }

  lemma MethodFound(m: Method)
    requires IsMethod(m)
    ensures m.name != [] && FindMethod(m.name) == Some(m)
  {
    assert |CBC_MODE| == 25 && |CBC256_MODE| == 28 && |OCB_MODE| == 20;
  }

  lemma NoMethod(mode: bytes)
    requires forall m :: IsMethod(m) ==> m.name != mode
    ensures FindMethod(mode) == None
  {
    assert IsMethod(METHODS[0]) && IsMethod(METHODS[1]) && IsMethod(METHODS[2]);
  }

  /** A list of the OpenPGP method is handed on as it is; one of an unknown method is refused. */
  lemma OtherMethods(cr: Crypto, k: Parts, f: Frame, mode: bytes, t: LockTokens, time: Option<bytes>, passphrase: bytes,
                     wantTime: bool, junk: Scratch)
    requires Framing(k, f) && mode != [] && t.Filled() && ValidTime(time)
    requires forall m :: IsMethod(m) ==> m.name != mode
    ensures var list, stamp := LockList(mode, t), StampText(time);
            Unprotect(cr, ProtText(k, list, stamp), passphrase, wantTime, junk) ==
            if mode == "openpgp-native" then Ok(OpenPgpNative(list + (stamp + k.tail))) else Err(UnsupportedProtection)
  {
    hide Unprotect, LockList, StampText, TokensText, FindMethod, ProtText;
    ReadsList(cr, k, f, mode, t, time, passphrase, wantTime, junk);
    NoMethod(mode);
  }

  /** The checks before decryption, each with its error. */
  lemma RefusedLocks(cr: Crypto, m: Method, k: Parts, f: Frame, t: LockTokens, time: Option<bytes>, passphrase: bytes,
                     wantTime: bool, junk: Scratch)
    requires IsMethod(m) && Framing(k, f) && t.Filled() && ValidTime(time)
    ensures var r := Unprotect(cr, ProtText(k, LockList(m.name, t), StampText(time)), passphrase, wantTime, junk);
            var wellFormed := |t.salt| == 8 && ReadCount(t.field).Ok? && |t.iv| == if m.ocb then 12 else 16;
            var longEnough := if m.ocb then |t.data| >= 20 else |t.data| >= 4 && |t.data| % 16 == 0;
            && (t.hash != "sha1" ==> r == Err(UnsupportedProtection))
            && ((t.hash == "sha1" && !(wellFormed && longEnough)) ==> r == Err(CorruptedProtection))
            && ((t.hash == "sha1" && wellFormed && longEnough && passphrase == []) ==> r == Err(NoPassphrase))
  {
    hide Unprotect, LockList, StampText, TokensText, FindMethod, ProtText, ReadLock, ReadCount, IsMethod, Merge, Finish, CanonLen;
    MethodFound(m);
    ReadsList(cr, k, f, m.name, t, time, passphrase, wantTime, junk);
    TokensRead(t, m.ocb, StampText(time) + k.tail);
    CountErrors(t.field);
  }

  lemma CountErrors(field: bytes)
    ensures ReadCount(field).Err? ==> ReadCount(field) == Err(CorruptedProtection)
  {
    hide StrToUl, DecodeCount;
  }

  // ----- which sealed lists open

  /**
   The data is the secret part of a key, framed together with a check and
   encrypted: in OCB mode the check is the tag behind it, in CBC mode it is an
   integrity code inside.
   */
  ghost predicate Seals(cr: Crypto, m: Method, t: LockTokens, n: nat, passphrase: bytes, secret: bytes, check: bytes, padding: bytes) {
    var key := cr.kdf(passphrase, t.salt, n, m.keyLen);
    if m.ocb then
      |check| == 16 && t.data == cr.ocbEncrypt(m.cipher, key, t.iv, "((" + secret + "))") + check
    else
      var text := "((" + secret + ")(4:hash4:sha120:" + check + "))" + padding;
      |check| == 20 && |text| % 16 == 0 && t.data == cr.cbcEncrypt(m.cipher, key, t.iv, text)
  }

  /** The check that the key around the list calls for. */
  function Check(cr: Crypto, m: Method, t: LockTokens, n: nat, passphrase: bytes, k: Parts, stamp: bytes): bytes {
    if m.ocb then
      var key := cr.kdf(passphrase, t.salt, n, m.keyLen);
      cr.ocbTag(m.cipher, key, t.iv, k.inner + k.public + stamp + ")", "((" + k.secret + "))")
    else cr.sha1(k.inner + k.public + k.secret + stamp + ")")
  }

  lemma FramedText(secret: bytes, mic: Option<bytes>)
    ensures Framed(secret, mic) == if mic.Some? then "((" + secret + ")(4:hash4:sha120:" + mic.value + "))" else "((" + secret + "))"
  {
    if mic.Some? {
      assert "((" + secret + (HASH_PREFIX + mic.value) + "))" == "((" + secret + HASH_PREFIX + mic.value + "))";
    } else {
      assert "((" + secret + "" == "((" + secret;
    }
  }

  /**
   Data of any kind whose tag is not that of what it is decrypted to (OCB), or
   that is decrypted to something else than a list (CBC): the passphrase is called bad.
   */
  lemma Undecryptable(cr: Crypto, m: Method, k: Parts, f: Frame, t: LockTokens, time: Option<bytes>, passphrase: bytes,
                      wantTime: bool, junk: Scratch)
    requires IsMethod(m) && Framing(k, f) && ValidTime(time) && passphrase != [] && cr.Lawful()
    requires t.hash == "sha1" && |t.salt| == 8 && ReadCount(t.field).Ok? && |t.iv| == if m.ocb then 12 else 16
    requires if m.ocb then |t.data| >= 20 else |t.data| >= 4 && |t.data| % 16 == 0
    requires var key := cr.kdf(passphrase, t.salt, ReadCount(t.field).value, m.keyLen);
             if m.ocb then
               var n := |t.data| - 16;
               t.data[n..] != cr.ocbTag(m.cipher, key, t.iv, k.inner + k.public + StampText(time) + ")",
                                        cr.ocbDecrypt(m.cipher, key, t.iv, t.data[..n]))
             else
               var text := cr.cbcDecrypt(m.cipher, key, t.iv, t.data);
               CanonLen(text, |text|) == 0 || (text[0] != '(' && text[1] != '(')
    ensures Unprotect(cr, ProtText(k, LockList(m.name, t), StampText(time)), passphrase, wantTime, junk) == Err(BadPassphrase)
  {
    hide Unprotect, LockList, StampText, TokensText, FindMethod, ProtText, ReadLock, StrToUl, IsMethod, Merge, Finish, CanonLen, Framing,
         DecodeCount;
    MethodFound(m);
    assert t.field != [] by { if t.field == [] { NoCount(); } }
    ReadsList(cr, k, f, m.name, t, time, passphrase, wantTime, junk);
    TokensRead(t, m.ocb, StampText(time) + k.tail);
    if !m.ocb {
      var text := cr.cbcDecrypt(m.cipher, cr.kdf(passphrase, t.salt, ReadCount(t.field).value, m.keyLen), t.iv, t.data);
      assert Buffer(text, |t.data|, junk.clear) == text;
    }
  }

  lemma NoCount()
    ensures ReadCount([]) == Err(CorruptedProtection)
  {
  }

  /** What is decrypted from sealed data. */
  lemma DecryptSealed(cr: Crypto, m: Method, k: Parts, names: seq<bytes>, t: LockTokens, n: nat, passphrase: bytes,
                      stamp: bytes, check: bytes, padding: bytes, junk: Junk) returns (rest: bytes)
    requires cr.Lawful() && passphrase != [] && PairsSeg(k.secret, names) && Scan(k.secret, 2, true).Some?
    requires |t.iv| == (if m.ocb then 12 else 16) && Seals(cr, m, t, n, passphrase, k.secret, check, padding)
    ensures Decrypt(cr, StampedAad(k, stamp), m, Lock(t.salt, n, t.iv, t.data), passphrase, junk) ==
            if m.ocb && check != Check(cr, m, t, n, passphrase, k, stamp) then Err(BadPassphrase)
            else if !m.ocb && |padding| > 16 then Err(BadPassphrase)
            else Ok(Framed(k.secret, if m.ocb then None else Some(check)) + rest)
  {
    hide Scan, ReadPairs, CanonLen, Framed, PairsSeg;
    var mic := if m.ocb then None else Some(check);
    var text := Framed(k.secret, mic);
    FramedText(k.secret, mic);
    FramedPositive(k.secret, mic);
    var c := t.data;
    var key := cr.kdf(passphrase, t.salt, n, m.keyLen);
    if m.ocb {
      var e := cr.ocbEncrypt(m.cipher, key, t.iv, text);
      assert c[..|text|] == e && c[|text|..] == check;
      rest := Buffer(text, |c|, junk)[|text|..];
      assert Buffer(text, |c|, junk) == text + rest;
    } else {
      rest := padding;
      assert Buffer(text + rest, |c|, junk) == text + rest;
    }
    FramedHead(k.secret, mic, rest);
    FramedLength(k.secret, names, mic, rest, |c|);
  }

  lemma FramedHead(secret: bytes, mic: Option<bytes>, rest: bytes)
    ensures Head(Framed(secret, mic) + rest) == '('
  {
  }

  /** Decrypting, merging and checking. */
  lemma OpenSealed(cr: Crypto, m: Method, k: Parts, f: Frame, t: LockTokens, n: nat, time: Option<bytes>, passphrase: bytes,
                   check: bytes, padding: bytes, junk: Scratch)
    requires cr.Lawful() && IsMethod(m) && passphrase != [] && t.Filled() && |t.iv| == (if m.ocb then 12 else 16)
    requires Framing(k, f) && CanonicalKey(k, f) && k.outer == "(11:private-key" && ValidTime(time)
    requires Seals(cr, m, t, n, passphrase, k.secret, check, padding)
    ensures var list, stamp := LockList(m.name, t), StampText(time);
            OpenLock(cr, ProtText(k, list, stamp), list + (stamp + k.tail), StampedAad(k, stamp), m,
                     Lock(t.salt, n, t.iv, t.data), passphrase, junk) ==
            if !m.ocb && |padding| > 16 then Err(BadPassphrase)
            else if check == Check(cr, m, t, n, passphrase, k, stamp) then Ok(k.Whole())
            else Err(if m.ocb then BadPassphrase else CorruptedProtection)
  {
    hide ReadPairs, Token, ReadPair, Skip, Scan, FindAlgo, Used, ListSeg, PairSeg, PairsSeg, LockList, StampText, IsStamp,
         Merge, Finish, Decrypt, ProtText, Framed, TokensText, IsMethod, Seals;
    var list, stamp := LockList(m.name, t), StampText(time);
    StampTextFacts(time);
    MethodFound(m);
    LockListSeg(m.name, t, []);
    CheckLength(cr, m, t, n, passphrase, k.secret, check, padding);
    var rest := DecryptSealed(cr, m, k, f.secret, t, n, passphrase, stamp, check, padding, junk.clear);
    var mic := if m.ocb then None else Some(check);
    HeadOf(k, f);
    MergeBack(k, f, list, stamp, mic, rest);
    var front := k.outer + (k.inner + k.public) + k.secret;
    var merged := Merged(front + (stamp + k.tail), |ProtText(k, list, stamp)| + |Framed(k.secret, mic)|,
                         if stamp == [] then 0 else |front|, |stamp|, if mic.Some? then mic.value else []);
    MergedFits(k, list, stamp, mic);
    FinishBack(cr, k, f, stamp, merged, m.ocb, junk.list);
  }

  lemma CheckLength(cr: Crypto, m: Method, t: LockTokens, n: nat, passphrase: bytes, secret: bytes, check: bytes, padding: bytes)
    requires Seals(cr, m, t, n, passphrase, secret, check, padding)
    ensures |check| == if m.ocb then 16 else 20
  {
  }

  /**
   A protected list that is sealed with this passphrase, by any of the three
   methods, opens in a canonical key, with or without a time stamp, if and only
   if its check is the one that the public part, the secret part and the time
   stamp call for.  Otherwise the passphrase is called bad, or the protection corrupted.
   */
  lemma OpensIff(cr: Crypto, m: Method, k: Parts, f: Frame, t: LockTokens, count: nat, time: Option<bytes>, passphrase: bytes,
                 check: bytes, padding: bytes, wantTime: bool, junk: Scratch)
    requires cr.Lawful() && IsMethod(m) && passphrase != []
    requires Framing(k, f) && CanonicalKey(k, f) && k.outer == "(11:private-key" && ValidTime(time)
    requires t.hash == "sha1" && |t.salt| == 8 && t.field == Dec(count) && |t.iv| == (if m.ocb then 12 else 16) && t.data != []
    requires count <= ULONG_MAX && Readable(count)
    requires Seals(cr, m, t, CountRead(count), passphrase, k.secret, check, padding)
    ensures var stamp := StampText(time);
            Unprotect(cr, ProtText(k, LockList(m.name, t), stamp), passphrase, wantTime, junk) ==
            if !m.ocb && |padding| > 16 then Err(BadPassphrase)
            else if check == Check(cr, m, t, CountRead(count), passphrase, k, stamp)
            then Ok(Plain(k.Whole(), if wantTime then time else None))
            else Err(if m.ocb then BadPassphrase else CorruptedProtection)
  {
    hide Unprotect, LockList, StampText, TokensText, FindMethod, ProtText, ReadLock, ReadCount, IsMethod, Seals, Check,
         CanonicalKey, OpenLock, Dec, CountRead, StampedAad, Framing;
    MethodFound(m);
    ReadsList(cr, k, f, m.name, t, time, passphrase, wantTime, junk);
    TokensRead(t, m.ocb, StampText(time) + k.tail);
    CountReadBack(count);
    OpenSealed(cr, m, k, f, t, CountRead(count), time, passphrase, check, padding, junk);
  }

  // ----- lists that agent_protect has written

  lemma WrittenList(w: Sealing, c: bytes)
    requires w.Valid()
    ensures ProtectedList(w, c) == LockList(ModeOf(w), LockTokens("sha1", w.salt, Dec(w.count), w.iv, c))
  {
    hide TokenOf, Dec, ProtectedList;
    ProtectedListText(w, c);
    FixedText(w.salt);
    SameTokens(w, c, TokenOf("sha1"), TokenOf(w.salt));
  }

  /** The names that are written without counting them. */
  lemma FixedText(salt: bytes)
    requires |salt| == 8
    ensures TokenOf("protected") == "9:protected" && TokenOf("sha1") == "4:sha1" && TokenOf(salt) == "8:" + salt
  {
    hide TokenOf;
    ShortToken("protected");
    ShortToken("sha1");
    ShortToken(salt);
    assert "9:protected" == "9" + ":" + "protected" && "4:sha1" == "4" + ":" + "sha1" && "8:" + salt == "8" + ":" + salt;
  }

  lemma SameTokens(w: Sealing, c: bytes, hash: bytes, salt: bytes)
    requires hash == "4:sha1" && salt == "8:" + w.salt
    ensures LockText(w, c) == "(" + ("(" + (hash + (salt + (TokenOf(Dec(w.count)) + (")" + (TokenOf(w.iv) + (")" + (TokenOf(c) + (")" + [])))))))))
  {
    hide TokenOf, Dec;
  }

  lemma ShortToken(data: bytes)
    requires 0 < |data| < 10
    ensures TokenOf(data) == [DigitChar(|data|)] + ":" + data
  {
  }

  /**
   The list that agent_protect has written for one key, put into another key
   with the same secret part, opens if and only if the other public part and
   time have the same tag (OCB) or the same hash (CBC).
   */
  lemma Transplanted(cr: Crypto, k0: Parts, w: Sealing, k: Parts, f: Frame, time: bytes, wantTime: bool, junk: Scratch)
    requires cr.Lawful() && w.Valid() && w.passphrase != [] && Readable(w.count) && SameKey(cr, w)
    requires Framing(k, f) && CanonicalKey(k, f) && k.outer == "(11:private-key" && |time| == 15 && k0.secret == k.secret
    ensures var key := cr.kdf(w.passphrase, w.salt, w.count, 16); var text := "((" + k.secret + "))";
            var r := Unprotect(cr, ProtText(k, ProtectedList(w, Ciphertext(cr, k0, w)), TimestampList(time)), w.passphrase, wantTime, junk);
            if w.ocb then
              r == if cr.ocbTag(Aes128, key, w.iv, AuthData(k, time), text) == cr.ocbTag(Aes128, key, w.iv, AuthData(k0, w.time), text)
                   then Ok(Plain(k.Whole(), if wantTime then Some(time) else None)) else Err(BadPassphrase)
            else
              r == if cr.sha1(MicInput(k, time)) == cr.sha1(MicInput(k0, w.time))
                   then Ok(Plain(k.Whole(), if wantTime then Some(time) else None)) else Err(CorruptedProtection)
  {
    hide Unprotect, LockList, ProtectedList, ProtText, CanonicalKey, Framing, Dec, CountRead, Readable;
    var c := Ciphertext(cr, k0, w);
    var m := Method(ModeOf(w), Aes128, 16, w.ocb);
    var t := LockTokens("sha1", w.salt, Dec(w.count), w.iv, c);
    assert IsMethod(m);
    WrittenList(w, c);
    SealedData(cr, k0, w, t);
    FramedText(k.secret, None);
    OpensIff(cr, m, k, f, t, w.count, Some(time), w.passphrase, CheckOf(cr, k0, w), PaddingOf(k0, w), wantTime, junk);
  }

  /** The check and the padding that agent_protect chooses. */
  function CheckOf(cr: Crypto, k: Parts, w: Sealing): bytes {
    if w.ocb then cr.ocbTag(Aes128, cr.kdf(w.passphrase, w.salt, w.count, 16), w.iv, AuthData(k, w.time), Framed(k.secret, None))
    else cr.sha1(MicInput(k, w.time))
  }

  function PaddingOf(k: Parts, w: Sealing): bytes
    requires w.Valid()
  {
    CbcPadding(|k.secret| + 41);
    w.padding[..CbcLength(|k.secret| + 41) - (|k.secret| + 41)]
  }

  lemma SealedData(cr: Crypto, k: Parts, w: Sealing, t: LockTokens)
    requires cr.Lawful() && w.Valid() && SameKey(cr, w) && Readable(w.count)
    requires t == LockTokens("sha1", w.salt, Dec(w.count), w.iv, Ciphertext(cr, k, w))
    ensures var m := Method(ModeOf(w), Aes128, 16, w.ocb);
            && Seals(cr, m, t, CountRead(w.count), w.passphrase, k.secret, CheckOf(cr, k, w), PaddingOf(k, w))
            && |PaddingOf(k, w)| <= 16 && t.data != []
  {
    hide Dec, CountRead, MicInput, AuthData, Readable;
    var mic := MicOf(cr, k, w);
    FramedText(k.secret, mic);
    if !w.ocb {
      var text := Framed(k.secret, mic);
      assert |")(4:hash4:sha120:"| == 17;
      CbcPadding(|text|);
      assert (text + w.padding)[..CbcLength(|text|)] == text + PaddingOf(k, w);
    }
  }
}
