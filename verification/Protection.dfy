/**
 What agent/protect.c computes: the canonical S-expression of a plain private
 key, its protected form, and the way back.  Each definition is the value that
 the corresponding C function returns; the C loops are in ProtectLoops.dfy and
 UnprotectLoops.dfy.
 */
module Protection {
  import opened Octets
  import opened Numbers
  import opened Sexp

  datatype Error =
    | InvSexp | UnknownSexp | UnsupportedAlgorithm | UnsupportedProtection
    | CorruptedProtection | BadPassphrase | NoPassphrase | Bug | InvValue | UnsupportedProtocol

  datatype Result<+T> = Ok(value: T) | Err(error: Error) {
    predicate IsFailure() { Err? }
    function PropagateFailure<U>(): Result<U> requires Err? { Err(error) }
    function Extract(): T requires Ok? { value }
  }

  // ----- the cryptographic primitives, which are Libgcrypt's

  datatype Cipher = Aes128 | Aes256

  const BLOCK := 16

  datatype Crypto = Crypto(
    kdf: (bytes, bytes, nat, nat) -> bytes,          // passphrase, salt, count, key length
    sha1: bytes -> bytes,
    cbcEncrypt: (Cipher, bytes, bytes, bytes) -> bytes,  // key, iv, text
    cbcDecrypt: (Cipher, bytes, bytes, bytes) -> bytes,
    ocbEncrypt: (Cipher, bytes, bytes, bytes) -> bytes,  // key, nonce, text
    ocbDecrypt: (Cipher, bytes, bytes, bytes) -> bytes,
    ocbTag: (Cipher, bytes, bytes, bytes, bytes) -> bytes  // key, nonce, authenticated data, text
  ) {
    /** Decryption undoes encryption under the same key and IV, and lengths are kept. */
    ghost predicate Lawful() {
      && (forall x :: |sha1(x)| == 20)
      && (forall c, k, v, x :: |x| % BLOCK == 0 ==> |cbcEncrypt(c, k, v, x)| == |x|)
      && (forall c, k, v, x :: |x| % BLOCK == 0 ==> cbcDecrypt(c, k, v, cbcEncrypt(c, k, v, x)) == x)
      && (forall c, k, v, x :: |x| % BLOCK == 0 ==> |cbcDecrypt(c, k, v, x)| == |x|)
      && (forall c, k, v, x :: |ocbEncrypt(c, k, v, x)| == |x|)
      && (forall c, k, v, x :: |ocbDecrypt(c, k, v, x)| == |x|)
      && (forall c, k, v, x :: ocbDecrypt(c, k, v, ocbEncrypt(c, k, v, x)) == x)
      && (forall c, k, v, a, x :: |ocbTag(c, k, v, a, x)| == 16)
    }
  }

  // ----- plain keys

  datatype AlgoInfo = AlgoInfo(name: bytes, parms: bytes, from: nat, ecc: bool)

  /** The table protect_info; the last protected parameter is always the last one. */
  const PROTECT_INFO: seq<AlgoInfo> := [
    AlgoInfo("rsa", "nedpqu", 2, false),
    AlgoInfo("dsa", "pqgyx", 4, false),
    AlgoInfo("elg", "pgyx", 3, false),
    AlgoInfo("ecdsa", "pabgnqd", 6, true),
    AlgoInfo("ecdh", "pabgnqd", 6, true),
    AlgoInfo("ecc", "pabgnqd", 6, true)
  ]

  function FindAlgo(name: bytes, i: nat := 0): (r: Option<AlgoInfo>)
    requires i <= |PROTECT_INFO|
    ensures r.Some? ==> r.value in PROTECT_INFO && r.value.name == name
    ensures r.None? ==> forall j :: i <= j < |PROTECT_INFO| ==> PROTECT_INFO[j].name != name
    decreases |PROTECT_INFO| - i
  {
    if i == |PROTECT_INFO| then None
    else if PROTECT_INFO[i].name == name then Some(PROTECT_INFO[i])
    else FindAlgo(name, i + 1)
  }

  datatype PairTok = NoPair | Pair(name: bytes, value: bytes, rest: bytes)

  /** A list of exactly two tokens. */
  function ReadPair(s: bytes): PairTok {
    if Head(s) != '(' then NoPair
    else
      match Token(s[1..])
      case NoTok => NoPair
      case Tok(name, s') =>
        match Token(s')
        case NoTok => NoPair
        case Tok(value, s'') =>
          if Head(s'') != ')' then NoPair else Pair(name, value, s''[1..])
  }

  /** Skip one two-token list for each of the given names, in order. */
  function ReadPairs(s: bytes, names: seq<bytes>): Option<bytes>
    decreases |names|
  {
    if names == [] then Some(s)
    else
      match ReadPair(s)
      case NoPair => None
      case Pair(name, _, rest) => if name != names[0] then None else ReadPairs(rest, names[1..])
  }

  datatype Shape = Shape(public: seq<bytes>, secret: seq<bytes>)

  function Letters(s: bytes): (names: seq<bytes>)
    ensures |names| == |s|
  {
    seq(|s|, i requires 0 <= i < |s| => [s[i]])
  }

  /** The parameters of a key: an ECC key may give a curve, and then flags, instead of the domain. */
  function KeyShape(info: AlgoInfo, s: bytes): Shape
    requires info.from <= |info.parms|
  {
    var first := ReadPair(s);
    if info.ecc && first.Pair? && first.name == "curve" then
      var second := ReadPair(first.rest);
      if second.Pair? && second.name == "flags"
      then Shape(["curve", "flags", "q"], ["d"])
      else Shape(["curve", "q"], ["d"])
    else Shape(Letters(info.parms[..info.from]), Letters(info.parms[info.from..]))
  }

  /**
   A plain key split where agent_protect cuts it: outer opening list with its
   name, inner opening list with the algorithm, public and secret parameters,
   and everything from the end of the inner list to the end of the key.
   */
  datatype Parts = Parts(outer: bytes, inner: bytes, public: bytes, secret: bytes, tail: bytes) {
    function Whole(): bytes { outer + inner + public + secret + tail }
  }

  function SplitParams(outer: bytes, inner: bytes, info: AlgoInfo, s: bytes): Result<Parts>
    requires info.from <= |info.parms|
  {
    var shape := KeyShape(info, s);
    match ReadPairs(s, shape.public)
    case None => Err(InvSexp)
    case Some(s') =>
      match ReadPairs(s', shape.secret)
      case None => Err(InvSexp)
      case Some(s'') =>
        if Head(s'') != ')' then Err(InvSexp)
        else
          match Skip(s''[1..], 1, false)
          case None => Err(InvSexp)
          case Some(after) =>
            Ok(Parts(outer, inner, Used(s, s'), Used(s', s''), Used(s'', after)))
  }

  function SplitKey(plain: bytes): Result<Parts> {
    if Head(plain) != '(' then Err(InvSexp)
    else
      match Token(plain[1..])
      case NoTok => Err(InvSexp)
      case Tok(name, s) =>
        if name != "private-key" || Head(s) != '(' then Err(UnknownSexp)
        else
          match Token(s[1..])
          case NoTok => Err(InvSexp)
          case Tok(algo, s') =>
            match FindAlgo(algo)
            case None => Err(UnsupportedAlgorithm)
            case Some(info) => SplitParams(Used(plain, s), Used(s, s'), info, s')
  }

  // ----- protecting

  /** The caller's choices and the random octets of one protect operation. */
  datatype Sealing = Sealing(passphrase: bytes, count: nat, salt: bytes, iv: bytes, padding: bytes,
                             ocb: bool, time: bytes) {
    predicate Valid() {
      && |salt| == 8
      && |iv| == (if ocb then 12 else BLOCK)
      && |padding| == BLOCK
      && |time| == 15
      && 0 < count <= ULONG_MAX
    }
  }

  const CBC_MODE: bytes := "openpgp-s2k3-sha1-aes-cbc"
  const CBC256_MODE: bytes := "openpgp-s2k3-sha1-aes256-cbc"
  const OCB_MODE: bytes := "openpgp-s2k3-ocb-aes"
  const NATIVE_MODE: bytes := "openpgp-native"
  const HASH_PREFIX: bytes := ")(4:hash4:sha120:"

  function TimestampList(time: bytes): bytes {
    "(12:protected-at15:" + time + ")"
  }

  /** What the SHA-1 integrity code of CBC mode covers. */
  function MicInput(k: Parts, time: bytes): bytes {
    k.inner + k.public + k.secret + TimestampList(time) + ")"
  }

  /** What OCB mode authenticates besides the secret parameters. */
  function AuthData(k: Parts, time: bytes): bytes {
    k.inner + k.public + TimestampList(time) + ")"
  }

  /** The list that is encrypted, without padding. */
  function Framed(secret: bytes, mic: Option<bytes>): bytes {
    "((" + secret + (if mic.Some? then HASH_PREFIX + mic.value else "") + "))"
  }

  /** The number of octets that CBC mode encrypts: whole blocks only. */
  function CbcLength(framed: nat): nat {
    (framed + BLOCK) / BLOCK * BLOCK
  }

  function Ciphertext(cr: Crypto, k: Parts, w: Sealing): (c: bytes)
    requires cr.Lawful() && w.Valid()
  {
    var key := cr.kdf(w.passphrase, w.salt, w.count, 16);
    if w.ocb then
      var text := Framed(k.secret, None);
      cr.ocbEncrypt(Aes128, key, w.iv, text) + cr.ocbTag(Aes128, key, w.iv, AuthData(k, w.time), text)
    else
      var text := Framed(k.secret, Some(cr.sha1(MicInput(k, w.time))));
      cr.cbcEncrypt(Aes128, key, w.iv, (text + w.padding)[..CbcLength(|text|)])
  }

  function ProtectedList(w: Sealing, ciphertext: bytes): bytes {
    "(" + "9:protected" + TokenOf(if w.ocb then OCB_MODE else CBC_MODE)
    + "((4:sha18:" + w.salt + TokenOf(Dec(w.count)) + ")" + TokenOf(w.iv) + ")"
    + TokenOf(ciphertext) + ")"
  }

  /** agent_protect: the first four octets of the plain key are taken to be "(11:". */
  function Protect(cr: Crypto, plain: bytes, w: Sealing): Result<bytes>
    requires cr.Lawful() && w.Valid()
  {
    match SplitKey(plain)
    case Err(e) => Err(e)
    case Ok(k) =>
      if w.passphrase == [] then Err(NoPassphrase)
      else
        var list := ProtectedList(w, Ciphertext(cr, k, w));
        Ok("(21:protected-" + plain[4..|k.outer + k.inner + k.public|] + list
           + TimestampList(w.time) + k.tail)
  }

  // ----- unprotecting

  /** Walk over the lists at s to the one with the given name. */
  function FindList(s: bytes, name: bytes): (r: Result<(bytes, bytes)>)
    ensures r.Ok? ==> r.value.0 != [] && |r.value.0| <= |s|
    decreases |s|
  {
    if Head(s) != '(' then Err(InvSexp)
    else
      match Token(s[1..])
      case NoTok => Err(InvSexp)
      case Tok(data, rest) =>
        if data == name then Ok((s, rest))
        else
          match Skip(rest, 1, false)
          case None => Err(InvSexp)
          case Some(s') => FindList(s', name)
  }

  /** The time stamp list, if the lists at s have one. */
  function FindTime(s: bytes): Result<Option<bytes>>
    decreases |s|
  {
    if Head(s) != '(' then Ok(None)
    else
      match Token(s[1..])
      case NoTok => Err(InvSexp)
      case Tok(data, rest) =>
        if data == "protected-at" then
          match Token(rest)
          case NoTok => Err(InvSexp)
          case Tok(time, _) => if |time| != 15 then Err(UnknownSexp) else Ok(Some(time))
        else
          match Skip(rest, 1, false)
          case None => Err(InvSexp)
          case Some(s') => FindTime(s')
  }

  datatype Method = Method(name: bytes, cipher: Cipher, keyLen: nat, ocb: bool)

  /** The table algotable without its last row, "openpgp-native". */
  const METHODS: seq<Method> := [
    Method(CBC_MODE, Aes128, 16, false),
    Method(CBC256_MODE, Aes256, 32, false),
    Method(OCB_MODE, Aes128, 16, true)
  ]

  function FindMethod(name: bytes): (r: Option<Method>)
    ensures r.Some? <==> exists i :: 0 <= i < |METHODS| && METHODS[i].name == name
    ensures r.Some? ==> r.value in METHODS && r.value.name == name
  {
    if name == METHODS[0].name then Some(METHODS[0])
    else if name == METHODS[1].name then Some(METHODS[1])
    else if name == METHODS[2].name then Some(METHODS[2])
    else None
  }

  const ULONG_MAX: nat := 0xFFFF_FFFF_FFFF_FFFF

  /** strtoul: optional white space, an optional sign, saturating digits; a minus sign wraps. */
  function StrToUl(s: bytes): nat
    decreases |s|
  {
    if s != [] && IsSpace(s[0]) then StrToUl(s[1..])
    else
      var ds := if s != [] && (s[0] == '+' || s[0] == '-') then s[1..] else s;
      var v := Value(ds[..DigitCount(ds)]);
      if v > ULONG_MAX then ULONG_MAX
      else if s != [] && s[0] == '-' && v != 0 then ULONG_MAX + 1 - v
      else v
  }

  /** The byte encoding of counts of section 3.7.1.3 of RFC 4880. */
  function DecodeCount(c: nat): nat
    requires c < 256
  {
    (16 + c % 16) * Pow2(c / 16 + 6)
  }

  /** The count field: values below 256 are in the old byte encoding. */
  function ReadCount(field: bytes): Result<nat> {
    var v := StrToUl(field);
    if v == 0 then Err(CorruptedProtection)
    else
      var c := if v < 256 then DecodeCount(v) else v;
      if c < 65536 then Err(CorruptedProtection) else Ok(c)
  }

  datatype Lock = Lock(salt: bytes, count: nat, iv: bytes, data: bytes)

  function ReadCipherPart(salt: bytes, count: nat, s: bytes, ocb: bool): Result<Lock> {
    match Token(s)
    case NoTok => Err(CorruptedProtection)
    case Tok(iv, s') =>
      if |iv| != (if ocb then 12 else 16) then Err(CorruptedProtection)
      else if Head(s') != ')' then Err(InvSexp)
      else
        match Token(s'[1..])
        case NoTok => Err(InvSexp)
        case Tok(data, _) => Ok(Lock(salt, count, iv, data))
  }

  /** The S2K parameters, the IV and the encrypted octets behind the name of the method. */
  function ReadLock(s: bytes, ocb: bool): Result<Lock> {
    if |s| < 2 || s[0] != '(' || s[1] != '(' then Err(InvSexp)
    else
      match Token(s[2..])
      case NoTok => Err(InvSexp)
      case Tok(hash, s') =>
        if hash != "sha1" then Err(UnsupportedProtection)
        else
          match Token(s')
          case NoTok => Err(CorruptedProtection)
          case Tok(salt, s'') =>
            if |salt| != 8 then Err(CorruptedProtection)
            else
              match Token(s'')
              case NoTok => Err(CorruptedProtection)
              case Tok(field, s3) =>
                if Head(s3) != ')' then Err(InvSexp)
                else
                  match ReadCount(field)
                  case Err(e) => Err(e)
                  case Ok(count) => ReadCipherPart(salt, count, s3[1..], ocb)
  }

  /** The initial contents of a freshly allocated buffer. */
  type Junk = nat -> octet

  /** The two buffers that agent_unprotect allocates: for the clear text and for the merged list. */
  datatype Scratch = Scratch(clear: Junk, list: Junk)

  /** A buffer of n octets that has been written from its start. */
  function Buffer(written: bytes, n: nat, junk: Junk): (b: bytes)
    ensures |written| <= n ==> |b| == n && b[..|written|] == written
  {
    written + seq(if n > |written| then n - |written| else 0, i requires i >= 0 => junk(|written| + i))
  }

  /** do_decryption: the clear text buffer. */
  function Decrypt(cr: Crypto, aad: bytes, m: Method, l: Lock, passphrase: bytes, junk: Junk): Result<bytes>
  {
    if (if m.ocb then |l.data| < 4 + 16 || |l.iv| != 12 else |l.data| < 4 || |l.data| % BLOCK != 0)
    then Err(CorruptedProtection)
    else if passphrase == [] then Err(NoPassphrase)
    else
      var key := cr.kdf(passphrase, l.salt, l.count, m.keyLen);
      var n := |l.data| - 16;
      var text := if m.ocb then cr.ocbDecrypt(m.cipher, key, l.iv, l.data[..if n > 0 then n else 0])
                  else cr.cbcDecrypt(m.cipher, key, l.iv, l.data);
      if m.ocb && n > 0 && cr.ocbTag(m.cipher, key, l.iv, aad, text) != l.data[n..]
      then Err(BadPassphrase)
      else
        var out := Buffer(text, |l.data|, junk);
        var len := CanonLen(out, |l.data|);
        if (Head(out) != '(' && (|out| < 2 || out[1] != '(')) || len == 0 || len + BLOCK < |l.data|
        then Err(BadPassphrase)
        else Ok(out)
  }

  /** Skip two-token lists as long as there are any. */
  function SkipPairs(s: bytes): (r: Option<bytes>)
    ensures r.Some? ==> |r.value| <= |s|
    decreases |s|
  {
    if Head(s) != '(' then Some(s)
    else
      match ReadPair(s)
      case NoPair => None
      case Pair(_, _, rest) => SkipPairs(rest)
  }

  /** The integrity code in the clear text of CBC mode, read behind the parameters. */
  function ReadMic(s: bytes): Result<bytes> {
    if Head(s) != '(' then Err(InvSexp)
    else
      match Token(s[1..])
      case NoTok => Err(InvSexp)
      case Tok(name, s') =>
        if name != "hash" then Err(InvSexp)
        else
          match Token(s')
          case NoTok => Err(InvSexp)
          case Tok(algo, s'') =>
            if algo != "sha1" then Err(InvSexp)
            else
              match Token(s'')
              case NoTok => Err(InvSexp)
              case Tok(mic, s3) => if |mic| != 20 || Head(s3) != ')' then Err(InvSexp) else Ok(mic)
  }

  datatype Merged = Merged(list: bytes, size: nat, cutOff: nat, cutLen: nat, mic: bytes)

  /** The part of a protected key behind the protected list, and the length of a time stamp list there. */
  function ReadRest(list: bytes): Result<(bytes, nat)> {
    match Skip(if list == [] then [] else list[1..], 1, false)
    case None => Err(InvSexp)
    case Some(s) =>
      var cut :=
        if Head(s) != '(' then Ok(0)
        else
          match Token(s[1..])
          case NoTok => Ok(0)
          case Tok(name, s') =>
            if name != "protected-at" then Ok(0)
            else match Skip(s', 1, false) case None => Err(InvSexp) case Some(s'') => Ok(|Used(s, s'')|);
      match cut
      case Err(e) => Err(e)
      case Ok(cutLen) =>
        match Skip(s, 2, false)
        case None => Err(InvSexp)
        case Some(after) => Ok((Used(s, after), cutLen))
  }

  /** merge_lists: put the clear parameters where the protected list was. */
  function Merge(prot: bytes, list: bytes, clear: bytes, wantMic: bool): Result<Merged> {
    var pos := |prot| - |list|;
    if pos < 26 || CanonLen(prot, 0) == 0 || CanonLen(clear, 0) == 0 || |clear| < 2 then Err(Bug)
    else
      match SkipPairs(clear[2..])
      case None => Err(InvSexp)
      case Some(s) =>
        if Head(s) != ')' then Err(InvSexp)
        else
          match (if wantMic then ReadMic(s[1..]) else Ok([]))
          case Err(e) => Err(e)
          case Ok(mic) =>
            match ReadRest(list)
            case Err(e) => Err(e)
            case Ok((rest, cutLen)) =>
              var front := "(11:private-key" + prot[25..pos] + Used(clear[2..], s);
              Ok(Merged(front + rest, CanonLen(prot, 0) + CanonLen(clear, 0),
                        if cutLen == 0 then 0 else |front|, cutLen, mic))
  }

  /** calculate_mic: the octets that go into the hash. */
  function MicRange(key: bytes): Result<bytes> {
    if Head(key) != '(' then Err(InvSexp)
    else
      match Token(key[1..])
      case NoTok => Err(InvSexp)
      case Tok(name, s) =>
        if (name != "private-key" && name != "shared-secret") || Head(s) != '(' then Err(UnknownSexp)
        else
          match (if name == "shared-secret" then Tok([], s) else Token(s[1..]))
          case NoTok => Err(InvSexp)
          case Tok(_, s') => MicLists(s, s')
  }

  /** From the inner list to its end, behind the lists at s'. */
  function MicLists(s: bytes, s': bytes): Result<bytes> {
    match SkipPairs(s')
    case None => Err(InvSexp)
    case Some(s'') => if Head(s'') != ')' then Err(InvSexp) else Ok(Used(s, s''[1..]))
  }

  /** Cut n octets out of a buffer by moving the following ones down. */
  function CutOut(b: bytes, off: nat, n: nat): bytes
    requires off + n <= |b|
  {
    b[..off] + b[off + n..] + b[|b| - n..]
  }

  /** The last steps of agent_unprotect: check the integrity code, cut out the time stamp. */
  function Finish(cr: Crypto, m: Merged, ocb: bool, junk: Junk): Result<bytes> {
    var final := Buffer(m.list, m.size, junk);
    match (if ocb then Ok([]) else MicRange(final))
    case Err(e) => Err(e)
    case Ok(range) =>
      if !ocb && cr.sha1(range) != m.mic then Err(CorruptedProtection)
      else
        var key := if m.cutOff + m.cutLen <= |final| then CutOut(final, m.cutOff, m.cutLen) else final;
        Ok(key[..CanonLen(key, 0)])
  }

  datatype Unprotected = Plain(key: bytes, time: Option<bytes>) | OpenPgpNative(list: bytes)

  /** The bytes from s to s', where s' is a later cursor. */
  function AadOf(inner: bytes, innerEnd: bytes, list: bytes, listEnd: bytes): bytes {
    Used(inner, list) + Used(listEnd, innerEnd)
  }

  /** Decrypt, merge and check. */
  function OpenLock(cr: Crypto, prot: bytes, list: bytes, aad: bytes, m: Method, l: Lock, passphrase: bytes,
                    junk: Scratch): Result<bytes>
  {
    var clear :- Decrypt(cr, aad, m, l, passphrase, junk.clear);
    var merged :- Merge(prot, list, clear, !m.ocb);
    Finish(cr, merged, m.ocb, junk.list)
  }

  function UnprotectList(cr: Crypto, prot: bytes, inner: bytes, innerEnd: bytes, list: bytes, s: bytes,
                         passphrase: bytes, junk: Scratch): Result<Option<bytes>>
    requires list != []
  {
    match Skip(list[1..], 1, false)
    case None => Err(InvSexp)
    case Some(listEnd) =>
      match Token(s)
      case NoTok => Err(InvSexp)
      case Tok(mode, s') =>
        match FindMethod(mode)
        case None => if mode == NATIVE_MODE then Ok(None) else Err(UnsupportedProtection)
        case Some(m) =>
          var l :- ReadLock(s', m.ocb);
          var key :- OpenLock(cr, prot, list, AadOf(inner, innerEnd, list, listEnd), m, l, passphrase, junk);
          Ok(Some(key))
  }

  /** agent_unprotect. */
  function Unprotect(cr: Crypto, prot: bytes, passphrase: bytes, wantTime: bool, junk: Scratch): Result<Unprotected>
  {
    if Head(prot) != '(' then Err(InvSexp)
    else
      match Token(prot[1..])
      case NoTok => Err(InvSexp)
      case Tok(name, inner) =>
        if name != "protected-private-key" || Head(inner) != '(' then Err(UnknownSexp)
        else
          match Skip(inner[1..], 1, false)
          case None => Err(InvSexp)
          case Some(innerEnd) =>
            match Token(inner[1..])
            case NoTok => Err(InvSexp)
            case Tok(algo, s) =>
              if FindAlgo(algo).None? then Err(UnsupportedAlgorithm)
              else UnprotectLists(cr, prot, inner, innerEnd, s, passphrase, wantTime, junk)
  }

  /** What agent_unprotect does with the lists behind the algorithm. */
  function UnprotectLists(cr: Crypto, prot: bytes, inner: bytes, innerEnd: bytes, s: bytes, passphrase: bytes, wantTime: bool,
                          junk: Scratch): Result<Unprotected>
  {
    var time :- if wantTime then FindTime(s) else Ok(None);
    var (list, s') :- FindList(s, "protected");
    var key :- UnprotectList(cr, prot, inner, innerEnd, list, s', passphrase, junk);
    Ok(if key.Some? then Plain(key.value, time) else OpenPgpNative(list))
  }
}
