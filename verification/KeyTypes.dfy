/**
 agent_private_key_type of agent/protect.c, and what it says about the keys that
 the other functions of that file make.
 */
module KeyTypes {
  import opened Octets
  import opened Sexp
  import opened Protection
  import opened KeyStructure
  import opened RoundTrip
  import opened Shadow
  import opened UnprotectLoops

  datatype KeyType = Unknown | Clear | Protected | Shadowed | OpenPgpNone

  /** Behind the method name "openpgp-native": is the key unprotected there? */
  function NativeType(s: bytes): KeyType {
    if Head(s) != '(' then Unknown
    else
      match Token(s[1..])
      case NoTok => Unknown
      case Tok(_, s') =>
        match FindList(s', "protection")
        case Err(_) => Unknown
        case Ok((_, r)) =>
          match Token(r)
          case NoTok => Unknown
          case Tok(mode, _) => if mode == "none" then OpenPgpNone else Protected
  }

  function ProtectedType(s: bytes): KeyType {
    if Head(s) != '(' then Protected
    else
      match Token(s[1..])
      case NoTok => Unknown
      case Tok(_, s') =>
        match FindList(s', "protected")
        case Err(_) => Unknown
        case Ok((_, r)) =>
          match Token(r)
          case NoTok => Unknown
          case Tok(method_, r') => if method_ == NATIVE_MODE then NativeType(r') else Protected
  }

  function TypeOf(key: bytes): KeyType {
    if Head(key) != '(' then Unknown
    else
      match Token(key[1..])
      case NoTok => Unknown
      case Tok(name, s) =>
        if name == "protected-private-key" then ProtectedType(s)
        else if name == "shadowed-private-key" then Shadowed
        else if name == "private-key" then Clear
        else Unknown
  }

  method NativeTypeAt(buf: bytes, pos: nat) returns (t: KeyType)
    requires pos <= |buf|
    ensures t == NativeType(buf[pos..])
  {
    hide Token, FindList;
    if pos == |buf| || buf[pos] != '(' {
      return Unknown;
    }
    assert buf[pos..][1..] == buf[pos + 1..];
    var n, name := Snext(buf, pos + 1);
    if n == 0 || n > |buf| - name {
      return Unknown;
    }
    var ok, _, body := FindListAt(buf, name + n, "protection");
    if !ok {
      return Unknown;
    }
    var m, mode := Snext(buf, body);
    if m == 0 || m > |buf| - mode {
      return Unknown;
    }
    return if buf[mode..mode + m] == "none" then OpenPgpNone else Protected;
  }

  /** agent_private_key_type. */
  method PrivateKeyType(key: bytes) returns (t: KeyType)
    ensures t == TypeOf(key)
  {
    hide Token, FindList, NativeType;
    if key == [] || key[0] != '(' {
      return Unknown;
    }
    var n, name := Snext(key, 1);
    if n == 0 || n > |key| - name {
      return Unknown;
    }
    var s := name + n;
    if key[name..s] != "protected-private-key" {
      return if key[name..s] == "shadowed-private-key" then Shadowed
             else if key[name..s] == "private-key" then Clear else Unknown;
    }
    if s == |key| || key[s] != '(' {
      return Protected;
    }
    assert key[s..][1..] == key[s + 1..];
    var n', algo := Snext(key, s + 1);
    if n' == 0 || n' > |key| - algo {
      return Unknown;
    }
    var ok, _, body := FindListAt(key, algo + n', "protected");
    if !ok {
      return Unknown;
    }
    var m, mode := Snext(key, body);
    if m == 0 || m > |key| - mode {
      return Unknown;
    }
    if key[mode..mode + m] != NATIVE_MODE {
      return Protected;
    }
    t := NativeTypeAt(key, mode + m);
  }

  // ----- the types of the keys that the agent makes

  /** A key that agent_protect accepts is a clear one; what it makes of a canonical one is a protected one. */
  lemma ProtectChangesType(cr: Crypto, plain: bytes, w: Sealing)
    requires cr.Lawful() && w.Valid() && Protect(cr, plain, w).Ok?
    ensures TypeOf(plain) == Clear
    ensures CanonLen(plain, 0) > 0 ==> TypeOf(Protect(cr, plain, w).value) == Protected
  {
    hide Token, SplitKey, CanonLen, Protect, Scan, ReadPairs, FindAlgo, ProtectedType, ProtText, ReadPair, ProtectedList,
         Ciphertext, TimestampList;
    ProtectSplits(cr, plain, w);
    var k := SplitKey(plain).value;
    var f, after := SplitKeyFrame(plain);
    ClearType(plain, k, f, after);
    PlainLength(k, f, after);
    if CanonLen(plain, 0) > 0 {
      HeadIsCanonical(f.head);
      AlignedResult(cr, plain, k, f, after, w);
      ProtectedTypeOf(cr, k, f, w);
    }
  }

  lemma ProtectSplits(cr: Crypto, plain: bytes, w: Sealing)
    requires cr.Lawful() && w.Valid() && Protect(cr, plain, w).Ok?
    ensures SplitKey(plain).Ok? && w.passphrase != []
  {
  }

  lemma ClearType(plain: bytes, k: Parts, f: Frame, after: bytes)
    requires Framing(k, f) && plain == k.Whole() + after
    ensures TypeOf(plain) == Clear
  {
    hide Token, Scan, ReadPairs, FindAlgo;
    var r := k.inner + k.public + k.secret + k.tail + after;
    assert plain[1..] == f.head + r;
    TokSegFacts(f.head, "private-key", r, 1);
  }

  lemma ProtectedTypeOf(cr: Crypto, k: Parts, f: Frame, w: Sealing)
    requires cr.Lawful() && w.Valid() && w.passphrase != [] && Framing(k, f)
    ensures TypeOf(ProtText(k, ProtectedList(w, Ciphertext(cr, k, w)), TimestampList(w.time))) == Protected
  {
    hide Token, Scan, Skip, ReadPairs, FindAlgo, ReadPair, FindList, TimestampList, ProtectedList, InnerText, Ciphertext,
         LockText;
    var c := Ciphertext(cr, k, w);
    var _ := DecryptBack(cr, k, f.secret, w, (i: nat) => '\0');
    var list, stamp := ProtectedList(w, c), TimestampList(w.time);
    var prot, inner := ProtText(k, list, stamp), InnerText(k, list, stamp);
    ProtectedListSeg(w, c, stamp + k.tail);
    TimestampSeg(w.time);
    ProtHeadSeg();
    assert prot[1..] == PROT_HEAD + inner;
    TokSegFacts(PROT_HEAD, "protected-private-key", inner, 1);
    InnerHead(k, list, stamp);
    InnerSkip(k, f, list, stamp);
    ListFound(k, f, list, stamp);
    NonEmptyList(list, "protected", []);
    assert |OCB_MODE| == 20 && |CBC_MODE| == 25 && |NATIVE_MODE| == 14;
  }

  /** A shadowed key is recognised as one. */
  lemma ShadowedType(pub: bytes, info: bytes, kind: bytes)
    requires ShadowKey(pub, info, kind).Ok?
    ensures TypeOf(ShadowKey(pub, info, kind).value) == Shadowed
  {
    hide Token, PublicPoint, CanonLen, ShadowList, ShadowKey, TypeOf;
    ShadowAccepted(pub, info, kind);
    PointInside(pub);
    var s, m := PublicPoint(pub).value, CanonLen(info, 0);
    ShadowText(pub, info, kind, s);
    var r := pub[14..|pub| - |s|] + ShadowList(kind, info[..m]) + pub[|pub| - |s|..CanonLen(pub, 0)];
    assert "(20:shadowed-private-key" == "(" + "20:shadowed-private-key";
    ShadowedHead(r);
    assert ShadowKey(pub, info, kind).value == "(" + ("20:shadowed-private-key" + r);
  }

  lemma ShadowAccepted(pub: bytes, info: bytes, kind: bytes)
    requires ShadowKey(pub, info, kind).Ok?
    ensures PublicPoint(pub).Ok? && CanonLen(pub, 0) > 0 && CanonLen(info, 0) > 0
  {
    hide PublicPoint, CanonLen;
  }

  lemma ShadowedHead(r: bytes)
    ensures TypeOf("(" + ("20:shadowed-private-key" + r)) == Shadowed
  {
    hide Token;
    ShadowHeadSeg();
    TokSegFacts("20:shadowed-private-key", "shadowed-private-key", r, 1);
    assert ("(" + ("20:shadowed-private-key" + r))[1..] == "20:shadowed-private-key" + r;
  }
}
