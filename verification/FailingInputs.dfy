/**
 Inputs that the code accepts and does not handle: one for every condition that
 a theorem about agent/protect.c needs.
 */
module FailingInputs {
  import opened Octets
  import opened Sexp
  import opened Protection
  import opened KeyStructure
  import opened Shadow
  import opened PlainKeys

  // ----- a length with a leading zero

  /** An Elgamal key, and behind its parameters a token whose length is written 01. */
  const PADDED_KEY: bytes := KeyText("elg", ELG_PARAMS, "01:a)")

  const ELG_PARAMS: seq<Param> := [Param("p", "7"), Param("g", "3"), Param("y", "2"), Param("x", "5")]

  lemma PaddedTail()
    ensures Scan("01:a)", 1, false) == Some(0) && Scan("01:a)", 1, true) == None
  {
    hide Token, Scan, Value;
    var s: bytes := "01:a)";
    ValueTwo('0', '1');
    assert "01" == ['0', '1'];
    assert s == "01" + ":" + "a" + ")";
    TokenAppend("01", "a", ")");
    SkipToken(s, 1, false);
    SkipToken(s, 1, true);
    Parens(")", 1, false);
    assert ")"[1..] == [];
    ScanEmpty(0, false);
  }

  lemma ElgComplete()
    ensures FindAlgo("elg").Some? && HasValues(ELG_PARAMS) && Complete(FindAlgo("elg").value, NamesOf(ELG_PARAMS))
  {
    var info := PROTECT_INFO[2];
    assert info.name == "elg" && info in PROTECT_INFO;
    assert FindAlgo("elg").value.name == "elg";
    ElgRow(FindAlgo("elg").value);
    assert NamesOf(ELG_PARAMS) == Letters("pgyx");
  }

  lemma ElgRow(info: AlgoInfo)
    requires info in PROTECT_INFO && info.name == "elg"
    ensures info.parms == "pgyx"
  {
    assert |"rsa"| == 3 && |"dsa"| == 3 && |"ecc"| == 3 && |"elg"| == 3 && |"ecdsa"| == 5 && |"ecdh"| == 4;
    assert "rsa"[0] != 'e' && "dsa"[0] != 'e' && "ecc"[1] != 'l';
  }

  /** The key is protected without an error, and cannot be unprotected. */
  lemma PaddedKeyIsLost(cr: Crypto, w: Sealing, wantTime: bool, junk: Scratch)
    requires cr.Lawful() && w.Valid() && w.count >= 65536 && w.passphrase != []
    ensures SplitKey(PADDED_KEY).Ok? && CanonLen(PADDED_KEY, 0) == 0
    ensures Protect(cr, PADDED_KEY, w).Ok?
    ensures Unprotect(cr, Protect(cr, PADDED_KEY, w).value, w.passphrase, wantTime, junk).Err?
  {
    hide KeyText, Scan, FindAlgo, Complete, HasValues, SplitKey, CanonLen, Unprotect, Ciphertext, ProtectedList, TimestampList;
    PaddedTail();
    ElgComplete();
    KeyAccepted("elg", ELG_PARAMS, "01:a)");
    KeyIsTyped();
    KeyCanonical("private-key", "elg", ELG_PARAMS, "01:a)");
    KeyRoundTrip(cr, "elg", ELG_PARAMS, "01:a)", w, wantTime, junk);
  }

  lemma KeyIsTyped()
    ensures PADDED_KEY == TypedText("private-key", "elg", ELG_PARAMS, "01:a)")
  {
  }

  // ----- shadowing

  lemma ShadowAccepts(ps: seq<Param>, kind: bytes)
    requires HasValues(ps)
    ensures var pub := TypedText("public-key", "rsa", ps, ")");
            && PublicPoint(pub) == Ok("))") && PublicFraming(pub, FrameOf("rsa", ps), "))")
            && ShadowKey(pub, ShadowInfo("D276", "OPENPGP.1"), kind).Ok?
            && CanonLen(pub, 0) == |pub| && CanonLen(ShadowInfo("D276", "OPENPGP.1"), 0) == |ShadowInfo("D276", "OPENPGP.1")|
  {
    hide TypedText, Scan, CanonLen, ShadowInfo, PublicPoint, PublicFraming;
    ClosingScans();
    KeyCanonical("public-key", "rsa", ps, ")");
    PublicAccepted("rsa", ps, ")");
    assert ")" + ")" == "))";
    InfoCanonical("D276", "OPENPGP.1");
    InfoNonEmpty("D276", "OPENPGP.1");
  }

  const RSA_PARAMS: seq<Param> := [Param("n", "35"), Param("e", "5")]

  /** A type of nine octets is accepted, and the result is longer than the buffer. */
  lemma NineOctetsOverrun()
    ensures var pub, info := TypedText("public-key", "rsa", RSA_PARAMS, ")"), ShadowInfo("D276", "OPENPGP.1");
            var r := ShadowKey(pub, info, "tpm2-v1.1");
            r.Ok? && |r.value| > ShadowSize(|pub|, |info|)
  {
    hide TypedText, CanonLen, ShadowInfo, PublicPoint, PublicFraming, ShadowKey;
    ShadowAccepts(RSA_PARAMS, "tpm2-v1.1");
    ShadowFits(TypedText("public-key", "rsa", RSA_PARAMS, ")"), ShadowInfo("D276", "OPENPGP.1"), "tpm2-v1.1");
    assert |"tpm2-v1.1"| == 9;
  }

  const SHADOWED_PARAMS: seq<Param> := [Param("shadowed", "35")]

  /** A key with a parameter called like the list is shadowed, and its info is not found. */
  lemma ShadowedParameter()
    ensures var pub, info := TypedText("public-key", "rsa", SHADOWED_PARAMS, ")"), ShadowInfo("D276", "OPENPGP.1");
            var r := ShadowKey(pub, info, T1);
            r.Ok? && GetShadowInfo(r.value).Err?
  {
    hide TypedText, CanonLen, ShadowInfo, PublicPoint, PublicFraming, ShadowKey, GetShadowInfo;
    ShadowAccepts(SHADOWED_PARAMS, T1);
    assert NamesOf(SHADOWED_PARAMS)[0] == "shadowed";
    ShadowRoundTrip(TypedText("public-key", "rsa", SHADOWED_PARAMS, ")"), ShadowInfo("D276", "OPENPGP.1"), T1,
                    FrameOf("rsa", SHADOWED_PARAMS));
  }
}
