/**
 The octets that ssh_key_to_blob sends for each kind of key and that
 ssh_receive_key takes apart again: numbers, their order, and the names before them.
 */
module SshBlobs {
  import opened Octets
  import opened Numbers
  import opened SshWire

  // ----- numbers as octets (section 5 of RFC 4251)

  /** The first octet counts most. */
  lemma {:induction false} FirstCountsMost(x: u8, s: seq<u8>)
    ensures FromBigEndian([x] + s) == x * Pow256(|s|) + FromBigEndian(s)
  {
    if s == [] {
      assert [x] + s == [x] && [x][..0] == [];
    } else {
      var init := s[..|s| - 1];
      assert ([x] + s)[..|s|] == [x] + init;
      FirstCountsMost(x, init);
      assert 256 * (x * Pow256(|init|)) == x * Pow256(|s|);
    }
  }

  /** A 32 bit number has four octets, the first of which counts most. */
  lemma U32IsBigEndian(n: nat)
    requires n < 0x1_0000_0000
    ensures |U32Octets(n)| == 4 && FromBigEndian(U32Octets(n)) == n
  {
    hide FromBigEndian;
    var s := U32Octets(n);
    U32Value(n);
    FourOctets(s[0], s[1], s[2], s[3]);
    assert s == [s[0], s[1], s[2], s[3]];
  }

  lemma FourOctets(a: u8, b: u8, c: u8, d: u8)
    ensures FromBigEndian([a, b, c, d]) == a * 0x100_0000 + b * 0x1_0000 + c * 256 + d
  {
    assert [a, b, c, d][..3] == [a, b, c] && [a, b, c][..2] == [a, b] && [a, b][..1] == [a] && [a][..0] == [];
    assert FromBigEndian([a]) == a;
    assert FromBigEndian([a, b]) == a * 256 + b;
    assert FromBigEndian([a, b, c]) == a * 0x1_0000 + b * 256 + c;
  }

  /** A number has the shortest form that starts with an octet below 128; zero has none. */
  lemma ShortestForm(n: nat)
    ensures var s := StdForm(n);
            && FromBigEndian(s) == n
            && (s == [] <==> n == 0)
            && (s != [] ==> s[0] < 128)
            && (s != [] && s[0] == 0 ==> |s| > 1 && s[1] >= 128)
  {
    BigEndianValue(n);
    LeadingZero(BigEndian(n));
    NoZeroInFront(n);
  }

  lemma {:induction false} NoZeroInFront(n: nat)
    ensures n > 0 ==> BigEndian(n) != [] && BigEndian(n)[0] > 0
  {
    if n >= 256 {
      NoZeroInFront(n / 256);
    } else if n > 0 {
      assert BigEndian(n / 256) == [];
    }
  }

  // ----- sequences of numbers

  function Mpi(n: nat): seq<u8> {
    StringForm(StdForm(n))
  }

  function Mpis(ns: seq<nat>): seq<u8> {
    if ns == [] then [] else Mpi(ns[0]) + Mpis(ns[1..])
  }

  predicate Has(k: PubKey, c: char, n: nat) {
    c in k.params && k.params[c] == Num(n)
  }

  predicate HasAll(k: PubKey, letters: string, ns: seq<nat>) {
    |letters| == |ns| && forall i :: 0 <= i < |ns| ==> Has(k, letters[i], ns[i])
  }

  lemma {:induction false} NumbersForm(k: PubKey, letters: string, ns: seq<nat>)
    requires HasAll(k, letters, ns)
    ensures HasParams(k, letters, false) && ParamsForm(k, letters) == Mpis(ns)
    ensures NumbersOf(k, letters) == ns
  {
    hide StringForm, StdForm;
    if letters != [] {
      assert HasAll(k, letters[1..], ns[1..]);
      NumbersForm(k, letters[1..], ns[1..]);
      assert Has(k, letters[0], ns[0]);
    }
  }

  // ----- the table

  /** The types by name, with the letters of the numbers in the order in which they are sent. */
  lemma RsaRow(id: string)
    requires id == "ssh-rsa" || id == "ssh-rsa-cert-v01@openssh.com"
    ensures var i := TypeIndex(id);
            && i < |KEY_TYPES| && !KEY_TYPES[i].ecdsa && !KEY_TYPES[i].eddsa && KEY_TYPES[i].identifier == id
            && KEY_TYPES[i].public == "en" && KEY_TYPES[i].secret == "nedupq" && KEY_TYPES[i].sexp == "nedpqu"
            && (KEY_TYPES[i].cert <==> id != "ssh-rsa")
  {
    hide TypeIndex;
    RowLengths();
    if id == "ssh-rsa" { TableLookups(1); } else { TableLookups(7); }
  }

  lemma RowLengths()
    ensures |"ssh-rsa"| == 7 && |"ssh-dss"| == 7 && |"ssh-ed25519"| == 11 && |"ssh-rsa-cert-v01@openssh.com"| == 28
    ensures |"ssh-dss-cert-v01@openssh.com"| == 28 && |"ssh-ed25519-cert-v01@openssh.com"| == 32
  {
    hide KEY_TYPES;
  }

  lemma DsaRow(id: string)
    requires id == "ssh-dss" || id == "ssh-dss-cert-v01@openssh.com"
    ensures var i := TypeIndex(id);
            && i < |KEY_TYPES| && !KEY_TYPES[i].ecdsa && !KEY_TYPES[i].eddsa && KEY_TYPES[i].identifier == id
            && KEY_TYPES[i].public == "pqgy" && KEY_TYPES[i].secret == "pqgyx" && KEY_TYPES[i].sexp == "pqgyx"
            && (KEY_TYPES[i].cert <==> id != "ssh-dss")
  {
    hide TypeIndex;
    RowLengths();
    if id == "ssh-dss" { TableLookups(2); } else { TableLookups(8); }
  }

  lemma EddsaRow(id: string)
    requires id == "ssh-ed25519" || id == "ssh-ed25519-cert-v01@openssh.com"
    ensures var i := TypeIndex(id);
            && i < |KEY_TYPES| && KEY_TYPES[i].eddsa && KEY_TYPES[i].identifier == id
            && KEY_TYPES[i].curve == Some("Ed25519") && (KEY_TYPES[i].cert <==> id != "ssh-ed25519")
  {
    hide TypeIndex;
    RowLengths();
    if id == "ssh-ed25519" { TableLookups(0); } else { TableLookups(6); }
  }

  /** The curves of ECDSA: the identifier, the name that is sent, and another name. */
  datatype Curve = Curve(identifier: string, name: string, alias: string)

  predicate IsCurve(c: Curve) {
    || c == Curve("ecdsa-sha2-nistp256", "nistp256", "NIST P-256")
    || c == Curve("ecdsa-sha2-nistp384", "nistp384", "NIST P-384")
    || c == Curve("ecdsa-sha2-nistp521", "nistp521", "NIST P-521")
  }

  lemma CurveRow(c: Curve)
    requires IsCurve(c)
    ensures var i := TypeIndex(c.identifier);
            && i < |KEY_TYPES| && CurveIndex(c.name) == i && CurveIndex(c.alias) == i && KEY_TYPES[i].identifier == c.identifier
            && KEY_TYPES[i].curve == Some(c.name) && KEY_TYPES[i].ecdsa && !KEY_TYPES[i].cert
  {
    hide TypeIndex, CurveIndex;
    var i := if c.name == "nistp256" then 3 else if c.name == "nistp384" then 4 else 5;
    RowOfCurve(c, i);
    TableLookups(i);
  }

  lemma RowOfCurve(c: Curve, i: nat)
    requires IsCurve(c) && i == if c.name == "nistp256" then 3 else if c.name == "nistp384" then 4 else 5
    ensures i < |KEY_TYPES| && KEY_TYPES[i].identifier == c.identifier && KEY_TYPES[i].curve == Some(c.name)
    ensures KEY_TYPES[i].alias == Some(c.alias) && KEY_TYPES[i].ecdsa && !KEY_TYPES[i].cert
  {
    assert "nistp256"[5] == '2' && "nistp384"[5] == '3' && "nistp521"[5] == '5';
  }

  /** With a certificate the same curve goes by a longer identifier. */
  lemma CertCurveRow(c: Curve)
    requires IsCurve(c)
    ensures var i := TypeIndex(c.identifier + "-cert-v01@openssh.com");
            && i < |KEY_TYPES| && KEY_TYPES[i].curve == Some(c.name) && KEY_TYPES[i].ecdsa && KEY_TYPES[i].cert
  {
    hide TypeIndex;
    var i := if c.name == "nistp256" then 9 else if c.name == "nistp384" then 10 else 11;
    RowOfCertCurve(c, i);
    TableLookups(i);
  }

  lemma RowOfCertCurve(c: Curve, i: nat)
    requires IsCurve(c) && i == if c.name == "nistp256" then 9 else if c.name == "nistp384" then 10 else 11
    ensures i < |KEY_TYPES| && KEY_TYPES[i].identifier == c.identifier + "-cert-v01@openssh.com" && KEY_TYPES[i].curve == Some(c.name)
    ensures KEY_TYPES[i].ecdsa && KEY_TYPES[i].cert
  {
    assert "nistp256"[5] == '2' && "nistp384"[5] == '3' && "nistp521"[5] == '5';
    CertIdentifiers();
  }

  lemma CertIdentifiers()
    ensures "ecdsa-sha2-nistp256" + "-cert-v01@openssh.com" == "ecdsa-sha2-nistp256-cert-v01@openssh.com"
    ensures "ecdsa-sha2-nistp384" + "-cert-v01@openssh.com" == "ecdsa-sha2-nistp384-cert-v01@openssh.com"
    ensures "ecdsa-sha2-nistp521" + "-cert-v01@openssh.com" == "ecdsa-sha2-nistp521-cert-v01@openssh.com"
  {
    hide KEY_TYPES;
    Identifier256();
    Identifier384();
    Identifier521();
  }

  lemma Identifier256()
    ensures "ecdsa-sha2-nistp256" + "-cert-v01@openssh.com" == "ecdsa-sha2-nistp256-cert-v01@openssh.com"
  {
    hide KEY_TYPES;
  }

  lemma Identifier384()
    ensures "ecdsa-sha2-nistp384" + "-cert-v01@openssh.com" == "ecdsa-sha2-nistp384-cert-v01@openssh.com"
  {
    hide KEY_TYPES;
  }

  lemma Identifier521()
    ensures "ecdsa-sha2-nistp521" + "-cert-v01@openssh.com" == "ecdsa-sha2-nistp521-cert-v01@openssh.com"
  {
    hide KEY_TYPES;
  }

  // ----- what is sent

  function Name(s: string): seq<u8> {
    StringForm(Ascii(s))
  }

  lemma SimpleBlob(k: PubKey, i: nat, secret: bool, ns: seq<nat>)
    requires i < |KEY_TYPES| && !KEY_TYPES[i].ecdsa && !KEY_TYPES[i].eddsa
    requires HasAll(k, if secret then KEY_TYPES[i].secret else KEY_TYPES[i].public, ns)
    ensures ToBlob(k, KEY_TYPES[i], secret) == Ok(Name(KEY_TYPES[i].identifier) + Mpis(ns))
  {
    hide StringForm, Ascii, ParamsForm, Mpis, KEY_TYPES, CurveIndex;
    NumbersForm(k, if secret then KEY_TYPES[i].secret else KEY_TYPES[i].public, ns);
  }

  /** RSA: e before n, and for the secret key n, e, d, u, p, q (section 6.6 of RFC 4253 for the first). */
  lemma RsaBlob(k: PubKey, id: string, n: nat, e: nat, d: nat, u: nat, p: nat, q: nat)
    requires id == "ssh-rsa" || id == "ssh-rsa-cert-v01@openssh.com"
    requires Has(k, 'n', n) && Has(k, 'e', e)
    ensures TypeIndex(id) < |KEY_TYPES|
    ensures ToBlob(k, KEY_TYPES[TypeIndex(id)], false) == Ok(Name(id) + Mpis([e, n]))
    ensures Has(k, 'd', d) && Has(k, 'u', u) && Has(k, 'p', p) && Has(k, 'q', q) ==>
              ToBlob(k, KEY_TYPES[TypeIndex(id)], true) == Ok(Name(id) + Mpis([n, e, d, u, p, q]))
  {
    hide TypeIndex, KEY_TYPES, ToBlob, Mpis, Name, Has;
    RsaRow(id);
    SimpleBlob(k, TypeIndex(id), false, [e, n]);
    if Has(k, 'd', d) && Has(k, 'u', u) && Has(k, 'p', p) && Has(k, 'q', q) {
      SimpleBlob(k, TypeIndex(id), true, [n, e, d, u, p, q]);
    }
  }

  /** DSA: p, q, g, y, and then x. */
  lemma DsaBlob(k: PubKey, id: string, p: nat, q: nat, g: nat, y: nat, x: nat)
    requires id == "ssh-dss" || id == "ssh-dss-cert-v01@openssh.com"
    requires Has(k, 'p', p) && Has(k, 'q', q) && Has(k, 'g', g) && Has(k, 'y', y)
    ensures TypeIndex(id) < |KEY_TYPES|
    ensures ToBlob(k, KEY_TYPES[TypeIndex(id)], false) == Ok(Name(id) + Mpis([p, q, g, y]))
    ensures Has(k, 'x', x) ==> ToBlob(k, KEY_TYPES[TypeIndex(id)], true) == Ok(Name(id) + Mpis([p, q, g, y, x]))
  {
    hide TypeIndex, KEY_TYPES, ToBlob, Mpis, Name, Has;
    DsaRow(id);
    SimpleBlob(k, TypeIndex(id), false, [p, q, g, y]);
    if Has(k, 'x', x) {
      SimpleBlob(k, TypeIndex(id), true, [p, q, g, y, x]);
    }
  }

  /**
   ECDSA (section 3.1 of RFC 5656): the identifier of the curve of the key, its
   name, whichever name the key has it under, the point, and then the private number.
   */
  lemma EcdsaBlob(k: PubKey, t: Spec, c: Curve, q: nat, d: nat)
    requires t in KEY_TYPES && t.ecdsa && IsCurve(c) && (k.curve == Some(c.name) || k.curve == Some(c.alias)) && Has(k, 'q', q)
    ensures ToBlob(k, t, false) == Ok(Name(c.identifier) + Name(c.name) + Mpis([q]))
    ensures Has(k, 'd', d) ==> ToBlob(k, t, true) == Ok(Name(c.identifier) + Name(c.name) + Mpis([q, d]))
  {
    hide TypeIndex, Mpis, Has, KEY_TYPES, StringForm, Ascii, ParamsForm, CurveIndex, IsCurve;
    var i :| 0 <= i < |KEY_TYPES| && t == KEY_TYPES[i];
    EcdsaRows(i);
    CurveRow(c);
    assert "q" == ['q'] && "qd" == ['q', 'd'];
    NumbersForm(k, "q", [q]);
    if Has(k, 'd', d) {
      NumbersForm(k, "qd", [q, d]);
    }
  }

  /** EdDSA: the 32 octets of the point without their prefix, and then those of the private part. */
  lemma EddsaBlob(k: PubKey, id: string, point: seq<u8>, d: seq<u8>)
    requires id == "ssh-ed25519" || id == "ssh-ed25519-cert-v01@openssh.com"
    requires |point| == 32 && 'q' in k.params && k.params['q'] == Raw([0x40] + point)
    ensures TypeIndex(id) < |KEY_TYPES|
    ensures ToBlob(k, KEY_TYPES[TypeIndex(id)], false) == Ok(Name(id) + StringForm(point))
    ensures 'd' in k.params && k.params['d'] == Raw(d) && |d| < U32 ==>
              ToBlob(k, KEY_TYPES[TypeIndex(id)], true) == Ok(Name(id) + StringForm(point) + StringForm(d))
  {
    hide TypeIndex, KEY_TYPES, ToBlob, StringForm, Ascii;
    EddsaRow(id);
    var i, q := TypeIndex(id), [0x40] + point;
    assert Stripped(q) == point;
    EddsaText(k, i, q, d, false);
    assert Name(id) + (StringForm(point) + []) == Name(id) + StringForm(point);
    if 'd' in k.params && k.params['d'] == Raw(d) && |d| < U32 {
      EddsaText(k, i, q, d, true);
      assert Name(id) + (StringForm(point) + StringForm(d)) == Name(id) + StringForm(point) + StringForm(d);
    }
  }

  /** The name at the start, octet by octet. */
  lemma RsaName()
    ensures Name("ssh-rsa") == [0, 0, 0, 7, 115, 115, 104, 45, 114, 115, 97]
  {
    hide KEY_TYPES;
    assert 's' as int == 115 && 'h' as int == 104 && '-' as int == 45 && 'r' as int == 114 && 'a' as int == 97;
  }

  // ----- what is received

  /** No number is longer than 520 octets. */
  predicate Short(ns: seq<nat>) {
    forall i :: 0 <= i < |ns| ==> |StdForm(ns[i])| <= 520
  }

  lemma {:induction false} MpisRead(ns: seq<nat>, r: seq<u8>)
    requires Short(ns)
    ensures ReadMpis(Mpis(ns) + r, |ns|) == Good(ns, r)
  {
    hide StringForm, StdForm, ReadMpi;
    if ns == [] {
      assert Mpis(ns) + r == r;
    } else {
      assert Short(ns[1..]);
      assert Mpis(ns) + r == Mpi(ns[0]) + (Mpis(ns[1..]) + r);
      MpiBack(ns[0], Mpis(ns[1..]) + r);
      MpisRead(ns[1..], r);
      assert ns == [ns[0]] + ns[1..];
    }
  }

  lemma SimpleReceived(i: nat, secret: bool, ns: seq<nat>, r: seq<u8>)
    requires i < |KEY_TYPES| && !KEY_TYPES[i].ecdsa && !KEY_TYPES[i].eddsa && !KEY_TYPES[i].cert
    requires |ns| == |if secret then KEY_TYPES[i].secret else KEY_TYPES[i].public| && Short(ns)
    ensures FromBlob(Name(KEY_TYPES[i].identifier) + (Mpis(ns) + r), secret) == Good(Numbers(i, None, ns), r)
  {
    hide ReadMpis, Mpis, Short, KEY_TYPES, FromBlob, StringForm, Ascii;
    FromHead(i, Mpis(ns) + r, secret);
    PlainLetters(Mpis(ns) + r, LettersOf(KEY_TYPES[i], secret), KEY_TYPES[i].public);
    MpisRead(ns, r);
  }

  /** The first number of a received RSA key is its e if it is public and its n if it is secret. */
  lemma RsaReceived(ns: seq<nat>, secret: bool, r: seq<u8>)
    requires |ns| == (if secret then 6 else 2) && Short(ns)
    ensures var i := TypeIndex("ssh-rsa");
            && i < |KEY_TYPES| && LettersOf(KEY_TYPES[i], secret) == (if secret then "nedupq" else "en")
            && FromBlob(Name("ssh-rsa") + (Mpis(ns) + r), secret) == Good(Numbers(i, None, ns), r)
  {
    hide TypeIndex, KEY_TYPES, Mpis, Name, Short, FromBlob;
    RsaRow("ssh-rsa");
    assert |"nedupq"| == 6 && |"en"| == 2;
    SimpleReceived(TypeIndex("ssh-rsa"), secret, ns, r);
  }

  // ----- certificates

  /** A key with a certificate: its type again, a nonce and the public parameters, and behind it the rest of the key. */
  function CertBlob(id: string, nonce: seq<u8>, body: seq<u8>, s: seq<u8>): seq<u8> {
    Name(id) + (StringForm(Name(id) + (StringForm(nonce) + body)) + s)
  }

  lemma CertHead(i: nat, nonce: seq<u8>, body: seq<u8>, s: seq<u8>, secret: bool)
    requires i < |KEY_TYPES| && KEY_TYPES[i].cert
    requires |nonce| < U32 && |Name(KEY_TYPES[i].identifier) + (StringForm(nonce) + body)| < U32
    ensures FromBlob(CertBlob(KEY_TYPES[i].identifier, nonce, body, s), secret) == ReadParams(i, Source(Some(body), s), secret)
  {
    hide ReadString, StringForm, TypeIndex, Text, ReadParams, Ascii, KEY_TYPES;
    var id := KEY_TYPES[i].identifier;
    var cert := Name(id) + (StringForm(nonce) + body);
    IdentifierBack(i, StringForm(cert) + s);
    StringBack(cert, s);
    StringBack(nonce, body);
    NamesAscii(i);
    TextBack(id);
    AsciiLength(id);
    StringBack(Ascii(id), StringForm(nonce) + body);
    StringBack(Ascii(id), StringForm(cert) + s);
  }

  lemma AsciiLength(s: string)
    ensures |Ascii(s)| == |s|
  {
  }

  lemma PartStep(ns: seq<nat>, letters: string, public: string, cert: bool)
    requires |ns| == |letters| > 0
    ensures PartForm(ns, letters, public, cert) ==
            (if (letters[0] in public) == cert then Mpi(ns[0]) else []) + PartForm(ns[1..], letters[1..], public, cert)
  {
  }

  lemma RsaPublicParts(e: nat, n: nat)
    ensures PartForm([e, n], "en", "en", true) == Mpis([e, n]) && PartForm([e, n], "en", "en", false) == []
  {
    hide KEY_TYPES, Mpi, PartForm;
    assert [e, n][1..] == [n] && [n][1..] == [] && "en"[1..] == "n" && "n"[1..] == "";
    assert 'e' in "en" && 'n' in "en";
    PartStep([e, n], "en", "en", true);
    PartStep([n], "n", "en", true);
    PartStep([e, n], "en", "en", false);
    PartStep([n], "n", "en", false);
    SecretOnly([], "", true);
    SecretOnly([], "", false);
    assert Mpis([n]) == Mpi(n) + [];
  }

  lemma RsaSecretParts(a: nat, b: nat, rest: seq<nat>)
    requires |rest| == 4
    ensures PartForm([a, b] + rest, "nedupq", "en", true) == Mpis([a, b]) && PartForm([a, b] + rest, "nedupq", "en", false) == Mpis(rest)
  {
    hide KEY_TYPES, Mpi, PartForm;
    var ns := [a, b] + rest;
    assert "nedupq"[1..] == "edupq" && "edupq"[1..] == "dupq" && ns[1..] == [b] + rest && ([b] + rest)[1..] == rest;
    assert 'e' in "en" && 'n' in "en";
    PartStep(ns, "nedupq", "en", true);
    PartStep([b] + rest, "edupq", "en", true);
    PartStep(ns, "nedupq", "en", false);
    PartStep([b] + rest, "edupq", "en", false);
    SecretOnly(rest, "dupq", true);
    SecretOnly(rest, "dupq", false);
    assert [a, b][1..] == [b] && [b][1..] == [] && Mpis([b]) == Mpi(b) + [];
    assert [] + ([] + Mpis(rest)) == Mpis(rest);
  }

  lemma {:induction false} SecretOnly(ns: seq<nat>, letters: string, cert: bool)
    requires |ns| == |letters| && forall i :: 0 <= i < |letters| ==> letters[i] != 'e' && letters[i] != 'n'
    ensures PartForm(ns, letters, "en", cert) == if cert then [] else Mpis(ns)
  {
    hide KEY_TYPES, StringForm, StdForm;
    if letters != [] {
      SecretOnly(ns[1..], letters[1..], cert);
      assert letters[0] !in "en";
    }
  }

  /**
   The public numbers of an RSA certificate are not read in one order: the first
   one is taken for e if the key is public, and for n if the key is secret.
   */
  lemma RsaCertOrder(nonce: seq<u8>, a: nat, b: nat, rest: seq<nat>, more: seq<u8>, r: seq<u8>)
    requires |rest| == 4 && Short([a, b] + rest) && |nonce| < U32
    requires |Name("ssh-rsa-cert-v01@openssh.com") + (StringForm(nonce) + (Mpis([a, b]) + more))| < U32
    ensures var id := "ssh-rsa-cert-v01@openssh.com"; var i := TypeIndex(id);
            && i < |KEY_TYPES| && LettersOf(KEY_TYPES[i], false) == "en" && LettersOf(KEY_TYPES[i], true) == "nedupq"
            && FromBlob(CertBlob(id, nonce, Mpis([a, b]) + more, r), false) == Good(Numbers(i, None, [a, b]), r)
            && FromBlob(CertBlob(id, nonce, Mpis([a, b]) + more, Mpis(rest) + r), true) == Good(Numbers(i, None, [a, b] + rest), r)
  {
    hide TypeIndex, KEY_TYPES, Mpis, Name, FromBlob, CertBlob, StringForm, PartForm, StdForm;
    var id := "ssh-rsa-cert-v01@openssh.com";
    assert id != "ssh-rsa" by { RowLengths(); }
    RsaRow(id);
    var i := TypeIndex(id);
    assert |"nedupq"| == 6 && |"en"| == 2;
    CertHead(i, nonce, Mpis([a, b]) + more, r, false);
    CertHead(i, nonce, Mpis([a, b]) + more, Mpis(rest) + r, true);
    RsaPublicParts(a, b);
    RsaSecretParts(a, b, rest);
    var ns := [a, b] + rest;
    assert Sized(ns);
    assert Sized([a, b]) by { assert ns[0] == a && ns[1] == b; }
    CertLetters([a, b], "en", "en", more, r);
    assert [] + r == r;
    CertLetters(ns, "nedupq", "en", more, r);
  }
}
