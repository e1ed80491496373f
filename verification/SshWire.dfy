/**
 The wire format of agent/command-ssh.c: basic types (section 5 of RFC 4251),
 public key blobs (section 6.6 of RFC 4253, section 3.1 of RFC 5656), and the
 repair of received RSA keys.
 */
module SshWire {
  import opened Octets
  import opened Numbers

  datatype Error = Eof | TooLarge | NotFound | InvCurve | UnknownCurve | InvSexp | InvCertObj | BadSecKey

  datatype Read<+T> = Bad(error: Error) | Good(value: T, rest: seq<u8>)

  // ----- numbers and strings

  const U32 := 0x1_0000_0000

  function U32Octets(n: nat): seq<u8> {
    [n / 0x100_0000 % 256, n / 0x1_0000 % 256, n / 256 % 256, n % 256]
  }

  function ReadU32(s: seq<u8>): Read<nat> {
    if |s| < 4 then Bad(Eof)
    else Good(s[0] as nat * 0x100_0000 + s[1] as nat * 0x1_0000 + s[2] as nat * 256 + s[3] as nat, s[4..])
  }

  lemma U32Back(n: nat, r: seq<u8>)
    requires n < U32
    ensures ReadU32(U32Octets(n) + r) == Good(n, r)
  {
    var s := U32Octets(n) + r;
    assert s[0] == U32Octets(n)[0] && s[1] == U32Octets(n)[1] && s[2] == U32Octets(n)[2] && s[3] == U32Octets(n)[3];
    assert s[4..] == r;
    U32Value(n);
  }

  lemma U32Value(n: nat)
    requires n < U32
    ensures n / 0x100_0000 % 256 * 0x100_0000 + n / 0x1_0000 % 256 * 0x1_0000 + n / 256 % 256 * 256 + n % 256 == n
  {
    var a := n / 256;
    var b := a / 256;
    assert b == n / 0x1_0000 && b / 256 == n / 0x100_0000 && b / 256 < 256;
    assert n == a * 256 + n % 256 && a == b * 256 + a % 256 && b == b / 256 * 256 + b % 256;
  }

  function StringForm(d: seq<u8>): seq<u8> {
    U32Octets(|d|) + d
  }

  function ReadString(s: seq<u8>): Read<seq<u8>> {
    match ReadU32(s)
    case Bad(e) => Bad(e)
    case Good(n, r) => if |r| < n then Bad(Eof) else Good(r[..n], r[n..])
  }

  lemma StringBack(d: seq<u8>, r: seq<u8>)
    requires |d| < U32
    ensures ReadString(StringForm(d) + r) == Good(d, r)
  {
    hide ReadU32, U32Octets;
    assert StringForm(d) + r == U32Octets(|d|) + (d + r);
    U32Back(|d|, d + r);
    assert (d + r)[..|d|] == d && (d + r)[|d|..] == r;
  }

  // ----- multiple precision integers

  /** The signed big-endian form of a number: a zero octet in front if the high bit is set. */
  function StdForm(n: nat): seq<u8> {
    var b := BigEndian(n);
    if b != [] && b[0] >= 128 then [0] + b else b
  }

  function Pow256(k: nat): nat {
    if k == 0 then 1 else 256 * Pow256(k - 1)
  }

  /** The value of a signed big-endian string. */
  function StdValue(s: seq<u8>): int {
    if s != [] && s[0] >= 128 then FromBigEndian(s) - Pow256(|s|) else FromBigEndian(s)
  }

  lemma {:induction false} LeadingZero(s: seq<u8>)
    ensures FromBigEndian([0] + s) == FromBigEndian(s)
  {
    if s == [] {
      assert ([0] + s)[..0] == [];
    } else {
      assert ([0] + s)[..|s|] == [0] + s[..|s| - 1];
      LeadingZero(s[..|s| - 1]);
    }
  }

  lemma StdBack(n: nat)
    ensures StdValue(StdForm(n)) == n
  {
    hide BigEndian, FromBigEndian;
    BigEndianValue(n);
    LeadingZero(BigEndian(n));
  }

  const MAX_MPI := 520

  function ReadMpi(s: seq<u8>): Read<int> {
    match ReadString(s)
    case Bad(e) => Bad(e)
    case Good(d, r) => if |d| > MAX_MPI then Bad(TooLarge) else Good(StdValue(d), r)
  }

  /** A number is read back if and only if its form is not longer than 520 octets. */
  lemma MpiBack(n: nat, r: seq<u8>)
    requires |StdForm(n)| < U32
    ensures ReadMpi(StringForm(StdForm(n)) + r) == if |StdForm(n)| <= MAX_MPI then Good(n, r) else Bad(TooLarge)
  {
    hide ReadString, StringForm, StdForm, StdValue;
    StringBack(StdForm(n), r);
    StdBack(n);
  }

  // ----- the key types

  datatype Spec = Spec(identifier: string, name: string, secret: string, public: string, sexp: string,
                       curve: Option<string>, alias: Option<string>, ecdsa: bool, eddsa: bool, cert: bool)

  /** The table ssh_key_types. */
  const KEY_TYPES: seq<Spec> := [
    Spec("ssh-ed25519", "Ed25519", "qd", "q", "qd", Some("Ed25519"), None, false, true, false),
    Spec("ssh-rsa", "RSA", "nedupq", "en", "nedpqu", None, None, false, false, false),
    Spec("ssh-dss", "DSA", "pqgyx", "pqgy", "pqgyx", None, None, false, false, false),
    Spec("ecdsa-sha2-nistp256", "ECDSA", "qd", "q", "qd", Some("nistp256"), Some("NIST P-256"), true, false, false),
    Spec("ecdsa-sha2-nistp384", "ECDSA", "qd", "q", "qd", Some("nistp384"), Some("NIST P-384"), true, false, false),
    Spec("ecdsa-sha2-nistp521", "ECDSA", "qd", "q", "qd", Some("nistp521"), Some("NIST P-521"), true, false, false),
    Spec("ssh-ed25519-cert-v01@openssh.com", "Ed25519", "qd", "q", "qd", Some("Ed25519"), None, false, true, true),
    Spec("ssh-rsa-cert-v01@openssh.com", "RSA", "nedupq", "en", "nedpqu", None, None, false, false, true),
    Spec("ssh-dss-cert-v01@openssh.com", "DSA", "pqgyx", "pqgy", "pqgyx", None, None, false, false, true),
    Spec("ecdsa-sha2-nistp256-cert-v01@openssh.com", "ECDSA", "qd", "q", "qd", Some("nistp256"), Some("NIST P-256"), true, false, true),
    Spec("ecdsa-sha2-nistp384-cert-v01@openssh.com", "ECDSA", "qd", "q", "qd", Some("nistp384"), Some("NIST P-384"), true, false, true),
    Spec("ecdsa-sha2-nistp521-cert-v01@openssh.com", "ECDSA", "qd", "q", "qd", Some("nistp521"), Some("NIST P-521"), true, false, true)
  ]

  /** The parameters that are sent, in wire order. */
  function LettersOf(t: Spec, secret: bool): string {
    if secret then t.secret else t.public
  }

  predicate Names(t: Spec, curve: string) {
    t.curve == Some(curve) || (t.curve.Some? && t.alias == Some(curve))
  }

  function CurveIndex(curve: string, from: nat := 0): (i: nat)
    requires from <= |KEY_TYPES|
    ensures from <= i <= |KEY_TYPES|
    ensures i < |KEY_TYPES| ==> Names(KEY_TYPES[i], curve)
    ensures forall j :: from <= j < i ==> !Names(KEY_TYPES[j], curve)
    decreases |KEY_TYPES| - from
  {
    if from == |KEY_TYPES| || Names(KEY_TYPES[from], curve) then from else CurveIndex(curve, from + 1)
  }

  function TypeIndex(identifier: string, from: nat := 0): (i: nat)
    requires from <= |KEY_TYPES|
    ensures from <= i <= |KEY_TYPES|
    ensures i < |KEY_TYPES| ==> KEY_TYPES[i].identifier == identifier
    ensures forall j :: from <= j < i ==> KEY_TYPES[j].identifier != identifier
    decreases |KEY_TYPES| - from
  {
    if from == |KEY_TYPES| || KEY_TYPES[from].identifier == identifier then from else TypeIndex(identifier, from + 1)
  }

  /** Every type of the table is found by its own identifier, and without a certificate by its curve under both names. */
  lemma TableLookups(i: nat)
    requires i < |KEY_TYPES|
    ensures TypeIndex(KEY_TYPES[i].identifier) == i
    ensures !KEY_TYPES[i].cert && KEY_TYPES[i].curve.Some? ==> CurveIndex(KEY_TYPES[i].curve.value) == i
    ensures !KEY_TYPES[i].cert && KEY_TYPES[i].alias.Some? ==> CurveIndex(KEY_TYPES[i].alias.value) == i
  {
    FoundByType(i);
    if !KEY_TYPES[i].cert && KEY_TYPES[i].curve.Some? {
      FoundByCurve(i);
    } else {
      AliasHasCurve(i);
    }
  }

  lemma AliasHasCurve(i: nat)
    requires i < |KEY_TYPES|
    ensures KEY_TYPES[i].alias.Some? ==> KEY_TYPES[i].curve.Some?
  {
  }

  lemma FoundByType(i: nat)
    requires i < |KEY_TYPES|
    ensures TypeIndex(KEY_TYPES[i].identifier) == i
  {
    hide KEY_TYPES, Feature;
    var k := TypeIndex(KEY_TYPES[i].identifier);
    TypeFeatures(i);
    TypeFeatures(k);
    TableSize();
    FeatureUnique(i, k, KEY_TYPES[i].identifier);
  }

  lemma TableSize()
    ensures |KEY_TYPES| == 12
  {
  }

  lemma FeatureUnique(i: nat, k: nat, id: string)
    requires i < 12 && k < 12
    requires var (n, at, c) := Feature(i); |id| == n && at < n && id[at] == c
    requires var (n, at, c) := Feature(k); |id| == n && at < n && id[at] == c
    ensures i == k
  {
    hide KEY_TYPES;
  }

  /** A length and a character tell the identifiers apart. */
  function Feature(i: nat): (nat, nat, char) {
    if i == 0 then (11, 4, 'e')
    else if i == 1 then (7, 4, 'r')
    else if i == 2 then (7, 4, 'd')
    else if i == 3 then (19, 16, '2')
    else if i == 4 then (19, 16, '3')
    else if i == 5 then (19, 16, '5')
    else if i == 6 then (32, 4, 'e')
    else if i == 7 then (28, 4, 'r')
    else if i == 8 then (28, 4, 'd')
    else if i == 9 then (40, 16, '2')
    else if i == 10 then (40, 16, '3')
    else (40, 16, '5')
  }

  lemma TypeFeatures(i: nat)
    requires i < |KEY_TYPES|
    ensures var (n, at, c) := Feature(i); |KEY_TYPES[i].identifier| == n && at < n && KEY_TYPES[i].identifier[at] == c
  {
    if i < 6 {
      PlainFeatures(i);
    } else {
      CertFeatures(i);
    }
  }

  lemma PlainFeatures(i: nat)
    requires i < 6 <= |KEY_TYPES|
    ensures var (n, at, c) := Feature(i); |KEY_TYPES[i].identifier| == n && at < n && KEY_TYPES[i].identifier[at] == c
  {
  }

  lemma CertFeatures(i: nat)
    requires 6 <= i < |KEY_TYPES|
    ensures var (n, at, c) := Feature(i); |KEY_TYPES[i].identifier| == n && at < n && KEY_TYPES[i].identifier[at] == c
  {
  }

  lemma FoundByCurve(i: nat)
    requires i < |KEY_TYPES| && !KEY_TYPES[i].cert && KEY_TYPES[i].curve.Some?
    ensures CurveIndex(KEY_TYPES[i].curve.value) == i
    ensures KEY_TYPES[i].alias.Some? ==> CurveIndex(KEY_TYPES[i].alias.value) == i
  {
    var k := CurveIndex(KEY_TYPES[i].curve.value);
    CurveFeatures(i);
    CurveFeatures(k);
    if KEY_TYPES[i].alias.Some? {
      CurveFeatures(CurveIndex(KEY_TYPES[i].alias.value));
    }
  }

  /** Lengths and a digit tell the names of the curves apart. */
  lemma CurveFeatures(i: nat)
    requires i < |KEY_TYPES| && KEY_TYPES[i].curve.Some?
    ensures var t := KEY_TYPES[i]; var c := t.curve.value;
            && (t.alias.None? ==> |c| == 7 && i % 6 == 0)
            && (t.alias.Some? ==> |c| == 8 && |t.alias.value| == 10 && c[5] == t.alias.value[7] && c[5] == Feature(i).2)
    ensures KEY_TYPES[i].cert <==> i >= 6
  {
  }

  // ----- public key blobs

  function Ascii(s: string): seq<u8> {
    seq(|s|, i requires 0 <= i < |s| => s[i] as int % 256)
  }

  /** The C string in a buffer. */
  function Text(d: seq<u8>): string {
    if d == [] || d[0] == 0 then "" else [d[0] as char] + Text(d[1..])
  }

  predicate IsAscii(s: string) {
    forall i :: 0 <= i < |s| ==> 0 < s[i] as int < 128
  }

  lemma {:induction false} TextBack(s: string)
    requires IsAscii(s)
    ensures Text(Ascii(s)) == s
  {
    if s != [] {
      assert Ascii(s)[1..] == Ascii(s[1..]);
      TextBack(s[1..]);
    }
  }

  lemma NamesAscii(i: nat)
    requires i < |KEY_TYPES|
    ensures IsAscii(KEY_TYPES[i].identifier) && |KEY_TYPES[i].identifier| < 100
    ensures KEY_TYPES[i].curve.Some? ==> IsAscii(KEY_TYPES[i].curve.value) && |KEY_TYPES[i].curve.value| < 100
  {
    hide IsAscii;
    ShortNames();
    EcdsaNames();
    CurveNames();
    CertNames();
    EcdsaCertNames();
  }

  lemma CertNames()
    ensures IsAscii("ssh-ed25519-cert-v01@openssh.com") && |"ssh-ed25519-cert-v01@openssh.com"| == 32
    ensures IsAscii("ssh-rsa-cert-v01@openssh.com") && |"ssh-rsa-cert-v01@openssh.com"| == 28
    ensures IsAscii("ssh-dss-cert-v01@openssh.com") && |"ssh-dss-cert-v01@openssh.com"| == 28
  {
    hide KEY_TYPES;
  }

  lemma EcdsaCertNames()
    ensures IsAscii("ecdsa-sha2-nistp256-cert-v01@openssh.com") && |"ecdsa-sha2-nistp256-cert-v01@openssh.com"| == 40
    ensures IsAscii("ecdsa-sha2-nistp384-cert-v01@openssh.com") && |"ecdsa-sha2-nistp384-cert-v01@openssh.com"| == 40
    ensures IsAscii("ecdsa-sha2-nistp521-cert-v01@openssh.com") && |"ecdsa-sha2-nistp521-cert-v01@openssh.com"| == 40
  {
    hide KEY_TYPES, IsAscii;
    Cert256();
    Cert384();
    Cert521();
  }

  lemma Cert256()
    ensures IsAscii("ecdsa-sha2-nistp256-cert-v01@openssh.com") && |"ecdsa-sha2-nistp256-cert-v01@openssh.com"| == 40
  {
    hide KEY_TYPES;
  }

  lemma Cert384()
    ensures IsAscii("ecdsa-sha2-nistp384-cert-v01@openssh.com") && |"ecdsa-sha2-nistp384-cert-v01@openssh.com"| == 40
  {
    hide KEY_TYPES;
  }

  lemma Cert521()
    ensures IsAscii("ecdsa-sha2-nistp521-cert-v01@openssh.com") && |"ecdsa-sha2-nistp521-cert-v01@openssh.com"| == 40
  {
    hide KEY_TYPES;
  }

  lemma ShortNames()
    ensures IsAscii("ssh-ed25519") && IsAscii("Ed25519") && IsAscii("ssh-rsa") && IsAscii("ssh-dss")
    ensures |"ssh-ed25519"| == 11 && |"Ed25519"| == 7 && |"ssh-rsa"| == 7 && |"ssh-dss"| == 7
  {
    hide KEY_TYPES;
  }

  lemma EcdsaNames()
    ensures IsAscii("ecdsa-sha2-nistp256") && IsAscii("ecdsa-sha2-nistp384") && IsAscii("ecdsa-sha2-nistp521")
    ensures |"ecdsa-sha2-nistp256"| == 19 && |"ecdsa-sha2-nistp384"| == 19 && |"ecdsa-sha2-nistp521"| == 19
  {
    hide KEY_TYPES;
  }

  lemma CurveNames()
    ensures IsAscii("nistp256") && IsAscii("nistp384") && IsAscii("nistp521")
    ensures |"nistp256"| == 8 && |"nistp384"| == 8 && |"nistp521"| == 8
  {
    hide KEY_TYPES;
  }

  datatype Value = Num(n: nat) | Raw(data: seq<u8>)

  /** A public key: its curve, if it has one, and its parameters by letter. */
  datatype PubKey = PubKey(curve: Option<string>, params: map<char, Value>)

  /** The key has a number for each letter, or octets for an EdDSA key. */
  predicate HasParams(k: PubKey, letters: string, eddsa: bool) {
    forall i :: 0 <= i < |letters| ==> letters[i] in k.params && k.params[letters[i]].Raw? == eddsa
  }

  /** The point of an EdDSA key without the prefix 0x40. */
  function Stripped(q: seq<u8>): seq<u8> {
    if Prefixed(q) then q[1..] else q
  }

  /** An odd number of octets that starts with 0x40. */
  predicate Prefixed(q: seq<u8>) {
    |q| % 2 == 1 && q[0] == 0x40
  }

  function ParamForm(c: char, v: Value): seq<u8> {
    match v
    case Num(n) => StringForm(StdForm(n))
    case Raw(d) => StringForm(if c == 'q' then Stripped(d) else d)
  }

  function ParamsForm(k: PubKey, letters: string): seq<u8>
    requires forall i :: 0 <= i < |letters| ==> letters[i] in k.params
  {
    if letters == [] then [] else ParamForm(letters[0], k.params[letters[0]]) + ParamsForm(k, letters[1..])
  }

  datatype Result<+T> = Ok(value: T) | Err(error: Error)

  /** The algorithm identifier, for ECDSA the one of the curve and the canonical name of the curve. */
  function HeadForm(t: Spec, curve: Option<string>): Result<seq<u8>> {
    if !t.ecdsa then Ok(StringForm(Ascii(t.identifier)))
    else if curve.None? then Err(InvCurve)
    else
      var i := CurveIndex(curve.value);
      if i == |KEY_TYPES| then Err(UnknownCurve)
      else Ok(StringForm(Ascii(KEY_TYPES[i].identifier)) + StringForm(Ascii(KEY_TYPES[i].curve.value)))
  }

  /** ssh_key_to_blob: the public parameters, or with the secret ones. */
  function ToBlob(k: PubKey, t: Spec, secret: bool): Result<seq<u8>> {
    match HeadForm(t, k.curve)
    case Err(e) => Err(e)
    case Ok(head) =>
      var letters := LettersOf(t, secret);
      if !HasParams(k, letters, t.eddsa) then Err(InvSexp) else Ok(head + ParamsForm(k, letters))
  }

  // ----- receiving

  /** ssh_receive_mpint_list. */
  function ReadMpis(s: seq<u8>, count: nat): Read<seq<int>>
    decreases count
  {
    if count == 0 then Good([], s)
    else
      match ReadMpi(s)
      case Bad(e) => Bad(e)
      case Good(n, r) =>
        match ReadMpis(r, count - 1)
        case Bad(e) => Bad(e)
        case Good(ns, r') => Good([n] + ns, r')
  }

  /** stream_read_blob: the octets with the prefix 0x40. */
  function ReadPoint(s: seq<u8>): Read<seq<u8>> {
    match ReadU32(s)
    case Bad(e) => Bad(e)
    case Good(n, r) =>
      if n > 4096 / 8 + 8 then Bad(TooLarge)
      else if |r| < n then Bad(Eof)
      else Good([0x40] + r[..n], r[n..])
  }

  /** The private part of an EdDSA key: 32 octets, which may be followed by the 32 of the point. */
  function ReadSecret(s: seq<u8>): Read<seq<u8>> {
    match ReadU32(s)
    case Bad(e) => Bad(e)
    case Good(n, r) =>
      if n != 32 && n != 64 then Bad(BadSecKey) else if |r| < n then Bad(Eof) else Good(r[..32], r[n..])
  }

  /** Where parameters are read from: the public ones from a certificate, if there is one. */
  datatype Source = Source(cert: Option<seq<u8>>, rest: seq<u8>) {
    function Public(): seq<u8> { if cert.Some? then cert.value else rest }
    function After(r: seq<u8>): Source { if cert.Some? then Source(Some(r), rest) else Source(None, r) }
  }

  datatype Receipt<+T> = Refused(error: Error) | Got(value: T, source: Source)

  /** A number from the certificate or from the stream. */
  function ReadNumber(src: Source, public: bool): Receipt<int> {
    if public then
      match ReadMpi(src.Public())
      case Bad(e) => Refused(e)
      case Good(n, r) => Got(n, src.After(r))
    else
      match ReadMpi(src.rest)
      case Bad(e) => Refused(e)
      case Good(n, r) => Got(n, Source(src.cert, r))
  }

  /** ssh_receive_mpint_list. */
  function ReadLetters(src: Source, letters: string, public: string): Receipt<seq<int>>
    decreases |letters|
  {
    if letters == [] then Got([], src)
    else
      match ReadNumber(src, letters[0] in public)
      case Refused(e) => Refused(e)
      case Got(n, src') =>
        match ReadLetters(src', letters[1..], public)
        case Refused(e) => Refused(e)
        case Got(ns, src'') => Got([n] + ns, src'')
  }

  datatype Received =
    | Numbers(index: nat, curve: Option<string>, numbers: seq<int>)
    | Point(index: nat, point: seq<u8>, secret: Option<seq<u8>>)

  /** The certificate of a type that has one: its own type again, a nonce, and the public parameters. */
  function OpenCert(t: Spec, id: string, s: seq<u8>): Receipt<()> {
    if !t.cert then Got((), Source(None, s))
    else
      match ReadString(s)
      case Bad(e) => Refused(e)
      case Good(cert, r) =>
        match ReadString(cert)
        case Bad(e) => Refused(e)
        case Good(kind, c) =>
          if Text(kind) != id then Refused(InvCertObj)
          else
            match ReadString(c)
            case Bad(e) => Refused(e)
            case Good(_, c') => Got((), Source(Some(c'), r))
  }

  /** ssh_receive_key without comment. */
  function FromBlob(s: seq<u8>, secret: bool): Read<Received> {
    match ReadString(s)
    case Bad(e) => Bad(e)
    case Good(id, r) =>
      var i := TypeIndex(Text(id));
      if i == |KEY_TYPES| then Bad(NotFound)
      else
        match OpenCert(KEY_TYPES[i], Text(id), r)
        case Refused(e) => Bad(e)
        case Got(_, src) => ReadParams(i, src, secret)
  }

  /** The parameters of a key of this type. */
  function ReadParams(i: nat, src: Source, secret: bool): Read<Received>
    requires i < |KEY_TYPES|
  {
    if KEY_TYPES[i].eddsa then ReadPair(i, src, secret)
    else if KEY_TYPES[i].ecdsa then
      match ReadString(src.Public())
      case Bad(e) => Bad(e)
      case Good(name, r) =>
        var j := CurveIndex(Text(name));
        if j == |KEY_TYPES| then Bad(UnknownCurve) else ReadNumbers(i, KEY_TYPES[j].curve, src.After(r), secret)
    else ReadNumbers(i, None, src, secret)
  }

  function ReadPair(i: nat, src: Source, secret: bool): Read<Received> {
    match ReadPoint(src.Public())
    case Bad(e) => Bad(e)
    case Good(q, r) =>
      var src' := src.After(r);
      if !secret then Good(Point(i, q, None), src'.rest)
      else
        match ReadSecret(src'.rest)
        case Bad(e) => Bad(e)
        case Good(d, r') => Good(Point(i, q, Some(d)), r')
  }

  function ReadNumbers(i: nat, curve: Option<string>, src: Source, secret: bool): Read<Received>
    requires i < |KEY_TYPES|
  {
    match ReadLetters(src, LettersOf(KEY_TYPES[i], secret), KEY_TYPES[i].public)
    case Refused(e) => Bad(e)
    case Got(ns, src') => Good(Numbers(i, curve, ns), src'.rest)
  }

  // ----- the round trip

  function NumbersOf(k: PubKey, letters: string): (ns: seq<nat>)
    requires HasParams(k, letters, false)
    ensures |ns| == |letters| && forall i :: 0 <= i < |letters| ==> ns[i] == k.params[letters[i]].n
  {
    seq(|letters|, i requires 0 <= i < |letters| => k.params[letters[i]].n)
  }

  /** No number is too long for the reader. */
  predicate Sized(ns: seq<nat>) {
    forall i :: 0 <= i < |ns| ==> |StdForm(ns[i])| <= MAX_MPI
  }

  predicate Writable(ns: seq<nat>) {
    forall i :: 0 <= i < |ns| ==> |StdForm(ns[i])| < U32
  }

  lemma {:induction false} NumbersBack(k: PubKey, letters: string, r: seq<u8>)
    requires HasParams(k, letters, false) && Writable(NumbersOf(k, letters))
    ensures ReadMpis(ParamsForm(k, letters) + r, |letters|) ==
            if Sized(NumbersOf(k, letters)) then Good(NumbersOf(k, letters), r) else Bad(TooLarge)
    decreases |letters|
  {
    hide StdForm, ReadMpi, StringForm;
    var ns := NumbersOf(k, letters);
    if letters == [] {
      assert ParamsForm(k, letters) + r == r;
      assert ns == [];
    } else {
      var rest := letters[1..];
      var ms := NumbersOf(k, rest);
      assert ns == [ns[0]] + ms;
      forall i | 0 <= i < |ms|
        ensures |StdForm(ms[i])| < U32
      {
        assert ms[i] == ns[i + 1];
      }
      NumbersBack(k, rest, r);
      assert ParamsForm(k, letters) + r == StringForm(StdForm(ns[0])) + (ParamsForm(k, rest) + r);
      MpiBack(ns[0], ParamsForm(k, rest) + r);
      assert Sized(ns) <==> |StdForm(ns[0])| <= MAX_MPI && Sized(ms) by {
        if Sized(ns) {
          assert forall i :: 0 <= i < |ms| ==> ms[i] == ns[i + 1];
        }
      }
    }
  }

  lemma IdentifierBack(i: nat, r: seq<u8>)
    requires i < |KEY_TYPES|
    ensures var s := StringForm(Ascii(KEY_TYPES[i].identifier)) + r;
            ReadString(s).Good? && ReadString(s).rest == r && TypeIndex(Text(ReadString(s).value)) == i
  {
    hide ReadString, StringForm, TypeIndex, Text;
    NamesAscii(i);
    StringBack(Ascii(KEY_TYPES[i].identifier), r);
    TextBack(KEY_TYPES[i].identifier);
    TableLookups(i);
  }

  lemma CurveBack(i: nat, r: seq<u8>)
    requires i < |KEY_TYPES| && KEY_TYPES[i].curve.Some? && !KEY_TYPES[i].cert
    ensures var s := StringForm(Ascii(KEY_TYPES[i].curve.value)) + r;
            ReadString(s).Good? && ReadString(s).rest == r && CurveIndex(Text(ReadString(s).value)) == i
  {
    hide ReadString, StringForm, CurveIndex, Text;
    NamesAscii(i);
    StringBack(Ascii(KEY_TYPES[i].curve.value), r);
    TextBack(KEY_TYPES[i].curve.value);
    TableLookups(i);
  }

  /** Without a certificate all numbers come from the stream. */
  lemma {:induction false} PlainLetters(s: seq<u8>, letters: string, public: string)
    ensures ReadLetters(Source(None, s), letters, public) ==
            match ReadMpis(s, |letters|) case Bad(e) => Refused(e) case Good(ns, r) => Got(ns, Source(None, r))
    decreases |letters|
  {
    hide ReadMpi;
    if letters != [] && ReadMpi(s).Good? {
      PlainLetters(ReadMpi(s).rest, letters[1..], public);
    }
  }

  /** The numbers that are in the certificate, or those that are not, in the order of the letters. */
  function PartForm(ns: seq<nat>, letters: string, public: string, cert: bool): seq<u8>
    requires |ns| == |letters|
    decreases |letters|
  {
    if letters == [] then []
    else (if (letters[0] in public) == cert then StringForm(StdForm(ns[0])) else []) + PartForm(ns[1..], letters[1..], public, cert)
  }

  /** With a certificate, the public numbers are taken from it and the others from the stream, each in the order of the letters. */
  lemma {:induction false} CertLetters(ns: seq<nat>, letters: string, public: string, c: seq<u8>, r: seq<u8>)
    requires |ns| == |letters| && Sized(ns)
    ensures ReadLetters(Source(Some(PartForm(ns, letters, public, true) + c), PartForm(ns, letters, public, false) + r), letters, public) ==
            Got(ns, Source(Some(c), r))
    decreases |letters|
  {
    hide ReadMpi, StringForm, StdForm;
    if letters == [] {
      assert [] + c == c && [] + r == r;
    } else {
      var certPart, streamPart := PartForm(ns[1..], letters[1..], public, true) + c, PartForm(ns[1..], letters[1..], public, false) + r;
      var x := StringForm(StdForm(ns[0]));
      var isPublic := letters[0] in public;
      assert PartForm(ns, letters, public, true) + c == if isPublic then x + certPart else certPart;
      assert PartForm(ns, letters, public, false) + r == if isPublic then streamPart else x + streamPart;
      MpiBack(ns[0], if isPublic then certPart else streamPart);
      CertLetters(ns[1..], letters[1..], public, c, r);
      assert ns == [ns[0]] + ns[1..];
    }
  }

  /** The numbers of a key that was sent are read. */
  lemma ReadBack(k: PubKey, i: nat, curve: Option<string>, secret: bool, r: seq<u8>)
    requires i < |KEY_TYPES| && HasParams(k, LettersOf(KEY_TYPES[i], secret), false)
    requires Writable(NumbersOf(k, LettersOf(KEY_TYPES[i], secret)))
    ensures var letters := LettersOf(KEY_TYPES[i], secret); var ns := NumbersOf(k, letters);
            ReadNumbers(i, curve, Source(None, ParamsForm(k, letters) + r), secret) ==
            if Sized(ns) then Good(Numbers(i, curve, ns), r) else Bad(TooLarge)
  {
    hide ReadMpis, ParamsForm, Sized, Writable, KEY_TYPES, LettersOf;
    var letters := LettersOf(KEY_TYPES[i], secret);
    PlainLetters(ParamsForm(k, letters) + r, letters, KEY_TYPES[i].public);
    NumbersBack(k, letters, r);
  }

  /** The head of a blob of a type without certificate. */
  lemma FromHead(i: nat, s: seq<u8>, secret: bool)
    requires i < |KEY_TYPES| && !KEY_TYPES[i].cert
    ensures FromBlob(StringForm(Ascii(KEY_TYPES[i].identifier)) + s, secret) == ReadParams(i, Source(None, s), secret)
  {
    hide ReadString, StringForm, TypeIndex, Text, ReadParams, Ascii, KEY_TYPES;
    IdentifierBack(i, s);
  }

  /** An RSA or DSA key, public or secret, is received as it was sent if no parameter is too long. */
  lemma PlainBlobBack(k: PubKey, i: nat, secret: bool, r: seq<u8>)
    requires i < |KEY_TYPES| && !KEY_TYPES[i].ecdsa && !KEY_TYPES[i].eddsa && !KEY_TYPES[i].cert
    requires ToBlob(k, KEY_TYPES[i], secret).Ok? && Writable(NumbersOf(k, LettersOf(KEY_TYPES[i], secret)))
    ensures var ns := NumbersOf(k, LettersOf(KEY_TYPES[i], secret));
            FromBlob(ToBlob(k, KEY_TYPES[i], secret).value + r, secret) ==
            if Sized(ns) then Good(Numbers(i, None, ns), r) else Bad(TooLarge)
  {
    hide StringForm, ParamsForm, Sized, Writable, CurveIndex, FromBlob, ReadNumbers, Ascii, KEY_TYPES, LettersOf;
    var t := KEY_TYPES[i];
    var head, params := StringForm(Ascii(t.identifier)), ParamsForm(k, LettersOf(t, secret));
    assert head + params + r == head + (params + r);
    FromHead(i, params + r, secret);
    ReadBack(k, i, None, secret, r);
  }

  /** An ECDSA key is received with the type of its curve, the curve under its canonical name, and its numbers. */
  lemma EcdsaBlobBack(k: PubKey, i: nat, secret: bool, r: seq<u8>)
    requires i < |KEY_TYPES| && KEY_TYPES[i].ecdsa && ToBlob(k, KEY_TYPES[i], secret).Ok?
    requires k.curve.Some? && KEY_TYPES[CurveIndex(k.curve.value)].ecdsa
    requires HasParams(k, if secret then "qd" else "q", false) && Writable(NumbersOf(k, if secret then "qd" else "q"))
    ensures var ns := NumbersOf(k, if secret then "qd" else "q"); var j := CurveIndex(k.curve.value);
            FromBlob(ToBlob(k, KEY_TYPES[i], secret).value + r, secret) ==
            if Sized(ns) then Good(Numbers(j, KEY_TYPES[j].curve, ns), r) else Bad(TooLarge)
  {
    hide ReadString, StringForm, Text, ParamsForm, Sized, Writable, CurveIndex, NumbersOf, FromBlob, ReadNumbers, Ascii, KEY_TYPES;
    var j := CurveIndex(k.curve.value);
    EcdsaRows(i);
    EcdsaRows(j);
    FirstOfCurve(k.curve.value);
    var letters := if secret then "qd" else "q";
    var head, name, params := StringForm(Ascii(KEY_TYPES[j].identifier)), StringForm(Ascii(KEY_TYPES[j].curve.value)), ParamsForm(k, letters);
    assert head + name + params + r == head + (name + (params + r));
    FromHead(j, name + (params + r), secret);
    CurveBack(j, params + r);
    ReadBack(k, j, KEY_TYPES[j].curve, secret, r);
  }

  /** A curve is found at a type without certificate. */
  lemma FirstOfCurve(curve: string)
    requires CurveIndex(curve) < |KEY_TYPES|
    ensures !KEY_TYPES[CurveIndex(curve)].cert
  {
    var j := CurveIndex(curve);
    CertRows(j);
    if KEY_TYPES[j].cert {
      assert Names(KEY_TYPES[j - 6], curve);
    }
  }

  /** The types with certificate repeat those without. */
  lemma CertRows(j: nat)
    requires j < |KEY_TYPES|
    ensures KEY_TYPES[j].cert ==> j >= 6 && KEY_TYPES[j - 6].curve == KEY_TYPES[j].curve && KEY_TYPES[j - 6].alias == KEY_TYPES[j].alias
  {
  }

  lemma EcdsaRows(i: nat)
    requires i < |KEY_TYPES| && KEY_TYPES[i].ecdsa
    ensures KEY_TYPES[i].public == "q" && KEY_TYPES[i].secret == "qd" && !KEY_TYPES[i].eddsa && KEY_TYPES[i].curve.Some?
  {
  }

  /** Reading a point adds the prefix 0x40. */
  lemma PointBack(d: seq<u8>, r: seq<u8>)
    requires |d| < U32
    ensures ReadPoint(StringForm(d) + r) == if |d| <= MAX_MPI then Good([0x40] + d, r) else Bad(TooLarge)
  {
    hide ReadU32, U32Octets;
    assert StringForm(d) + r == U32Octets(|d|) + (d + r);
    U32Back(|d|, d + r);
    assert (d + r)[..|d|] == d && (d + r)[|d|..] == r;
  }

  lemma StrippedBack(q: seq<u8>)
    ensures |Stripped(q)| <= |q|
    ensures [0x40] + Stripped(q) == q <==> Prefixed(q)
  {
    if [0x40] + Stripped(q) == q {
      assert q[0] == 0x40;
      assert |Stripped(q)| == |q| - 1;
    }
  }

  /** The octets of the parameters of an EdDSA key. */
  function PairForm(q: seq<u8>, d: seq<u8>, secret: bool): seq<u8> {
    StringForm(Stripped(q)) + (if secret then StringForm(d) else [])
  }

  ghost predicate IsPair(k: PubKey, q: seq<u8>, d: seq<u8>, secret: bool) {
    && 'q' in k.params && k.params['q'] == Raw(q) && |q| < U32
    && (secret ==> 'd' in k.params && k.params['d'] == Raw(d) && |d| < U32)
  }

  lemma EddsaText(k: PubKey, i: nat, q: seq<u8>, d: seq<u8>, secret: bool)
    requires i < |KEY_TYPES| && KEY_TYPES[i].eddsa && IsPair(k, q, d, secret)
    ensures ToBlob(k, KEY_TYPES[i], secret) == Ok(StringForm(Ascii(KEY_TYPES[i].identifier)) + PairForm(q, d, secret))
  {
    hide StringForm, Ascii, Stripped, CurveIndex, KEY_TYPES;
    EddsaRows(i);
    OneParam(k, 'q');
    if secret {
      OneParam(k, 'd');
      TwoParams(k, 'q', 'd');
    }
  }

  lemma EddsaRows(i: nat)
    requires i < |KEY_TYPES| && KEY_TYPES[i].eddsa
    ensures KEY_TYPES[i].public == ['q'] && KEY_TYPES[i].secret == ['q', 'd'] && !KEY_TYPES[i].ecdsa
  {
  }

  lemma SecretBack(d: seq<u8>, r: seq<u8>)
    requires |d| < U32
    ensures ReadSecret(StringForm(d) + r) == if |d| == 32 || |d| == 64 then Good(d[..32], r) else Bad(BadSecKey)
  {
    hide ReadU32, U32Octets;
    assert StringForm(d) + r == U32Octets(|d|) + (d + r);
    U32Back(|d|, d + r);
    if |d| >= 32 {
      assert (d + r)[..32] == d[..32] && (d + r)[|d|..] == r;
    }
  }

  /**
   An EdDSA key is received with the prefix 0x40 if it is not too long, and its
   private part, if it is sent, if that has 32 octets, or as its first half: the
   point is the same if and only if it had the prefix before.
   */
  lemma EddsaBlobBack(k: PubKey, i: nat, q: seq<u8>, d: seq<u8>, secret: bool, r: seq<u8>)
    requires i < |KEY_TYPES| && KEY_TYPES[i].eddsa && !KEY_TYPES[i].cert && IsPair(k, q, d, secret)
    ensures var blob := ToBlob(k, KEY_TYPES[i], secret); var point := [0x40] + Stripped(q);
            && blob.Ok?
            && FromBlob(blob.value + r, secret) ==
               if |Stripped(q)| > MAX_MPI then Bad(TooLarge)
               else if !secret then Good(Point(i, point, None), r)
               else if |d| == 32 || |d| == 64 then Good(Point(i, point, Some(d[..32])), r)
               else Bad(BadSecKey)
    ensures [0x40] + Stripped(q) == q <==> Prefixed(q)
  {
    hide StringForm, Ascii, Stripped, ToBlob, FromBlob, KEY_TYPES, PairForm;
    StrippedBack(q);
    EddsaText(k, i, q, d, secret);
    var head := StringForm(Ascii(KEY_TYPES[i].identifier));
    assert head + PairForm(q, d, secret) + r == head + (PairForm(q, d, secret) + r);
    FromHead(i, PairForm(q, d, secret) + r, secret);
    EddsaRead(i, q, d, secret, r);
  }

  lemma EddsaRead(i: nat, q: seq<u8>, d: seq<u8>, secret: bool, r: seq<u8>)
    requires i < |KEY_TYPES| && KEY_TYPES[i].eddsa && |Stripped(q)| < U32 && (secret ==> |d| < U32)
    ensures var point := [0x40] + Stripped(q);
            ReadParams(i, Source(None, PairForm(q, d, secret) + r), secret) ==
            if |Stripped(q)| > MAX_MPI then Bad(TooLarge)
            else if !secret then Good(Point(i, point, None), r)
            else if |d| == 32 || |d| == 64 then Good(Point(i, point, Some(d[..32])), r)
            else Bad(BadSecKey)
  {
    hide StringForm, Stripped, ReadPoint, ReadSecret, ReadNumbers, CurveIndex, KEY_TYPES;
    var more := if secret then StringForm(d) else [];
    assert PairForm(q, d, secret) + r == StringForm(Stripped(q)) + (more + r);
    PointBack(Stripped(q), more + r);
    if secret {
      SecretBack(d, r);
    } else {
      assert [] + r == r;
    }
  }

  lemma TwoParams(k: PubKey, b: char, c: char)
    requires b in k.params && c in k.params
    ensures ParamsForm(k, [b, c]) == ParamForm(b, k.params[b]) + ParamForm(c, k.params[c])
  {
    hide ParamForm;
    assert [b, c][1..] == [c];
    OneParam(k, c);
  }

  lemma OneParam(k: PubKey, c: char)
    requires c in k.params
    ensures ParamsForm(k, [c]) == ParamForm(c, k.params[c])
  {
    assert [c][1..] == [];
    assert ParamsForm(k, []) == [];
  }
}
