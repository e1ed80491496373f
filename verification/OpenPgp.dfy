/**
 Secret key parameters in transfer to and from OpenPGP, agent/cvt-openpgp.c:
 packing them into one encrypted value and unpacking that again, and the
 checksum of the old format (sections 3.2 and 5.5.3 of RFC 4880).
 */
module OpenPgp {
  import opened Octets
  import opened Buffers
  import opened Numbers

  // ----- parameters

  /** A parameter: a number, or an opaque string of octets with a length in bits, which may be encrypted. */
  datatype Mpi = Number(n: nat) | Opaque(data: seq<u8>, nbits: nat, encrypted: bool)

  /** The PGP form of a number: its length in bits in two octets, and its octets. */
  function PgpForm(n: nat): seq<u8> {
    U16Octets(BitLength(n)) + BigEndian(n)
  }

  /** The largest length in bits that the two scanners accept. */
  function MaxBits(ecc: bool): nat {
    if ecc then 16383 else 16384
  }

  datatype Scanned = NoMpi | Scanned(mpi: Mpi, rest: seq<u8>)

  /** scan_pgp_format: numbers, but for ECC the octets as they are. */
  function ScanPgp(ecc: bool, buf: seq<u8>): Scanned {
    if |buf| < 2 then NoMpi
    else
      var nbits: nat := buf[0] as nat * 256 + buf[1] as nat;
      var nbytes := (nbits + 7) / 8;
      if nbits > MaxBits(ecc) || |buf| < nbytes + 2 then NoMpi
      else
        var data := buf[2..nbytes + 2];
        Scanned(if ecc then Opaque(data, nbits, false) else Number(FromBigEndian(data)), buf[nbytes + 2..])
  }

  /** How a number looks after it has been packed and scanned. */
  function Restored(ecc: bool, n: nat): Mpi {
    if ecc then Opaque(BigEndian(n), BitLength(n), false) else Number(n)
  }

  lemma ScanBack(ecc: bool, n: nat, r: seq<u8>)
    requires BitLength(n) < 65536
    ensures ScanPgp(ecc, PgpForm(n) + r) == if BitLength(n) <= MaxBits(ecc) then Scanned(Restored(ecc, n), r) else NoMpi
  {
    hide BitLength, BigEndian, FromBigEndian;
    var buf, nbits := PgpForm(n) + r, BitLength(n);
    OctetCount(n);
    BigEndianValue(n);
    assert buf[0] == nbits / 256 && buf[1] == nbits % 256;
    assert buf[0] as nat * 256 + buf[1] as nat == nbits;
    assert buf[2..(nbits + 7) / 8 + 2] == BigEndian(n);
    assert buf[(nbits + 7) / 8 + 2..] == r;
  }

  // ----- packing and unpacking

  function Concat(ps: seq<nat>): seq<u8> {
    if ps == [] then [] else PgpForm(ps[0]) + Concat(ps[1..])
  }

  /** The first count parameters in a buffer, and what is left of it. */
  function Unpack(ecc: bool, buf: seq<u8>, count: nat): Option<(seq<Mpi>, seq<u8>)>
    decreases count
  {
    if count == 0 then Some(([], buf))
    else
      match ScanPgp(ecc, buf)
      case NoMpi => None
      case Scanned(mpi, rest) =>
        match Unpack(ecc, rest, count - 1)
        case None => None
        case Some((more, r)) => Some(([mpi] + more, r))
  }

  function RestoredAll(ecc: bool, ps: seq<nat>): (ms: seq<Mpi>)
    ensures |ms| == |ps|
    ensures forall i :: 0 <= i < |ps| ==> ms[i] == Restored(ecc, ps[i])
  {
    seq(|ps|, i requires 0 <= i < |ps| => Restored(ecc, ps[i]))
  }

  predicate Fit(ecc: bool, ps: seq<nat>) {
    forall i :: 0 <= i < |ps| ==> BitLength(ps[i]) <= MaxBits(ecc)
  }

  /** Packed parameters are unpacked, leaving what follows them, if and only if none of them is too long. */
  lemma {:induction false} UnpackBack(ecc: bool, ps: seq<nat>, r: seq<u8>)
    requires forall i :: 0 <= i < |ps| ==> BitLength(ps[i]) < 65536
    ensures Unpack(ecc, Concat(ps) + r, |ps|) == if Fit(ecc, ps) then Some((RestoredAll(ecc, ps), r)) else None
    decreases |ps|
  {
    hide BitLength, PgpForm, ScanPgp, Restored;
    if ps == [] {
      assert Concat(ps) + r == r;
      assert RestoredAll(ecc, ps) == [];
    } else {
      var rest := ps[1..];
      assert Concat(ps) + r == PgpForm(ps[0]) + (Concat(rest) + r);
      ScanBack(ecc, ps[0], Concat(rest) + r);
      UnpackBack(ecc, rest, r);
      if BitLength(ps[0]) <= MaxBits(ecc) && Fit(ecc, rest) {
        assert RestoredAll(ecc, ps) == [Restored(ecc, ps[0])] + RestoredAll(ecc, rest);
        assert Fit(ecc, ps);
      } else if BitLength(ps[0]) <= MaxBits(ecc) {
        var i :| 0 <= i < |rest| && BitLength(rest[i]) > MaxBits(ecc);
        assert BitLength(ps[i + 1]) > MaxBits(ecc);
      }
    }
  }

  // ----- the 16 bit checksum

  function Sum16(s: seq<u8>): nat
    ensures Sum16(s) < 65536
  {
    if s == [] then 0 else (Sum16(s[..|s| - 1]) + s[|s| - 1]) % 65536
  }

  /** checksum. */
  method Checksum(s: seq<u8>) returns (a: nat)
    ensures a == Sum16(s)
  {
    a := 0;
    for i := 0 to |s|
      invariant a == Sum16(s[..i])
    {
      assert s[..i + 1][..i] == s[..i];
      a := (a + s[i]) % 65536;
    }
    assert s[..|s|] == s;
  }

  lemma SumLast(s: seq<u8>, x: u8)
    ensures Sum16(s + [x]) == (Sum16(s) + x as nat) % 65536
  {
    assert (s + [x])[..|s|] == s;
  }

  lemma {:induction false} SumConcat(s: seq<u8>, t: seq<u8>)
    ensures Sum16(s + t) == (Sum16(s) + Sum16(t)) % 65536
    decreases |t|
  {
    hide Sum16;
    if t == [] {
      assert s + t == s;
      SumNone();
      SumSmall(s);
    } else {
      var init, last := t[..|t| - 1], t[|t| - 1];
      assert t == init + [last] && s + t == (s + init) + [last];
      SumConcat(s, init);
      SumLast(init, last);
      SumLast(s + init, last);
      ModSum(Sum16(s), Sum16(init), last);
    }
  }

  lemma ModSum(a: nat, b: nat, c: nat)
    ensures ((a + b) % 65536 + c) % 65536 == (a + (b + c) % 65536) % 65536
  {
  }

  lemma {:induction false} BitsOf(n: nat, k: nat)
    requires k > 0 && Pow2(k - 1) <= n < Pow2(k)
    ensures BitLength(n) == k
  {
    if k > 1 {
      BitsOf(n / 2, k - 1);
    } else {
      assert Pow2(0) == 1;
      assert n == 1;
      assert BitLength(1) == 1 + BitLength(0);
    }
  }

  /** The nested tests of the bits of a first octet. */
  function FirstBits(b: u8): nat {
    if b >= 128 || b == 0 then 8
    else if b >= 64 then 7
    else if b >= 32 then 6
    else if b >= 16 then 5
    else if b >= 8 then 4
    else if b >= 4 then 3
    else if b >= 2 then 2
    else 1
  }

  lemma FirstBitsIs(b: u8)
    requires b > 0
    ensures FirstBits(b) == BitLength(b)
  {
    assert Pow2(2) == 4;
    assert Pow2(4) == 4 * Pow2(2);
    assert Pow2(6) == 4 * Pow2(4);
    assert Pow2(8) == 4 * Pow2(6);
    BitsOf(b, FirstBits(b));
  }

  /** The 16 bit sum that the unprotected branch of do_unprotect adds for one parameter. */
  function ParamSum(m: Mpi): nat
    requires Summable(m)
  {
    match m
    case Number(n) => Sum16(PgpForm(n))
    case Opaque(data, _, _) =>
      var nbits := 8 * (|data| - 1) + FirstBits(data[0]);
      (nbits / 256 + nbits % 256 + Sum16(data)) % 65536
  }

  /** The octets that the sum stands for: the form of a number, and all bits of a string that starts with a zero. */
  function ParamForm(m: Mpi): seq<u8>
    requires Summable(m)
  {
    match m
    case Number(n) => PgpForm(n)
    case Opaque(data, _, _) =>
      if data[0] != 0 then PgpForm(FromBigEndian(data)) else U16Octets(8 * |data|) + data
  }

  /** The form of an opaque value has the length in bits that the nested tests find. */
  lemma OpaqueForm(m: Mpi)
    requires Summable(m) && m.Opaque?
    ensures ParamForm(m) == U16Octets(8 * (|m.data| - 1) + FirstBits(m.data[0])) + m.data
  {
    hide BigEndian, FromBigEndian, BitLength;
    var data := m.data;
    if data[0] != 0 {
      OctetsBack(data);
      FirstBitsIs(data[0]);
    }
  }

  predicate Summable(m: Mpi) {
    m.Opaque? ==> m.data != [] && |m.data| < 8192
  }

  lemma ParamSumIs(m: Mpi)
    requires Summable(m)
    ensures ParamSum(m) == Sum16(ParamForm(m))
  {
    hide Sum16, FirstBits, BitLength, BigEndian, FromBigEndian, U16Octets;
    if m.Opaque? {
      hide ParamForm;
      OpaqueForm(m);
      AtMostEight(m.data[0]);
      HeadedSum(8 * (|m.data| - 1) + FirstBits(m.data[0]), m.data);
    }
  }

  lemma HeadedSum(nbits: nat, data: seq<u8>)
    requires nbits < 65536
    ensures Sum16(U16Octets(nbits) + data) == (nbits / 256 + nbits % 256 + Sum16(data)) % 65536
  {
    hide Sum16;
    SumConcat(U16Octets(nbits), data);
    SumTwo(nbits / 256, nbits % 256);
  }

  lemma AtMostEight(b: u8)
    ensures FirstBits(b) <= 8
  {
  }

  /** Two octets for a 16 bit number. */
  function U16Octets(n: nat): seq<u8> {
    [n / 256 % 256, n % 256]
  }

  lemma SumTwo(a: u8, b: u8)
    ensures Sum16([a, b]) == a as nat + b as nat
  {
    assert [a, b][..1] == [a];
    assert [a][..0] == [];
    assert Sum16([a]) == a;
  }

  lemma SumNone()
    ensures Sum16([]) == 0
  {
  }

  // ----- protection

  /** Everything that the key of the cipher is derived from. */
  datatype Setting = Setting(passphrase: bytes, algo: nat, iv: seq<u8>, s2kMode: nat, s2kAlgo: nat, salt: seq<u8>, count: nat)

  datatype Crypto = Crypto(sha1: seq<u8> -> seq<u8>, encrypt: (Setting, seq<u8>) -> seq<u8>,
                           decrypt: (Setting, seq<u8>) -> seq<u8>) {
    /** CFB mode keeps lengths, and decryption undoes encryption. */
    ghost predicate Lawful() {
      && (forall x :: |sha1(x)| == 20)
      && (forall k, x :: |encrypt(k, x)| == |x|)
      && (forall k, x :: |decrypt(k, x)| == |x|)
      && (forall k, x :: decrypt(k, encrypt(k, x)) == x)
    }
  }

  /** The laws can be met. */
  lemma LawfulExists() returns (cr: Crypto)
    ensures cr.Lawful()
  {
    cr := Crypto(x => seq(20, _ => 0), (k, x) => x, (k, x) => x);
  }

  /** What apply_protection encrypts. */
  function Packed(cr: Crypto, ps: seq<nat>): seq<u8> {
    Digested(cr, Concat(ps))
  }

  /** Octets with their digest. */
  function Digested(cr: Crypto, data: seq<u8>): seq<u8> {
    data + cr.sha1(data)
  }

  datatype Sums = Sha1 | Sum

  function U16(a: u8, b: u8): nat {
    a as nat * 256 + b as nat
  }

  /** Whether the decrypted octets carry the right checksum; the old form may have it in the encrypted octets. */
  predicate SumsUp(cr: Crypto, enc: seq<u8>, data: seq<u8>, how: Sums)
    requires |enc| == |data|
  {
    var n := |data|;
    match how
    case Sha1 => n >= 20 && cr.sha1(data[..n - 20]) == data[n - 20..]
    case Sum => n >= 2 && (U16(data[n - 2], data[n - 1]) == Sum16(data[..n - 2])
                           || U16(enc[n - 2], enc[n - 1]) == Sum16(data[..n - 2]))
  }

  /** The version 4 branch of do_unprotect: the parameters in an encrypted value. */
  function Opened(cr: Crypto, k: Setting, enc: seq<u8>, ecc: bool, how: Sums, count: nat): Option<seq<Mpi>>
    requires cr.Lawful()
  {
    var data := cr.decrypt(k, enc);
    if !SumsUp(cr, enc, data, how) then None
    else
      match Unpack(ecc, data, count)
      case None => None
      case Some((ms, _)) => Some(ms)
  }

  /**
   What apply_protection packs, do_unprotect restores, every parameter, if and
   only if no parameter is too long; exactly the digest is left over.
   */
  lemma ProtectionRoundTrip(cr: Crypto, k: Setting, ecc: bool, ps: seq<nat>)
    requires cr.Lawful() && forall i :: 0 <= i < |ps| ==> BitLength(ps[i]) < 65536
    ensures Opened(cr, k, cr.encrypt(k, Packed(cr, ps)), ecc, Sha1, |ps|) ==
            if Fit(ecc, ps) then Some(RestoredAll(ecc, ps)) else None
    ensures Fit(ecc, ps) ==> Unpack(ecc, Packed(cr, ps), |ps|) == Some((RestoredAll(ecc, ps), cr.sha1(Concat(ps))))
                             && |cr.sha1(Concat(ps))| == 20
  {
    hide Concat, BitLength, Fit, Unpack;
    var c := Concat(ps);
    var data := Packed(cr, ps);
    assert data[..|data| - 20] == c && data[|data| - 20..] == cr.sha1(c);
    UnpackBack(ecc, ps, cr.sha1(c));
  }

  lemma SumSmall(s: seq<u8>)
    ensures Sum16(s) < 65536
  {
  }

  /** The same for a value with the old 16 bit sum. */
  lemma SumRoundTrip(cr: Crypto, k: Setting, ecc: bool, ps: seq<nat>)
    requires cr.Lawful() && forall i :: 0 <= i < |ps| ==> BitLength(ps[i]) < 65536
    ensures var c := Concat(ps); var data := c + U16Octets(Sum16(c));
            Opened(cr, k, cr.encrypt(k, data), ecc, Sum, |ps|) == if Fit(ecc, ps) then Some(RestoredAll(ecc, ps)) else None
  {
    hide Concat, BitLength, Fit, Unpack, Sum16, SumsUp;
    var c := Concat(ps);
    var sum := U16Octets(Sum16(c));
    var enc := cr.encrypt(k, c + sum);
    assert cr.decrypt(k, enc) == c + sum;
    SumMatches(cr, enc, c);
    UnpackBack(ecc, ps, sum);
  }

  lemma SumMatches(cr: Crypto, enc: seq<u8>, c: seq<u8>)
    requires |enc| == |c| + 2
    ensures |U16Octets(Sum16(c))| == 2 && SumsUp(cr, enc, c + U16Octets(Sum16(c)), Sum)
  {
    hide Sum16;
    var sum := U16Octets(Sum16(c));
    var data := c + sum;
    SumSmall(c);
    assert data[..|data| - 2] == c;
    assert data[|data| - 2] == sum[0] && data[|data| - 1] == sum[1];
  }

  // ----- the parameter array

  datatype PkAlgo = Rsa | Elg | ElgE | Dsa | Ecc | Other

  /** get_npkey_nskey. */
  function ParamCounts(algo: PkAlgo): (nat, nat) {
    match algo
    case Rsa => (2, 6)
    case Elg => (3, 4)
    case ElgE => (3, 4)
    case Dsa => (4, 5)
    case Ecc => (1, 2)
    case Other => (0, 0)
  }

  datatype Error = UnusableSecKey | PubkeyAlgo | Internal | MissingValue | BufferTooShort | BadSecKey | BadPassphrase | WrongChecksum

  /** The secret parameters of an array of numbers. */
  ghost function SecretNumbers(keys: seq<Option<Mpi>>, npkey: nat, nskey: nat): (ps: seq<nat>)
    requires npkey <= nskey <= |keys|
    requires forall i :: npkey <= i < nskey ==> keys[i].Some? && keys[i].value.Number?
    ensures |ps| == nskey - npkey && forall i :: 0 <= i < |ps| ==> ps[i] == keys[npkey + i].value.n
  {
    seq(nskey - npkey, i requires 0 <= i < nskey - npkey => keys[npkey + i].value.n)
  }

  /** gcry_mpi_aprint in format USG, which may refuse a value that is no number, and gcry_mpi_get_nbits. */
  datatype Printer = Printer(octets: Mpi -> Option<seq<u8>>, bits: Mpi -> nat) {
    ghost predicate Lawful() {
      forall n :: octets(Number(n)) == Some(BigEndian(n)) && bits(Number(n)) == BitLength(n)
    }
  }

  lemma PrinterExists() returns (pr: Printer)
    ensures pr.Lawful()
  {
    pr := Printer((m: Mpi) => if m.Number? then Some(BigEndian(m.n)) else None,
                  (m: Mpi) => if m.Number? then BitLength(m.n) else m.nbits);
  }

  predicate CanPrint(pr: Printer, keys: seq<Option<Mpi>>) {
    forall i :: 0 <= i < |keys| ==> keys[i].Some? && pr.octets(keys[i].value).Some?
  }

  /** What is packed for one parameter. */
  function PrintedForm(pr: Printer, m: Mpi): seq<u8>
    requires pr.octets(m).Some?
  {
    U16Octets(pr.bits(m)) + pr.octets(m).value
  }

  function PrintedForms(pr: Printer, keys: seq<Option<Mpi>>): (forms: seq<seq<u8>>)
    requires CanPrint(pr, keys)
    ensures |forms| == |keys| && forall i :: 0 <= i < |keys| ==> forms[i] == PrintedForm(pr, keys[i].value)
  {
    seq(|keys|, i requires 0 <= i < |keys| => PrintedForm(pr, keys[i].value))
  }

  lemma {:induction false} ConcatAppend(ps: seq<nat>, n: nat)
    ensures Concat(ps + [n]) == Concat(ps) + PgpForm(n)
  {
    if ps == [] {
      assert ps + [n] == [n] && [n][1..] == [];
      assert Concat([n]) == PgpForm(n) + Concat([n][1..]);
    } else {
      assert (ps + [n])[1..] == ps[1..] + [n];
      ConcatAppend(ps[1..], n);
    }
  }

  /** For numbers this is the concatenation of their forms. */
  lemma {:induction false} FlatNumbers(forms: seq<seq<u8>>, ps: seq<nat>)
    requires |forms| == |ps| && forall i :: 0 <= i < |ps| ==> forms[i] == PgpForm(ps[i])
    ensures Flat(forms) == Concat(ps)
  {
    hide PgpForm;
    if ps != [] {
      var last := |ps| - 1;
      FlatNumbers(forms[..last], ps[..last]);
      ConcatAppend(ps[..last], ps[last]);
      assert ps == ps[..last] + [ps[last]];
    }
  }

  /** The two loops of apply_protection: the space computed by the first one is filled exactly by the second one. */
  method PackParams(cr: Crypto, forms: seq<seq<u8>>) returns (data: array<u8>)
    requires cr.Lawful()
    ensures fresh(data) && data[..] == Digested(cr, Flat(forms))
  {
    hide Flat;
    var nData := 20;
    FlatStep(forms, 0);
    for i := 0 to |forms|
      invariant nData == 20 + |Flat(forms[..i])|
    {
      FlatStep(forms, i);
      nData := nData + |forms[i]|;
    }
    assert forms[..|forms|] == forms;
    data := new u8[nData];
    var p := 0;
    for i := 0 to |forms|
      invariant p == |Flat(forms[..i])| <= |Flat(forms)| && data[..p] == Flat(forms[..i])
    {
      FlatStep(forms, i);
      PrefixFits(forms, i + 1);
      p := Put(data, p, forms[i]);
    }
    assert p == nData - 20;
    var digest := cr.sha1(data[..p]);
    p := Put(data, p, digest);
    assert data[..] == data[..p];
  }

  /** The first loop of apply_protection: the printed parameters, or the failure of one. */
  method PrintParams(pr: Printer, a: array<Option<Mpi>>, npkey: nat, nskey: nat) returns (ok: bool, forms: seq<seq<u8>>)
    requires npkey <= nskey <= a.Length && forall i :: npkey <= i < nskey ==> a[i].Some?
    ensures ok <==> CanPrint(pr, a[npkey..nskey])
    ensures ok ==> forms == PrintedForms(pr, a[npkey..nskey])
  {
    hide PrintedForm;
    ghost var keys := a[npkey..nskey];
    ok, forms := true, [];
    for i := npkey to nskey
      invariant ok && |forms| == i - npkey
      invariant forall j :: 0 <= j < |forms| ==> pr.octets(keys[j].value).Some? && forms[j] == PrintedForm(pr, keys[j].value)
    {
      assert a[i] == keys[i - npkey];
      if pr.octets(a[i].value).None? {
        return false, forms;
      }
      forms := forms + [PrintedForm(pr, a[i].value)];
    }
  }

  /** apply_protection: the secret parameters are replaced by one encrypted value, unless one cannot be printed. */
  method ApplyProtection(cr: Crypto, pr: Printer, k: Setting, a: array<Option<Mpi>>, npkey: nat, nskey: nat) returns (ok: bool)
    requires cr.Lawful() && npkey < nskey < 10 && nskey <= a.Length
    requires forall i :: npkey <= i < nskey ==> a[i].Some?
    modifies a
    ensures ok <==> CanPrint(pr, old(a[npkey..nskey]))
    ensures !ok ==> a[..] == old(a[..])
    ensures ok ==> var enc := cr.encrypt(k, Digested(cr, Flat(PrintedForms(pr, old(a[npkey..nskey])))));
            && a[npkey] == Some(Opaque(enc, 8 * |enc|, true))
            && (forall i :: npkey < i < nskey ==> a[i].None?)
            && (forall i :: 0 <= i < npkey || nskey <= i < a.Length ==> a[i] == old(a[i]))
  {
    hide Flat, PrintedForm, Digested;
    ghost var was := a[..];
    var forms;
    ok, forms := PrintParams(pr, a, npkey, nskey);
    if !ok {
      return;
    }
    var data := PackParams(cr, forms);
    var enc := cr.encrypt(k, data[..]);
    for i := npkey to nskey
      invariant forall j :: npkey <= j < i ==> a[j].None?
      invariant forall j :: 0 <= j < npkey || i <= j < a.Length ==> a[j] == was[j]
    {
      a[i] := None;
    }
    a[npkey] := Some(Opaque(enc, 8 * |enc|, true));
  }

  lemma UnpackStep(ecc: bool, buf: seq<u8>, count: nat)
    ensures count == 0 ==> Unpack(ecc, buf, count) == Some(([], buf))
    ensures count > 0 && ScanPgp(ecc, buf).NoMpi? ==> Unpack(ecc, buf, count).None?
    ensures count > 0 && ScanPgp(ecc, buf).Scanned? ==>
              var s := ScanPgp(ecc, buf); var u := Unpack(ecc, s.rest, count - 1);
              Unpack(ecc, buf, count) == if u.None? then None else Some(([s.mpi] + u.value.0, u.value.1))
  {
    hide ScanPgp;
  }

  /** The loop of do_unprotect over the decrypted octets. */
  method UnpackInto(a: array<Option<Mpi>>, npkey: nat, nskey: nat, ecc: bool, data: seq<u8>) returns (ok: bool, ghost rest: seq<u8>)
    requires npkey <= nskey < a.Length
    modifies a
    ensures ok == Unpack(ecc, data, nskey - npkey).Some?
    ensures ok ==> rest == Unpack(ecc, data, nskey - npkey).value.1
    ensures ok ==> var ms := Unpack(ecc, data, nskey - npkey).value.0;
            |ms| == nskey - npkey && a[nskey].None?
            && (forall i :: npkey <= i < nskey ==> a[i] == Some(ms[i - npkey]))
            && (forall i :: 0 <= i < npkey || nskey < i < a.Length ==> a[i] == old(a[i]))
  {
    hide ScanPgp, Unpack;
    ghost var was := a[..];
    ghost var all := Unpack(ecc, data, nskey - npkey);
    ghost var done: seq<Mpi> := [];
    var p, i := data, npkey;
    assert all.Some? ==> [] + all.value.0 == all.value.0;
    while i < nskey
      invariant npkey <= i <= nskey && |done| == i - npkey
      invariant var u := Unpack(ecc, p, nskey - i);
                if u.None? then all.None? else all == Some((done + u.value.0, u.value.1))
      invariant forall j :: npkey <= j < i ==> a[j] == Some(done[j - npkey])
      invariant forall j :: 0 <= j < npkey || i <= j < a.Length ==> a[j] == was[j]
    {
      UnpackStep(ecc, p, nskey - i);
      var s := ScanPgp(ecc, p);
      if s.NoMpi? {
        a[i] := None;
        return false, [];
      }
      ghost var u := Unpack(ecc, s.rest, nskey - i - 1);
      assert u.Some? ==> done + ([s.mpi] + u.value.0) == done + [s.mpi] + u.value.0;
      a[i] := Some(s.mpi);
      done := done + [s.mpi];
      p, i := s.rest, i + 1;
    }
    UnpackStep(ecc, p, 0);
    assert done + [] == done;
    a[i] := None;
    return true, p;
  }

  /** The array has the public parameters in the clear and something behind them, and room for the secret ones. */
  predicate Prepared(keys: seq<Option<Mpi>>, algo: PkAlgo, supported: bool, s2kMode: nat) {
    var (npkey, nskey) := ParamCounts(algo);
    && s2kMode != 1001 && supported && algo != Other && nskey + 1 < |keys|
    && (forall i :: 0 <= i <= npkey && i < |keys| ==> keys[i].Some?)
    && (forall i :: 0 <= i < npkey && i < |keys| ==> !Sealed(keys[i]))
  }

  /** The value is marked as encrypted. */
  predicate Sealed(key: Option<Mpi>) {
    key.Some? && key.value.Opaque? && key.value.encrypted
  }

  /** prepare_unprotect; whether Libgcrypt supports the algorithm is given. */
  method PrepareUnprotect(algo: PkAlgo, supported: bool, a: array<Option<Mpi>>, s2kMode: nat) returns (err: Option<Error>, npkey: nat, nskey: nat, len: nat)
    requires exists i :: 0 <= i < a.Length && a[i].None?
    modifies a
    ensures len < a.Length && a[..len] == old(a[..len]) && (forall i :: 0 <= i < len ==> a[i].Some?)
    ensures old(a[len]).None? && forall i :: len <= i < a.Length ==> a[i].None?
    ensures (npkey, nskey) == ParamCounts(algo)
    ensures err != Some(BadPassphrase) && err != Some(WrongChecksum)
    ensures s2kMode == 1001 ==> err == Some(UnusableSecKey)
    ensures s2kMode != 1001 && !supported ==> err == Some(PubkeyAlgo)
    ensures s2kMode != 1001 && supported && algo == Other ==> err == Some(Internal)
    ensures s2kMode != 1001 && supported && algo != Other && len <= npkey ==> err == Some(MissingValue)
    ensures s2kMode != 1001 && supported && algo != Other && len > npkey ==>
              if nskey + 1 >= a.Length then err == Some(BufferTooShort) else err.None? || err == Some(BadSecKey)
    ensures err.None? <==> Prepared(old(a[..]), algo, supported, s2kMode)
    ensures err.None? ==> npkey < len
  {
    ghost var was := a[..];
    len := 0;
    while a[len].Some?
      invariant len < a.Length && forall i :: 0 <= i < len ==> a[i].Some?
      decreases a.Length - len
    {
      len := len + 1;
    }
    for i := len to a.Length
      invariant a[..len] == was[..len] && (forall j :: 0 <= j < len ==> a[j].Some?)
      invariant forall j :: len <= j < i ==> a[j].None?
    {
      a[i] := None;
    }
    var counts := ParamCounts(algo);
    npkey, nskey := counts.0, counts.1;
    if s2kMode == 1001 {
      return Some(UnusableSecKey), npkey, nskey, len;
    }
    if !supported {
      return Some(PubkeyAlgo), npkey, nskey, len;
    }
    if npkey == 0 || nskey == 0 || npkey >= nskey {
      return Some(Internal), npkey, nskey, len;
    }
    if len <= npkey {
      return Some(MissingValue), npkey, nskey, len;
    }
    if nskey + 1 >= a.Length {
      return Some(BufferTooShort), npkey, nskey, len;
    }
    for i := 0 to npkey
      invariant forall j :: 0 <= j < i ==> !Sealed(was[j])
    {
      assert a[i] == a[..len][i] == was[i];
      if Sealed(a[i]) {
        return Some(BadSecKey), npkey, nskey, len;
      }
    }
    err := None;
  }

  // ----- keys that are not protected

  /** All values are there, and none is encrypted. */
  predicate Clear(keys: seq<Option<Mpi>>) {
    forall i :: 0 <= i < |keys| ==> keys[i].Some? && !Sealed(keys[i])
  }

  predicate AllSummable(keys: seq<Option<Mpi>>) {
    forall i :: 0 <= i < |keys| && keys[i].Some? ==> Summable(keys[i].value)
  }

  /** The forms of the values of an array, one behind the other. */
  function ArrayForms(keys: seq<Option<Mpi>>): seq<u8>
    requires Clear(keys) && AllSummable(keys)
  {
    if keys == [] then [] else ArrayForms(keys[..|keys| - 1]) + ParamForm(keys[|keys| - 1].value)
  }

  /** The loop over the parameters of an unprotected key adds up to the checksum of their concatenated forms. */
  method SumParams(a: array<Option<Mpi>>, npkey: nat, nskey: nat) returns (ok: bool, csum: nat)
    requires npkey <= nskey <= a.Length && AllSummable(a[npkey..nskey])
    ensures ok <==> Clear(a[npkey..nskey])
    ensures ok ==> csum == Sum16(ArrayForms(a[npkey..nskey]))
  {
    hide ParamForm, ParamSum, Sum16, Summable;
    ghost var keys := a[npkey..nskey];
    ok, csum := true, 0;
    SumNone();
    for i := npkey to nskey
      invariant ok && Clear(keys[..i - npkey]) && csum == Sum16(ArrayForms(keys[..i - npkey]))
    {
      ghost var k := i - npkey;
      assert a[i] == keys[k];
      if a[i].None? || Sealed(a[i]) {
        return false, csum;
      }
      ghost var more := keys[..k + 1];
      assert more[..k] == keys[..k] && more[k] == keys[k];
      assert Clear(more);
      var m := a[i].value;
      ParamSumIs(m);
      SumConcat(ArrayForms(keys[..k]), ParamForm(m));
      csum := (csum + ParamSum(m)) % 65536;
    }
    assert keys[..nskey - npkey] == keys;
  }

  /** The branch of do_unprotect for a key that is not protected: only the checksum is compared. */
  method CheckClear(algo: PkAlgo, supported: bool, a: array<Option<Mpi>>, s2kMode: nat, desired: nat) returns (err: Option<Error>)
    requires (exists i :: 0 <= i < a.Length && a[i].None?) && AllSummable(a[..])
    modifies a
    ensures var keys := old(a[..]); var (npkey, nskey) := ParamCounts(algo);
            if !Prepared(keys, algo, supported, s2kMode) then err.Some? && err != Some(WrongChecksum)
            else if !Clear(keys[npkey..nskey]) then err == Some(BadSecKey)
            else err == if Sum16(ArrayForms(keys[npkey..nskey])) == desired then None else Some(WrongChecksum)
  {
    hide Sum16, ArrayForms, Summable;
    ghost var keys := a[..];
    var npkey, nskey, len;
    err, npkey, nskey, len := PrepareUnprotect(algo, supported, a, s2kMode);
    if err.Some? {
      return;
    }
    SameParams(keys, a[..], len, npkey, nskey);
    var ok, csum := SumParams(a, npkey, nskey);
    if !ok {
      return Some(BadSecKey);
    }
    err := if csum != desired then Some(WrongChecksum) else None;
  }

  /** Clearing the entries behind the first empty one does not make a set of parameters complete. */
  lemma SameParams(was: seq<Option<Mpi>>, now: seq<Option<Mpi>>, len: nat, npkey: nat, nskey: nat)
    requires npkey < len < |was| == |now| && npkey <= nskey <= |was| && now[..len] == was[..len]
    requires was[len].None? && (forall i :: len <= i < |now| ==> now[i].None?) && AllSummable(was)
    ensures AllSummable(now[npkey..nskey])
    ensures Clear(now[npkey..nskey]) <==> Clear(was[npkey..nskey])
    ensures Clear(was[npkey..nskey]) ==> now[npkey..nskey] == was[npkey..nskey]
  {
    hide Summable;
    assert forall i :: 0 <= i < len ==> now[i] == now[..len][i] == was[..len][i] == was[i];
    assert forall i :: 0 <= i < nskey - npkey ==> now[npkey..nskey][i] == now[npkey + i] && was[npkey..nskey][i] == was[npkey + i];
    if len < nskey {
      assert was[npkey..nskey][len - npkey].None? && now[npkey..nskey][len - npkey].None?;
    }
  }

  /** What do_unprotect finds in an array: the secret parameters, if the checksum and the lengths are right. */
  function Unsealed(cr: Crypto, k: Setting, keys: seq<Option<Mpi>>, algo: PkAlgo, how: Sums): Option<seq<Mpi>>
    requires cr.Lawful() && ParamCounts(algo).0 < |keys| && Sealed(keys[ParamCounts(algo).0])
  {
    var (npkey, nskey) := ParamCounts(algo);
    Opened(cr, k, keys[npkey].value.data, algo == Ecc, how, if npkey < nskey then nskey - npkey else 0)
  }

  /** The secret parameters are in the array behind the public ones, and nothing follows them. */
  predicate Filled(keys: seq<Option<Mpi>>, was: seq<Option<Mpi>>, npkey: nat, ms: seq<Mpi>) {
    && npkey + |ms| < |keys| && npkey <= |was| && keys[..npkey] == was[..npkey]
    && (forall i :: 0 <= i < |ms| ==> keys[npkey + i] == Some(ms[i]))
    && keys[npkey + |ms|].None?
  }

  /** The version 4 branch of do_unprotect, up to the conversion of the key. */
  method DoUnprotect(cr: Crypto, k: Setting, algo: PkAlgo, supported: bool, a: array<Option<Mpi>>, how: Sums, s2kMode: nat)
    returns (err: Option<Error>, len: nat, ghost rest: seq<u8>)
    requires cr.Lawful() && exists i :: 0 <= i < a.Length && a[i].None?
    modifies a
    ensures var keys, npkey := old(a[..]), ParamCounts(algo).0;
            if Prepared(keys, algo, supported, s2kMode) && Sealed(keys[npkey])
            then err == (if Unsealed(cr, k, keys, algo, how).Some? then None else Some(BadPassphrase))
            else err.Some? && err != Some(BadPassphrase)
    ensures err.None? ==> var keys, npkey := old(a[..]), ParamCounts(algo).0;
            var ms := Unsealed(cr, k, keys, algo, how).value;
            && len == npkey + |ms| == ParamCounts(algo).1 && Filled(a[..], keys, npkey, ms)
            && Unpack(algo == Ecc, cr.decrypt(k, keys[npkey].value.data), |ms|) == Some((ms, rest))
  {
    hide Unpack, SumsUp, Filled;
    rest := [];
    ghost var was := a[..];
    var npkey, nskey;
    err, npkey, nskey, len := PrepareUnprotect(algo, supported, a, s2kMode);
    if err.Some? {
      return;
    }
    assert a[npkey] == a[..len][npkey] == was[..len][npkey] == was[npkey];
    if !Sealed(a[npkey]) {
      return Some(BadSecKey), len, rest;
    }
    var enc := a[npkey].value.data;
    var data := cr.decrypt(k, enc);
    if !SumsUp(cr, enc, data, how) {
      return Some(BadPassphrase), len, rest;
    }
    assert a[..npkey] == a[..len][..npkey] == was[..npkey];
    ghost var now := a[..];
    var ok;
    ok, rest := UnpackInto(a, npkey, nskey, algo == Ecc, data);
    if !ok {
      return Some(BadPassphrase), len, rest;
    }
    len := nskey;
    err := None;
    FilledIn(a[..], now, was, npkey, Unpack(algo == Ecc, data, nskey - npkey).value.0);
  }

  lemma FilledIn(keys: seq<Option<Mpi>>, now: seq<Option<Mpi>>, was: seq<Option<Mpi>>, npkey: nat, ms: seq<Mpi>)
    requires npkey + |ms| < |keys| == |now| == |was| && now[..npkey] == was[..npkey]
    requires forall i :: 0 <= i < npkey ==> keys[i] == now[i]
    requires forall i :: npkey <= i < npkey + |ms| ==> keys[i] == Some(ms[i - npkey])
    requires keys[npkey + |ms|].None?
    ensures Filled(keys, was, npkey, ms)
  {
    assert keys[..npkey] == now[..npkey];
  }

  /**
   Protecting the secret parameters of a key and unprotecting them again gives
   the same array, with exactly the digest left over, if and only if no
   parameter is too long for the scanner.
   */
  method ProtectUnprotect(cr: Crypto, pr: Printer, k: Setting, algo: PkAlgo, a: array<Option<Mpi>>, s2kMode: nat)
    returns (err: Option<Error>, len: nat, ghost rest: seq<u8>)
    requires cr.Lawful() && pr.Lawful() && s2kMode != 1001 && algo != Other
    requires ParamCounts(algo).1 + 1 < a.Length && a[ParamCounts(algo).1].None?
    requires forall i :: 0 <= i < ParamCounts(algo).0 ==> a[i].Some? && !Sealed(a[i])
    requires forall i :: ParamCounts(algo).0 <= i < ParamCounts(algo).1 ==>
               a[i].Some? && a[i].value.Number? && BitLength(a[i].value.n) < 65536
    modifies a
    ensures var (npkey, nskey) := ParamCounts(algo);
            var ps := SecretNumbers(old(a[..]), npkey, nskey);
            if Fit(algo == Ecc, ps)
            then err.None? && len == nskey && |rest| == 20 && Filled(a[..], old(a[..]), npkey, RestoredAll(algo == Ecc, ps))
            else err == Some(BadPassphrase)
  {
    hide Unpack, SumsUp, Filled, BitLength, BigEndian, Fit, Opened, Flat, Concat, U16Octets;
    var (npkey, nskey) := ParamCounts(algo);
    ghost var was := a[..];
    ghost var ps := SecretNumbers(was, npkey, nskey);
    assert was[npkey..nskey] == a[npkey..nskey];
    NumbersPrint(pr, was, npkey, nskey);
    var ok := ApplyProtection(cr, pr, k, a, npkey, nskey);
    ghost var mid := a[..];
    assert a[nskey].None?;
    ProtectionRoundTrip(cr, k, algo == Ecc, ps);
    err, len, rest := DoUnprotect(cr, k, algo, true, a, Sha1, s2kMode);
    if err.None? {
      assert mid[..npkey] == was[..npkey];
      SameFront(a[..], mid, was, npkey, RestoredAll(algo == Ecc, ps));
    }
  }

  /** Numbers can be printed, and are packed in their forms. */
  lemma NumbersPrint(pr: Printer, keys: seq<Option<Mpi>>, npkey: nat, nskey: nat)
    requires pr.Lawful() && npkey <= nskey <= |keys|
    requires forall i :: npkey <= i < nskey ==> keys[i].Some? && keys[i].value.Number?
    ensures CanPrint(pr, keys[npkey..nskey])
    ensures Flat(PrintedForms(pr, keys[npkey..nskey])) == Concat(SecretNumbers(keys, npkey, nskey))
  {
    hide Flat, Concat, BigEndian, BitLength, U16Octets;
    var ps, part := SecretNumbers(keys, npkey, nskey), keys[npkey..nskey];
    forall i | 0 <= i < |part|
      ensures part[i].Some? && part[i].value == Number(ps[i])
    {
      assert part[i] == keys[npkey + i];
    }
    FlatNumbers(PrintedForms(pr, part), ps);
  }

  lemma SameFront(keys: seq<Option<Mpi>>, mid: seq<Option<Mpi>>, was: seq<Option<Mpi>>, npkey: nat, ms: seq<Mpi>)
    requires Filled(keys, mid, npkey, ms) && npkey <= |was| && mid[..npkey] == was[..npkey]
    ensures Filled(keys, was, npkey, ms)
  {
  }
}
