/**
 Which encrypted parameters of an OpenPGP key are accepted: only those whose
 digest or sum is right, for as many parameters as the key has.
 */
module OpenPgpChecks {
  import opened Octets
  import opened Numbers
  import opened OpenPgp
  import ProtectedKeys

  /** Packed parameters with any twenty octets behind them open exactly if these are their digest. */
  lemma DigestDecides(cr: Crypto, k: Setting, ecc: bool, ps: seq<nat>, digest: seq<u8>)
    requires cr.Lawful() && |digest| == 20 && forall i :: 0 <= i < |ps| ==> BitLength(ps[i]) < 65536
    ensures Opened(cr, k, cr.encrypt(k, Concat(ps) + digest), ecc, Sha1, |ps|) ==
            if digest == cr.sha1(Concat(ps)) && Fit(ecc, ps) then Some(RestoredAll(ecc, ps)) else None
  {
    hide Concat, BitLength, Fit, Unpack, Sum16;
    var c := Concat(ps);
    var data := c + digest;
    assert data[..|data| - 20] == c && data[|data| - 20..] == digest;
    UnpackBack(ecc, ps, digest);
  }

  /**
   With any two octets behind them they open exactly if the sum of their octets
   is in these two, or in the last two of the encrypted ones, as old keys have it.
   */
  lemma SumDecides(cr: Crypto, k: Setting, ecc: bool, ps: seq<nat>, a: u8, b: u8)
    requires cr.Lawful() && forall i :: 0 <= i < |ps| ==> BitLength(ps[i]) < 65536
    ensures var c := Concat(ps); var enc := cr.encrypt(k, c + [a, b]); var n := |c|;
            && |enc| == n + 2
            && Opened(cr, k, enc, ecc, Sum, |ps|) ==
               if (Total(c) % 65536 == 256 * a as nat + b as nat || Total(c) % 65536 == 256 * enc[n] as nat + enc[n + 1] as nat)
                  && Fit(ecc, ps)
               then Some(RestoredAll(ecc, ps)) else None
  {
    hide Concat, BitLength, Fit, Unpack, Sum16, Total;
    var c := Concat(ps);
    var enc := cr.encrypt(k, c + [a, b]);
    var data := c + [a, b];
    assert cr.decrypt(k, enc) == data;
    assert data[..|c|] == c && data[|c|] == a && data[|c| + 1] == b;
    UnpackBack(ecc, ps, [a, b]);
    SumIsTotal(c);
  }

  /** The sum of the octets. */
  function Total(s: seq<u8>): nat {
    if s == [] then 0 else Total(s[..|s| - 1]) + s[|s| - 1]
  }

  lemma {:induction false} SumIsTotal(s: seq<u8>)
    ensures Sum16(s) == Total(s) % 65536
  {
    if s != [] {
      SumIsTotal(s[..|s| - 1]);
      ModAdd(Total(s[..|s| - 1]), s[|s| - 1]);
    }
  }

  lemma ModAdd(a: nat, b: nat)
    ensures (a % 65536 + b) % 65536 == (a + b) % 65536
  {
  }

  /** Examples of section 3.2 of RFC 4880. */
  lemma FormExamples()
    ensures PgpForm(1) == [0, 1, 1] && PgpForm(511) == [0, 9, 1, 255]
  {
    BitsOf(1, 1);
    assert Pow2(3) == 8 && Pow2(8) == 256 by { PowersOfTwo(); }
    assert Pow2(9) == 512;
    BitsOf(511, 9);
    assert BigEndian(511 / 256) == BigEndian(0) + [1];
    assert BigEndian(1) == BigEndian(0) + [1];
  }

  lemma PowersOfTwo()
    ensures Pow2(3) == 8 && Pow2(8) == 256 && Pow2(0) == 1 && Pow2(1) == 2
  {
    assert Pow2(3) == 8;
    assert Pow2(6) == 8 * Pow2(3);
    assert Pow2(8) == 4 * Pow2(6);
  }

  /** The length in bits comes first, then the octets, of which the first is not zero; longer numbers than these are not read back. */
  lemma FormIs(ecc: bool, n: nat, r: seq<u8>)
    requires BitLength(n) < 65536
    ensures var s := PgpForm(n);
            && |s| == 2 + (BitLength(n) + 7) / 8 && s[0] as nat * 256 + s[1] as nat == BitLength(n)
            && FromBigEndian(s[2..]) == n
            && (ScanPgp(ecc, s + r).Scanned? <==> BitLength(n) <= if ecc then 16383 else 16384)
  {
    hide BitLength, BigEndian, FromBigEndian;
    OctetCount(n);
    BigEndianValue(n);
    ScanBack(ecc, n, r);
    assert PgpForm(n)[2..] == BigEndian(n);
  }

  /** The numbers of parameters are those of the keys that agent_protect knows; the curve of an ECC key is none of them. */
  lemma CountsOfKeys(algo: bytes, public: seq<bytes>, secret: seq<bytes>)
    requires ProtectedKeys.Splits(algo, public, secret)
    ensures algo == "rsa" ==> ParamCounts(Rsa) == (|public|, |public| + |secret|)
    ensures algo == "dsa" ==> ParamCounts(Dsa) == (|public|, |public| + |secret|)
    ensures algo == "elg" ==> ParamCounts(Elg) == ParamCounts(ElgE) == (|public|, |public| + |secret|)
    ensures algo == "ecc" && public[0] == "curve" ==>
              var c := if public[1] == "flags" then 2 else 1;
              ParamCounts(Ecc) == (|public| - c, |public| - c + |secret|)
  {
    assert |"rsa"| == 3 && "rsa"[0] == 'r' && "dsa"[0] == 'd' && "elg"[1] == 'l' && "ecc"[1] == 'c';
    assert |"ecdsa"| == 5 && |"ecdh"| == 4 && |"q"| == 1 && |"flags"| == 5 && |"curve"| == 5 && |"p"| == 1;
  }
}
