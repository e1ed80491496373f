/**
 Numbers as strings of octets.
 */
module Numbers {

  type u8 = x: nat | x < 256

  // ----- numbers as octets

  function BitLength(n: nat): nat {
    if n == 0 then 0 else 1 + BitLength(n / 2)
  }

  /** The octets of a number, most significant first, without leading zeros. */
  function BigEndian(n: nat): seq<u8> {
    if n == 0 then [] else BigEndian(n / 256) + [n % 256]
  }

  function FromBigEndian(s: seq<u8>): nat {
    if s == [] then 0 else 256 * FromBigEndian(s[..|s| - 1]) + s[|s| - 1]
  }

  lemma {:induction false} BigEndianValue(n: nat)
    ensures FromBigEndian(BigEndian(n)) == n
  {
    if n > 0 {
      BigEndianValue(n / 256);
      assert BigEndian(n)[..|BigEndian(n)| - 1] == BigEndian(n / 256);
    }
  }

  /** A number has as many octets as its bits need. */
  lemma {:induction false} OctetCount(n: nat)
    ensures |BigEndian(n)| == (BitLength(n) + 7) / 8
  {
    if n >= 256 {
      OctetCount(n / 256);
      Shift8(n);
    } else if n > 0 {
      assert n / 256 == 0;
      SmallBits(n);
    }
  }

  lemma Shift8(n: nat)
    requires n >= 256
    ensures BitLength(n) == 8 + BitLength(n / 256)
  {
    assert n / 2 / 2 / 2 / 2 / 2 / 2 / 2 / 2 == n / 256;
    var a := n / 2; var b := a / 2; var c := b / 2; var d := c / 2; var e := d / 2; var f := e / 2; var g := f / 2;
    assert BitLength(n) == 1 + BitLength(a) && BitLength(a) == 1 + BitLength(b) && BitLength(b) == 1 + BitLength(c);
    assert BitLength(c) == 1 + BitLength(d) && BitLength(d) == 1 + BitLength(e) && BitLength(e) == 1 + BitLength(f);
    assert BitLength(f) == 1 + BitLength(g) && BitLength(g) == 1 + BitLength(g / 2);
  }

  lemma SmallBits(n: nat)
    requires 0 < n < 256
    ensures 1 <= BitLength(n) <= 8
  {
    var a := n / 2; var b := a / 2; var c := b / 2; var d := c / 2; var e := d / 2; var f := e / 2; var g := f / 2;
    assert g / 2 == 0;
    assert BitLength(g) <= 1;
    assert BitLength(f) <= 2;
    assert BitLength(e) <= 3;
    assert BitLength(d) <= 4;
    assert BitLength(c) <= 5;
    assert BitLength(b) <= 6;
    assert BitLength(a) <= 7;
  }

  // ----- powers of two

  function Pow2(n: nat): nat {
    if n == 0 then 1 else 2 * Pow2(n - 1)
  }

  // ----- octets as numbers

  lemma {:induction false} Positive(data: seq<u8>)
    requires data != [] && data[0] != 0
    ensures FromBigEndian(data) > 0
  {
    if |data| > 1 {
      Positive(data[..|data| - 1]);
    } else {
      assert FromBigEndian(data[..0]) == 0;
    }
  }

  /** A string of octets that does not start with a zero is the form of its number. */
  lemma {:induction false} OctetsBack(data: seq<u8>)
    requires data != [] && data[0] != 0
    ensures BigEndian(FromBigEndian(data)) == data
    ensures BitLength(FromBigEndian(data)) == 8 * (|data| - 1) + BitLength(data[0])
  {
    var init, last := data[..|data| - 1], data[|data| - 1];
    var n := FromBigEndian(data);
    assert n / 256 == FromBigEndian(init) && n % 256 == last;
    assert data == init + [last];
    Positive(data);
    if |data| > 1 {
      OctetsBack(init);
      Positive(init);
      Shift8(n);
    } else {
      assert init == [] && FromBigEndian(init) == 0 && n == data[0];
      assert BigEndian(0) == [];
    }
  }
}
