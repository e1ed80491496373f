/**
 Octet strings and decimal numbers.

 An octet is represented by the character with that code, so that the textual
 constants of the program can be written as string literals.  Nothing below
 depends on codes being smaller than 256.
 */
module Octets {

  type octet = char
  type bytes = seq<octet>

  datatype Option<+T> = None | Some(value: T)

  /** The octet under a C cursor; a string behaves as if followed by a NUL. */
  function Head(s: bytes): octet {
    if s == [] then '\0' else s[0]
  }

  predicate IsDigit(c: octet) {
    '0' <= c <= '9'
  }

  predicate AllDigits(s: bytes) {
    forall i :: 0 <= i < |s| ==> IsDigit(s[i])
  }

  function DigitValue(c: octet): nat
    requires IsDigit(c)
  {
    c as int - '0' as int
  }

  function DigitChar(v: nat): (c: octet)
    requires v < 10
    ensures IsDigit(c) && DigitValue(c) == v
  {
    ('0' as int + v) as char
  }

  /** The number denoted by a string of decimal digits, most significant digit first. */
  function Value(ds: bytes): nat
    requires AllDigits(ds)
  {
    if ds == [] then 0 else 10 * Value(ds[..|ds| - 1]) + DigitValue(ds[|ds| - 1])
  }

  /** The canonical decimal form of a number, as printed by "%d" and "%lu". */
  function Dec(n: nat): (ds: bytes)
    ensures ds != [] && AllDigits(ds)
  {
    if n < 10 then [DigitChar(n)] else Dec(n / 10) + [DigitChar(n % 10)]
  }

  lemma {:induction false} ValueOfDec(n: nat)
    ensures Value(Dec(n)) == n
    ensures n > 0 ==> Dec(n)[0] != '0'
  {
    if n < 10 {
      assert Dec(n)[..0] == [];
    } else {
      ValueOfDec(n / 10);
      assert Dec(n)[..|Dec(n)| - 1] == Dec(n / 10);
    }
  }

  lemma {:induction false} ValuePositive(ds: bytes)
    requires AllDigits(ds) && ds != [] && ds[0] != '0'
    ensures Value(ds) > 0
  {
    if |ds| == 1 {
      assert ds[..0] == [];
      assert Value(ds) == 10 * Value(ds[..0]) + DigitValue(ds[0]);
    } else {
      ValuePositive(ds[..|ds| - 1]);
    }
  }

  /** A number has one decimal form that does not start with a zero. */
  lemma {:induction false} DecUnique(ds: bytes)
    requires AllDigits(ds) && ds != [] && ds[0] != '0'
    ensures ds == Dec(Value(ds))
  {
    var init, last := ds[..|ds| - 1], ds[|ds| - 1];
    assert ds == init + [last];
    if |ds| == 1 {
      assert init == [];
      assert Value(ds) == DigitValue(last);
    } else {
      DecUnique(init);
      ValuePositive(init);
      assert Value(ds) == 10 * Value(init) + DigitValue(last);
    }
  }

  lemma ValueOne(c: octet)
    requires IsDigit(c)
    ensures AllDigits([c]) && Value([c]) == DigitValue(c)
  {
    assert [c][..0] == [];
    assert Value([c][..0]) == 0;
  }

  lemma ValueTwo(c: octet, d: octet)
    requires IsDigit(c) && IsDigit(d)
    ensures AllDigits([c, d]) && Value([c, d]) == 10 * DigitValue(c) + DigitValue(d)
  {
    ValueOne(c);
    assert [c, d][..1] == [c];
  }

  /** The number of leading digits. */
  function DigitCount(s: bytes): (k: nat)
    ensures k <= |s| && AllDigits(s[..k])
    ensures forall i :: 0 <= i < k ==> IsDigit(s[i])
    ensures k < |s| ==> !IsDigit(s[k])
  {
    if s == [] || !IsDigit(s[0]) then 0 else
      var k := 1 + DigitCount(s[1..]);
      assert forall i :: 0 <= i < k ==> s[..k][i] == if i == 0 then s[0] else s[1..][i - 1];
      k
  }

  lemma DigitCountAppend(ds: bytes, r: bytes)
    requires AllDigits(ds) && (r == [] || !IsDigit(r[0]))
    ensures DigitCount(ds + r) == |ds|
  {
    if ds == [] {
      assert ds + r == r;
    } else {
      assert (ds + r)[1..] == ds[1..] + r;
      DigitCountAppend(ds[1..], r);
    }
  }

  predicate IsSpace(c: octet) {
    c == ' ' || '\t' <= c <= '\r'
  }

  predicate IsBlank(c: octet) {
    c == ' ' || c == '\t'
  }

  function SkipBlanks(s: bytes): (t: bytes)
    ensures |t| <= |s| && (s != [] && IsBlank(s[0]) ==> |t| < |s|)
  {
    if s == [] || !IsBlank(s[0]) then s else SkipBlanks(s[1..])
  }

  /** The rest of the string from the first character that is not blank. */
  lemma {:induction false} BlanksSkipped(s: bytes)
    ensures SkipBlanks(s) == s[|s| - |SkipBlanks(s)|..]
    ensures SkipBlanks(s) != [] ==> !IsBlank(SkipBlanks(s)[0])
  {
    if s != [] && IsBlank(s[0]) {
      BlanksSkipped(s[1..]);
    }
  }

  method SkipBlanksAt(cmd: bytes, pos: nat) returns (next: nat)
    requires pos <= |cmd|
    ensures pos <= next <= |cmd| && SkipBlanks(cmd[pos..]) == cmd[next..]
  {
    next := pos;
    while next < |cmd| && IsBlank(cmd[next])
      invariant pos <= next <= |cmd| && SkipBlanks(cmd[next..]) == SkipBlanks(cmd[pos..])
    {
      next := next + 1;
    }
  }
}
