/**
 Hexadecimal digits.
 */
module Hex {
  import opened Octets

  predicate IsHex(c: octet) {
    '0' <= c <= '9' || 'A' <= c <= 'F' || 'a' <= c <= 'f'
  }

  predicate AllHex(s: bytes) {
    forall i :: 0 <= i < |s| ==> IsHex(s[i])
  }

  /** The macro xtoi_1 of common/util.h on a signed char; a number from 0 to 15 for a digit. */
  function HexValue(c: octet): (v: int)
    ensures IsHex(c) ==> 0 <= v < 16
  {
    var code := if c as int >= 128 then c as int - 256 else c as int;
    if code <= '9' as int then code - '0' as int
    else if code <= 'F' as int then code - 'A' as int + 10
    else code - 'a' as int + 10
  }

  function HexDigit(v: nat): octet
    requires v < 16
  {
    if v < 10 then ('0' as int + v) as char else ('A' as int + v - 10) as char
  }

  function Upper(c: octet): octet {
    if 'a' <= c <= 'f' then (c as int - 32) as char else c
  }

  function Uppers(s: bytes): bytes {
    if s == [] then [] else [Upper(s[0])] + Uppers(s[1..])
  }

  lemma {:induction false} UppersAt(s: bytes, i: nat)
    requires i < |s|
    ensures |Uppers(s)| == |s| && Uppers(s)[i] == Upper(s[i])
  {
    if |s| > 1 {
      UppersAt(s[1..], if i == 0 then 0 else i - 1);
    }
  }

  lemma NoUppers()
    ensures Uppers([]) == []
  {
  }

  lemma {:induction false} UppersAppend(s: bytes, c: octet)
    ensures Uppers(s + [c]) == Uppers(s) + [Upper(c)]
  {
    if s == [] {
      assert s + [c] == [c] && [c][1..] == [];
    } else {
      assert (s + [c])[1..] == s[1..] + [c];
      UppersAppend(s[1..], c);
    }
  }
}
