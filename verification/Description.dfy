/**
 agent_modify_description of agent/findkey.c: a template is expanded in two
 passes, one that counts and one that writes.
 */
module Description {
  import opened Octets
  import opened Buffers

  // ----- the fingerprint

  /** The outcomes of the calls for the fingerprint, in order; without a key there are none but failures. */
  type Calls = nat -> Option<bytes>

  /** The fingerprint that is known after n places have asked for it: the first success is kept. */
  function Known(ask: Calls, n: nat): Option<bytes> {
    if n == 0 then None else if Known(ask, n - 1).Some? then Known(ask, n - 1) else ask(n - 1)
  }

  function Size(f: Option<bytes>): nat {
    if f.Some? then |f.value| else 0
  }

  lemma {:induction false} KnownStays(ask: Calls, m: nat, n: nat)
    requires m <= n
    ensures Known(ask, m).Some? ==> Known(ask, n) == Known(ask, m)
    ensures Size(Known(ask, m)) <= Size(Known(ask, n))
  {
    if m < n {
      KnownStays(ask, m, n - 1);
    }
  }

  // ----- the expansion

  /** What a percent sign and the character behind it stand for. */
  function Special(c: octet, comment: bytes, fingerprint: Option<bytes>): bytes {
    if c == '%' then "%"
    else if c == 'c' then comment
    else if c == 'C' then if comment == [] then [] else "(" + comment + ")"
    else if c == 'F' then if fingerprint.Some? then fingerprint.value else []
    else ['%', c]
  }

  /** How many places of a template ask for the fingerprint. */
  function Places(s: bytes): nat {
    if |s| < 2 then 0
    else if s[0] != '%' then Places(s[1..])
    else (if s[1] == 'F' then 1 else 0) + Places(s[2..])
  }

  /**
   The expansion of a template when n places have asked before; a percent sign
   at its end stands for nothing.
   */
  function Expand(s: bytes, comment: bytes, ask: Calls, n: nat): bytes {
    if s == [] then []
    else if s[0] != '%' then [s[0]] + Expand(s[1..], comment, ask, n)
    else if |s| == 1 then []
    else
      var next := if s[1] == 'F' then n + 1 else n;
      Special(s[1], comment, Known(ask, next)) + Expand(s[2..], comment, ask, next)
  }

  /** What is left to expand when a percent sign has just been read, or not. */
  function Pending(s: bytes, special: bool): bytes {
    if special then "%" + s else s
  }

  lemma ExpandStep(s: bytes, special: bool, comment: bytes, ask: Calls, n: nat)
    requires s != []
    ensures var e := Expand(Pending(s, special), comment, ask, n); var next := if s[0] == 'F' then n + 1 else n;
            e == if special then Special(s[0], comment, Known(ask, next)) + Expand(s[1..], comment, ask, next)
                 else if s[0] == '%' then Expand(Pending(s[1..], true), comment, ask, n)
                 else [s[0]] + Expand(s[1..], comment, ask, n)
  {
    hide Special, Known;
    if special {
      assert ("%" + s)[2..] == s[1..];
    } else if s[0] == '%' {
      assert "%" + s[1..] == s;
    }
  }

  lemma PlacesStep(s: bytes, special: bool)
    requires s != []
    ensures Places(Pending(s, special)) ==
            if special then (if s[0] == 'F' then 1 else 0) + Places(s[1..])
            else Places(Pending(s[1..], s[0] == '%'))
  {
    if special {
      assert ("%" + s)[2..] == s[1..];
    } else if s[0] == '%' {
      assert "%" + s[1..] == s;
    }
  }

  lemma ExpandEnd(special: bool, comment: bytes, ask: Calls, n: nat)
    ensures Expand(Pending([], special), comment, ask, n) == [] && Places(Pending([], special)) == 0
  {
  }

  lemma RestAt(s: bytes, i: nat, special: bool, comment: bytes, ask: Calls, n: nat)
    requires i < |s|
    ensures var e := Expand(Pending(s[i..], special), comment, ask, n); var next := if s[i] == 'F' then n + 1 else n;
            e == if special then Special(s[i], comment, Known(ask, next)) + Expand(Pending(s[i + 1..], false), comment, ask, next)
                 else if s[i] == '%' then Expand(Pending(s[i + 1..], true), comment, ask, n)
                 else [s[i]] + Expand(Pending(s[i + 1..], false), comment, ask, n)
    ensures Places(Pending(s[i..], special)) ==
            if special then (if s[i] == 'F' then 1 else 0) + Places(Pending(s[i + 1..], false))
            else Places(Pending(s[i + 1..], s[i] == '%'))
  {
    hide Special, Expand, Known, Places;
    ExpandStep(s[i..], special, comment, ask, n);
    PlacesStep(s[i..], special);
    assert s[i..][1..] == s[i + 1..];
  }

  lemma WholePending(s: bytes)
    ensures Pending(s[0..], false) == s
  {
    assert s[0..] == s;
  }

  // ----- the two passes

  /** The variable ssh_fpr and the number of places that have asked for it. */
  datatype Fingerprint = Fingerprint(value: Option<bytes>, asked: nat)

  /** A place that asks: there is a call if nothing is known yet. */
  method Ask(ask: Calls, f: Fingerprint) returns (g: Fingerprint)
    requires f.value == Known(ask, f.asked)
    ensures g == Fingerprint(Known(ask, f.asked + 1), f.asked + 1)
  {
    g := Fingerprint(if f.value.None? then ask(f.asked) else f.value, f.asked + 1);
  }

  /** The first pass. */
  method CountLength(s: bytes, comment: bytes, ask: Calls) returns (n: nat, f: Fingerprint)
    ensures n == |Expand(s, comment, ask, 0)|
    ensures f == Fingerprint(Known(ask, Places(s)), Places(s))
  {
    hide Expand, Special, Known, Places, Pending;
    var special, i := false, 0;
    n, f := 0, Fingerprint(None, 0);
    WholePending(s);
    NothingKnown(ask);
    while i < |s|
      invariant i <= |s| && f.value == Known(ask, f.asked)
      invariant n + |Expand(Pending(s[i..], special), comment, ask, f.asked)| == |Expand(s, comment, ask, 0)|
      invariant f.asked + Places(Pending(s[i..], special)) == Places(s)
    {
      RestAt(s, i, special, comment, ask, f.asked);
      if special {
        special := false;
        if s[i] == 'F' {
          f := Ask(ask, f);
        }
        var m := SpecialLength(s[i], comment, f.value);
        n := n + m;
      } else if s[i] == '%' {
        special := true;
      } else {
        n := n + 1;
      }
      i := i + 1;
    }
    assert s[i..] == [];
    ExpandEnd(special, comment, ask, f.asked);
  }

  lemma NothingKnown(ask: Calls)
    ensures Known(ask, 0) == None
  {
  }

  /** The counting branches of the switch. */
  method SpecialLength(c: octet, comment: bytes, fingerprint: Option<bytes>) returns (m: nat)
    ensures m == |Special(c, comment, fingerprint)|
  {
    if c == '%' {
      m := 1;
    } else if c == 'c' {
      m := |comment|;
    } else if c == 'C' {
      m := if |comment| == 0 then 0 else |comment| + 2;
    } else if c == 'F' {
      m := if fingerprint.Some? then |fingerprint.value| else 0;
    } else {
      m := 2;
    }
  }

  method PutInParentheses(out: array<octet>, at: nat, comment: bytes) returns (next: nat)
    requires at + |comment| + 2 <= out.Length
    modifies out
    ensures next == at + |comment| + 2 && out[..next] == old(out[..at]) + ("(" + comment + ")")
  {
    next := Put(out, at, "(");
    next := Put(out, next, comment);
    next := Put(out, next, ")");
  }

  /** The writing branches of the switch. */
  method WriteSpecial(out: array<octet>, at: nat, c: octet, comment: bytes, fingerprint: Option<bytes>) returns (next: nat)
    requires at + |Special(c, comment, fingerprint)| <= out.Length
    modifies out
    ensures next == at + |Special(c, comment, fingerprint)|
    ensures out[..next] == old(out[..at]) + Special(c, comment, fingerprint)
  {
    next := at;
    if c == '%' {
      next := Put(out, next, "%");
    } else if c == 'c' {
      next := Put(out, next, comment);
    } else if c == 'C' {
      if |comment| != 0 {
        next := PutInParentheses(out, next, comment);
      }
    } else if c == 'F' {
      if fingerprint.Some? {
        next := Put(out, next, fingerprint.value);
      }
    } else {
      next := Put(out, next, ['%', c]);
    }
  }

  /** One character of the second pass, given what is left to write before and after it. */
  lemma WriteStep(out: bytes, out': bytes, x: bytes, rest: bytes, all: bytes)
    requires out + (x + rest) == all && out' == out + x
    ensures out' + rest == all && |out'| <= |all|
  {
  }

  /** The second pass; the model stops before it would write behind the counted length. */
  method WriteExpansion(s: bytes, comment: bytes, ask: Calls, f: Fingerprint, out: array<octet>) returns (ok: bool, p: nat)
    requires f.value == Known(ask, f.asked) && out.Length > 0
    modifies out
    ensures p < out.Length
    ensures ok <==> |Expand(s, comment, ask, f.asked)| < out.Length
    ensures ok ==> p == |Expand(s, comment, ask, f.asked)| && out[..p] == Expand(s, comment, ask, f.asked)
  {
    hide Expand, Special, Pending, Known, Places;
    var special, i, g := false, 0, f;
    ok, p := true, 0;
    ghost var all := Expand(s, comment, ask, f.asked);
    WholePending(s);
    assert [] + all == all;
    while i < |s|
      invariant i <= |s| && p < out.Length && g.value == Known(ask, g.asked)
      invariant out[..p] + Expand(Pending(s[i..], special), comment, ask, g.asked) == all
    {
      RestAt(s, i, special, comment, ask, g.asked);
      if !special && s[i] == '%' {
        special := true;
      } else {
        if special && s[i] == 'F' {
          g := Ask(ask, g);
        }
        ghost var x := if special then Special(s[i], comment, g.value) else [s[i]];
        ghost var was, rest := out[..p], Expand(Pending(s[i + 1..], false), comment, ask, g.asked);
        var size := 1;
        if special {
          size := SpecialLength(s[i], comment, g.value);
        }
        assert was + (x + rest) == all && size == |x|;
        if p + size >= out.Length {
          return false, p;
        }
        if special {
          p := WriteSpecial(out, p, s[i], comment, g.value);
        } else {
          p := Put(out, p, [s[i]]);
        }
        WriteStep(was, out[..p], x, rest, all);
        special := false;
      }
      i := i + 1;
    }
    assert s[i..] == [];
    ExpandEnd(special, comment, ask, g.asked);
    assert out[..p] + [] == out[..p];
  }

  // ----- when the passes agree

  /** Behind m and behind n places, the fingerprints known at the next places have the same sizes. */
  predicate SameSizes(ask: Calls, m: nat, n: nat, places: nat)
    decreases places
  {
    places == 0 || (Size(Known(ask, m + 1)) == Size(Known(ask, n + 1)) && SameSizes(ask, m + 1, n + 1, places - 1))
  }

  /** The difference between the two passes is that of the fingerprints known at each place. */
  lemma {:induction false} PassLengths(s: bytes, comment: bytes, ask: Calls, m: nat, n: nat)
    requires m <= n
    ensures |Expand(s, comment, ask, m)| <= |Expand(s, comment, ask, n)|
    ensures |Expand(s, comment, ask, m)| == |Expand(s, comment, ask, n)| <==> SameSizes(ask, m, n, Places(s))
  {
    hide Known, Size;
    if s == [] {
    } else if s[0] != '%' {
      PassLengths(s[1..], comment, ask, m, n);
    } else if |s| > 1 {
      PassLengths(s[2..], comment, ask, if s[1] == 'F' then m + 1 else m, if s[1] == 'F' then n + 1 else n);
      if s[1] == 'F' {
        KnownStays(ask, m + 1, n + 1);
        SpecialSize(s[1], comment, Known(ask, m + 1));
        SpecialSize(s[1], comment, Known(ask, n + 1));
      }
    }
  }

  lemma SpecialSize(c: octet, comment: bytes, f: Option<bytes>)
    requires c == 'F'
    ensures |Special(c, comment, f)| == Size(f)
  {
  }

  /** Sizes grow from place to place, so that the outer ones decide. */
  lemma {:induction false} OuterSizes(ask: Calls, m: nat, n: nat, places: nat)
    requires m <= n && places > 0
    ensures SameSizes(ask, m, n, places) ==>
              Size(Known(ask, m + 1)) == Size(Known(ask, n + 1)) && Size(Known(ask, m + places)) == Size(Known(ask, n + places))
    ensures Size(Known(ask, m + 1)) == Size(Known(ask, n + places)) ==> SameSizes(ask, m, n, places)
    decreases places
  {
    hide Known, Size;
    KnownStays(ask, m + 1, n + 1);
    KnownStays(ask, n + 1, n + places);
    if places > 1 {
      OuterSizes(ask, m + 1, n + 1, places - 1);
      KnownStays(ask, m + 1, m + 2);
      KnownStays(ask, m + 2, n + places);
    } else {
      assert SameSizes(ask, m + 1, n + 1, 0);
    }
  }

  /** The first call for a fingerprint gives as much as the last one: it succeeds, or all fail or give nothing. */
  predicate SettledAtOnce(s: bytes, ask: Calls) {
    Places(s) == 0 || Size(Known(ask, 1)) == Size(Known(ask, 2 * Places(s)))
  }

  /** The second pass writes as many octets as the first one counted if and only if the first call settles the fingerprint. */
  lemma PassesAgree(s: bytes, comment: bytes, ask: Calls)
    ensures |Expand(s, comment, ask, 0)| <= |Expand(s, comment, ask, Places(s))|
    ensures |Expand(s, comment, ask, 0)| == |Expand(s, comment, ask, Places(s))| <==> SettledAtOnce(s, ask)
  {
    hide Known, Size, Expand, Places;
    var m := Places(s);
    PassLengths(s, comment, ask, 0, m);
    if m > 0 {
      OuterSizes(ask, 0, m, m);
      KnownStays(ask, 1, m);
      KnownStays(ask, m, m + 1);
      KnownStays(ask, m + 1, 2 * m);
    }
  }

  /** A first call that fails before one that succeeds: the second pass writes more than the first one counted. */
  lemma LateFingerprint(fingerprint: bytes)
    requires fingerprint != []
    ensures var ask: Calls := n => if n == 0 then None else Some(fingerprint);
            |Expand("%F", [], ask, 0)| == 0 && |Expand("%F", [], ask, Places("%F"))| == |fingerprint|
  {
    var ask: Calls := n => if n == 0 then None else Some(fingerprint);
    assert "%F"[2..] == [];
    assert Known(ask, 0) == None && Known(ask, 1) == None && Known(ask, 2) == Some(fingerprint);
    assert Places("%F") == 1;
  }

  // ----- empty parentheses

  function StripEnd(t: bytes): bytes {
    if |t| > 1 && IsBlank(t[|t| - 1]) then StripEnd(t[..|t| - 1]) else t
  }

  /** Empty parentheses at the end are dropped together with the blanks before them. */
  function Trimmed(t: bytes): bytes {
    if |t| > 2 && t[|t| - 2..] == "()" then StripEnd(t[..|t| - 2]) else t
  }

  /** The buffer holds this C string. */
  predicate HoldsString(buf: bytes, t: bytes) {
    |t| < |buf| && buf[..|t|] == t && buf[|t|] == '\0'
  }

  /** The in-place trim at the end of agent_modify_description. */
  method TrimInPlace(out: array<octet>, n: nat)
    requires n < out.Length && HoldsString(out[..], out[..n])
    modifies out
    ensures HoldsString(out[..], Trimmed(old(out[..n])))
  {
    ghost var t := out[..n];
    if n > 2 && out[n - 2] == '(' && out[n - 1] == ')' {
      assert t[n - 2..] == "()";
      var p := n - 2;
      out[p] := '\0';
      assert out[..p] == t[..n - 2];
      while p > 1 && IsBlank(out[p - 1])
        invariant 0 < p <= n - 2 && out[p] == '\0' && out[..p] == t[..p]
        invariant StripEnd(t[..p]) == StripEnd(t[..n - 2])
      {
        assert t[..p][..p - 1] == t[..p - 1];
        assert out[p - 1] == out[..p][p - 1] == t[..p][p - 1];
        out[p - 1] := '\0';
        p := p - 1;
      }
      assert p > 1 ==> out[p - 1] == out[..p][p - 1];
      assert StripEnd(t[..p]) == t[..p];
    } else if n > 2 {
      assert t[n - 2..] == [t[n - 2], t[n - 1]];
    }
  }

  datatype Outcome = Overrun | Done(out: array<octet>)

  /**
   agent_modify_description: the trimmed text in a buffer of exactly the size
   of the expansion, or the passes do not agree.
   */
  method ModifyDescription(s: bytes, comment: bytes, ask: Calls) returns (r: Outcome)
    ensures r.Done? <==> SettledAtOnce(s, ask)
    ensures r.Done? ==>
              && fresh(r.out) && r.out.Length == |Expand(s, comment, ask, 0)| + 1
              && HoldsString(r.out[..], Trimmed(Expand(s, comment, ask, Places(s))))
  {
    hide Expand, Trimmed, Known, Places, Size, SettledAtOnce;
    PassesAgree(s, comment, ask);
    var n, f := CountLength(s, comment, ask);
    var out := new octet[n + 1];
    var ok, p := WriteExpansion(s, comment, ask, f, out);
    if !ok {
      return Overrun;
    }
    out[p] := '\0';
    assert out[..p] == Expand(s, comment, ask, f.asked);
    TrimInPlace(out, p);
    return Done(out);
  }

  // ----- what the expansion means

  /** A template without percent signs stands for itself. */
  lemma {:induction false} ExpandPlain(s: bytes, comment: bytes, ask: Calls, n: nat)
    requires '%' !in s
    ensures Expand(s, comment, ask, n) == s
  {
    if s != [] {
      ExpandPlain(s[1..], comment, ask, n);
    }
  }

  /** Doubling every percent sign. */
  function Quoted(s: bytes): bytes {
    if s == [] then [] else (if s[0] == '%' then "%%" else [s[0]]) + Quoted(s[1..])
  }

  lemma ExpandQuoted(c: octet, r: bytes, comment: bytes, ask: Calls, n: nat)
    ensures Expand((if c == '%' then "%%" else [c]) + r, comment, ask, n) == [c] + Expand(r, comment, ask, n)
  {
    var s := (if c == '%' then "%%" else [c]) + r;
    if c == '%' {
      assert s[2..] == r;
    } else {
      assert s[1..] == r;
    }
  }

  /** Any text can be put into a template: the expansion of the quoted text, and what follows it, is the text. */
  lemma {:induction false} QuotedExpands(s: bytes, r: bytes, comment: bytes, ask: Calls, n: nat)
    ensures Expand(Quoted(s) + r, comment, ask, n) == s + Expand(r, comment, ask, n)
  {
    hide Expand;
    if s == [] {
      assert Quoted(s) + r == r;
    } else {
      var rest := Quoted(s[1..]) + r;
      QuotedExpands(s[1..], r, comment, ask, n);
      ExpandQuoted(s[0], rest, comment, ask, n);
      assert Quoted(s) + r == (if s[0] == '%' then "%%" else [s[0]]) + rest;
      assert [s[0]] + (s[1..] + Expand(r, comment, ask, n)) == s + Expand(r, comment, ask, n);
    }
  }
}
