/**
 What agent_modify_description puts in the place of each percent sign of a
 template, and what it removes from the end.
 */
module DescriptionPieces {
  import opened Octets
  import opened Description

  /** The pieces that a template is made of. */
  datatype Piece = Letter(c: octet) | Percent | Comment | CommentInParentheses | Fingerprint | Unknown(c: octet)

  predicate Proper(p: Piece) {
    match p
    case Letter(c) => c != '%'
    case Unknown(c) => c != '%' && c != 'c' && c != 'C' && c != 'F'
    case _ => true
  }

  predicate AllProper(ps: seq<Piece>) {
    forall i :: 0 <= i < |ps| ==> Proper(ps[i])
  }

  function Spelled(p: Piece): bytes {
    match p
    case Letter(c) => [c]
    case Percent => "%%"
    case Comment => "%c"
    case CommentInParentheses => "%C"
    case Fingerprint => "%F"
    case Unknown(c) => "%" + [c]
  }

  function Template(ps: seq<Piece>): bytes {
    if ps == [] then [] else Spelled(ps[0]) + Template(ps[1..])
  }

  /** What a piece stands for: an unknown one for itself, an empty comment for nothing. */
  function Meaning(p: Piece, comment: bytes, fingerprint: Option<bytes>): bytes {
    match p
    case Letter(c) => [c]
    case Percent => "%"
    case Comment => comment
    case CommentInParentheses => if comment == [] then [] else "(" + comment + ")"
    case Fingerprint => if fingerprint.Some? then fingerprint.value else []
    case Unknown(c) => "%" + [c]
  }

  function Meanings(ps: seq<Piece>, comment: bytes, fingerprint: Option<bytes>): bytes {
    if ps == [] then [] else Meaning(ps[0], comment, fingerprint) + Meanings(ps[1..], comment, fingerprint)
  }

  /** All calls for the fingerprint give the same. */
  ghost predicate Steady(ask: Calls, fingerprint: Option<bytes>) {
    forall n :: ask(n) == fingerprint
  }

  lemma {:induction false} SteadyKnown(ask: Calls, fingerprint: Option<bytes>, n: nat)
    requires Steady(ask, fingerprint)
    ensures Known(ask, n + 1) == fingerprint
  {
    if n > 0 {
      SteadyKnown(ask, fingerprint, n - 1);
    } else {
      assert Known(ask, 0) == None;
    }
  }

  /** The expansion is made of what the pieces stand for; a percent sign at the end stands for nothing. */
  lemma {:induction false} ExpandIsMeaning(ps: seq<Piece>, dangling: bool, comment: bytes, ask: Calls, fingerprint: Option<bytes>, n: nat)
    requires AllProper(ps) && Steady(ask, fingerprint)
    ensures Expand(Template(ps) + (if dangling then "%" else ""), comment, ask, n) == Meanings(ps, comment, fingerprint)
  {
    hide Known, Meaning, Spelled, Proper, Expand, Steady;
    var end := if dangling then "%" else "";
    if ps == [] {
      assert Template(ps) + end == end;
      NothingLeft(dangling, comment, ask, n);
    } else {
      var p, rest := ps[0], Template(ps[1..]) + end;
      var next := if p.Fingerprint? then n + 1 else n;
      assert Template(ps) + end == Spelled(p) + rest;
      assert Proper(p);
      ExpandIsMeaning(ps[1..], dangling, comment, ask, fingerprint, next);
      SteadyKnown(ask, fingerprint, n);
      OnePiece(p, rest, comment, ask, n);
    }
  }

  lemma NothingLeft(dangling: bool, comment: bytes, ask: Calls, n: nat)
    ensures Expand(if dangling then "%" else "", comment, ask, n) == []
  {
  }

  lemma OnePiece(p: Piece, rest: bytes, comment: bytes, ask: Calls, n: nat)
    requires Proper(p)
    ensures Expand(Spelled(p) + rest, comment, ask, n) ==
            Meaning(p, comment, Known(ask, n + 1)) + Expand(rest, comment, ask, if p.Fingerprint? then n + 1 else n)
  {
    hide Known;
    var s := Spelled(p) + rest;
    if p.Letter? {
      assert s[0] == p.c && s[1..] == rest;
    } else {
      assert s[0] == '%' && s[1] == Spelled(p)[1] && s[2..] == rest;
    }
  }

  /** Every template is made of pieces. */
  lemma {:induction false} EveryTemplate(s: bytes) returns (ps: seq<Piece>, dangling: bool)
    ensures AllProper(ps) && s == Template(ps) + (if dangling then "%" else "")
  {
    if s == [] {
      ps, dangling := [], false;
    } else if s == "%" {
      ps, dangling := [], true;
      assert Template([]) + "%" == "%";
    } else {
      var p :=
        if s[0] != '%' then Letter(s[0])
        else if s[1] == '%' then Percent
        else if s[1] == 'c' then Comment
        else if s[1] == 'C' then CommentInParentheses
        else if s[1] == 'F' then Piece.Fingerprint
        else Unknown(s[1]);
      var rest := s[|Spelled(p)|..];
      var more;
      more, dangling := EveryTemplate(rest);
      ps := [p] + more;
      assert ps[1..] == more;
      assert s == Spelled(p) + rest;
    }
  }

  // ----- the end of the text

  /** Empty parentheses at the end are removed with the blanks before them, all but the first character of the text. */
  lemma TrimmedIs(body: bytes, blanks: bytes)
    requires body != [] && forall i :: 0 <= i < |blanks| ==> blanks[i] == ' ' || blanks[i] == '\t'
    requires |body| > 1 ==> body[|body| - 1] != ' ' && body[|body| - 1] != '\t'
    ensures Trimmed(body + blanks + "()") == body
  {
    hide StripEnd;
    var t := body + blanks + "()";
    assert t[|t| - 2..] == "()" && t[..|t| - 2] == body + blanks;
    BlanksStripped(body, blanks);
  }

  lemma {:induction false} BlanksStripped(body: bytes, blanks: bytes)
    requires body != [] && forall i :: 0 <= i < |blanks| ==> blanks[i] == ' ' || blanks[i] == '\t'
    requires |body| > 1 ==> body[|body| - 1] != ' ' && body[|body| - 1] != '\t'
    ensures StripEnd(body + blanks) == body
    decreases |blanks|
  {
    var t := body + blanks;
    if blanks == [] {
      assert t == body;
    } else {
      var init := blanks[..|blanks| - 1];
      assert t[..|t| - 1] == body + init && t[|t| - 1] == blanks[|blanks| - 1];
      BlanksStripped(body, init);
    }
  }

  /** Any other text stays as it is, also one that is nothing but empty parentheses. */
  lemma NotTrimmed(t: bytes)
    requires |t| <= 2 || t[|t| - 2] != '(' || t[|t| - 1] != ')'
    ensures Trimmed(t) == t
  {
    if |t| > 2 {
      assert t[|t| - 2..] == [t[|t| - 2], t[|t| - 1]];
    }
  }
}
