/**
 What the lines of an sshcontrol file mean, put together from their parts: blanks,
 a mark that disables the entry, a keygrip, a lifetime and flags.
 */
module SshControlLines {
  import opened Octets
  import opened Hex
  import opened SshControl

  predicate Blanks(s: bytes) {
    forall i :: 0 <= i < |s| ==> s[i] == ' ' || s[i] == '\t'
  }

  lemma {:induction false} BlanksOver(b: bytes, s: bytes)
    requires Blanks(b) && (s == [] || (s[0] != ' ' && s[0] != '\t'))
    ensures SkipBlanks(b + s) == s
  {
    if b == [] {
      assert b + s == s;
    } else {
      assert (b + s)[0] == b[0] && (b + s)[1..] == b[1..] + s;
      BlanksOver(b[1..], s);
    }
  }

  // ----- flags

  /** A flag of a line: the blanks before it, its name, and whether an equals sign follows. */
  datatype Word = Word(blanks: bytes, name: bytes, valued: bool)

  function WordText(w: Word): bytes {
    w.blanks + (w.name + if w.valued then "=" else "")
  }

  function WordsText(ws: seq<Word>): bytes {
    if ws == [] then [] else WordText(ws[0]) + WordsText(ws[1..])
  }

  /** Names without blanks and equals signs; blanks may be missing behind an equals sign only. */
  predicate WellFormed(ws: seq<Word>, glued: bool) {
    ws == [] ||
    (var w := ws[0];
     && Blanks(w.blanks) && (w.blanks == [] ==> glued) && (w.name == [] ==> w.valued)
     && (forall i :: 0 <= i < |w.name| ==> w.name[i] != '=' && w.name[i] != ' ' && w.name[i] != '\t')
     && WellFormed(ws[1..], w.valued))
  }

  lemma {:induction false} NameLength(name: bytes, r: bytes)
    requires forall i :: 0 <= i < |name| ==> name[i] != '=' && name[i] != ' ' && name[i] != '\t'
    requires r == [] || r[0] == '=' || r[0] == ' ' || r[0] == '\t'
    ensures FlagLength(name + r) == |name|
  {
    if name == [] {
      assert name + r == r;
    } else {
      assert (name + r)[1..] == name[1..] + r;
      NameLength(name[1..], r);
    }
  }

  lemma WordRead(ws: seq<Word>, glued: bool)
    requires ws != [] && WellFormed(ws, glued)
    ensures NextFlag(WordsText(ws)) == Flag(ws[0].name, ws[0].valued, WordsText(ws[1..]))
  {
    hide SkipBlanks, FlagLength, NextFlag;
    var w, rest := ws[0], WordsText(ws[1..]);
    if !w.valued { RestStarts(ws[1..], false); }
    var r := (if w.valued then "=" else "") + rest;
    var t := w.name + r;
    assert WordsText(ws) == w.blanks + t;
    BlanksOver(w.blanks, t);
    NameLength(w.name, r);
    FlagFrom(WordsText(ws), t, |w.name|);
    NameCut(w, rest);
  }

  lemma NameCut(w: Word, rest: bytes)
    requires w.valued || rest == [] || rest[0] != '='
    ensures var r := (if w.valued then "=" else "") + rest; var t := w.name + r; var n := |w.name|;
            && t[..n] == w.name
            && if w.valued then n < |t| && t[n] == '=' && t[n + 1..] == rest else t[n..] == rest && (n < |t| ==> t[n] != '=')
  {
  }

  lemma RestStarts(ws: seq<Word>, glued: bool)
    requires WellFormed(ws, glued) && !glued
    ensures WordsText(ws) == [] || WordsText(ws)[0] == ' ' || WordsText(ws)[0] == '\t'
  {
  }

  /** The entry asks for confirmation exactly if one of its flags is "confirm" without an equals sign behind it. */
  lemma {:induction false} ConfirmsIff(ws: seq<Word>, glued: bool)
    requires WellFormed(ws, glued)
    ensures Confirms(WordsText(ws)) <==> exists i :: 0 <= i < |ws| && ws[i].name == "confirm" && !ws[i].valued
  {
    hide NextFlag, WordText;
    ConfirmsStep(WordsText(ws));
    if ws == [] {
      NoFlags(WordsText(ws));
    } else {
      WordRead(ws, glued);
      ConfirmsIff(ws[1..], ws[0].valued);
      if i :| 0 <= i < |ws[1..]| && ws[1..][i].name == "confirm" && !ws[1..][i].valued {
        assert ws[i + 1] == ws[1..][i];
      }
      if i :| 0 < i < |ws| && ws[i].name == "confirm" && !ws[i].valued {
        assert ws[i] == ws[1..][i - 1];
      }
    }
  }

  // ----- lines

  /** A keygrip, in letters of either case. */
  predicate Grip(s: bytes) {
    |s| == 40 && forall i :: 0 <= i < 40 ==> '0' <= s[i] <= '9' || 'A' <= s[i] <= 'F' || 'a' <= s[i] <= 'f'
  }

  /** The same keygrip in upper case. */
  predicate SameInUpperCase(s: bytes, t: bytes) {
    |t| == |s| && forall i :: 0 <= i < |s| ==> t[i] as int == if s[i] >= 'a' then s[i] as int - 32 else s[i] as int
  }

  lemma UppersIs(s: bytes)
    requires Grip(s)
    ensures AllHex(s) && SameInUpperCase(s, Uppers(s))
  {
    hide Uppers;
    UppersAt(s, 0);
    forall i | 0 <= i < |s|
      ensures |Uppers(s)| == |s| && Uppers(s)[i] as int == if s[i] >= 'a' then s[i] as int - 32 else s[i] as int
    {
      UppersAt(s, i);
    }
  }

  /** The front of a line: blanks, and a mark with blanks behind it if the entry is disabled. */
  function Front(before: bytes, disabled: bool, after: bytes): bytes {
    before + if disabled then "!" + after else ""
  }

  lemma FrontRead(before: bytes, disabled: bool, after: bytes, s: bytes)
    requires Blanks(before) && Blanks(after) && s != [] && s[0] != ' ' && s[0] != '	' && s[0] != '!'
    ensures var text := Front(before, disabled, after) + s; var p := SkipBlanks(text);
            && p != [] && (p[0] == if disabled then '!' else s[0]) && KeyPart(text) == s
  {
    hide SkipBlanks;
    var text := Front(before, disabled, after) + s;
    if disabled {
      assert text == before + ("!" + (after + s));
      BlanksOver(before, "!" + (after + s));
      assert ("!" + (after + s))[1..] == after + s;
      BlanksOver(after, s);
    } else {
      assert text == before + s;
      BlanksOver(before, s);
    }
  }

  /**
   An entry put together from its parts is read as what they say: disabled
   exactly if it is marked, the keygrip in upper case, the lifetime, and
   confirmation exactly if the flag for it is there.
   */
  lemma LineRead(before: bytes, disabled: bool, after: bytes, digits: bytes, ttl: int, ws: seq<Word>)
    requires Blanks(before) && Blanks(after) && Grip(digits) && -0x8000_0000 <= ttl < 0x8000_0000 && WellFormed(ws, false)
    ensures var line := ParseLine(Front(before, disabled, after) + (digits + (" " + SignedDec(ttl) + WordsText(ws))));
            && line.Entry? && line.item.disabled == disabled && SameInUpperCase(digits, line.item.grip) && line.item.ttl == ttl
            && (line.item.confirm <==> exists i :: 0 <= i < |ws| && ws[i].name == "confirm" && !ws[i].valued)
  {
    hide SkipBlanks, StrToL, Uppers, ToInt, Confirms, WordsText, SignedDec, Front, WellFormed, KeyPart;
    var field := " " + SignedDec(ttl) + WordsText(ws);
    var s := digits + field;
    UppersIs(digits);
    assert s[0] == digits[0];
    FrontRead(before, disabled, after, s);
    assert s[..40] == digits && s[40..] == field;
    assert field[0] == ' ';
    RestStarts(ws, false);
    NumberBack(ttl, WordsText(ws));
    ConfirmsIff(ws, false);
  }

  /** Blank lines and lines whose first sign is a hash mark say nothing. */
  lemma CommentRead(before: bytes, note: bytes)
    requires Blanks(before)
    ensures ParseLine(before) == Comment && ParseLine(before + ("#" + note)) == Comment
  {
    hide SkipBlanks, KeyPart;
    BlanksOver(before, []);
    assert before + [] == before;
    BlanksOver(before, "#" + note);
  }

  /** A keygrip that is too short, too long, or no number makes the line an error. */
  lemma BadGrip(before: bytes, disabled: bool, after: bytes, word: bytes, rest: bytes)
    requires Blanks(before) && Blanks(after) && word != [] && !Grip(word) && word[0] != '!' && word[0] != '#'
    requires forall i :: 0 <= i < |word| ==> word[i] != ' ' && word[i] != '	'
    requires rest == [] || rest[0] == ' ' || rest[0] == '	'
    ensures ParseLine(Front(before, disabled, after) + (word + rest)) == BadData
  {
    hide SkipBlanks, StrToL, Uppers, ToInt, Confirms, Front, KeyPart;
    var q := word + rest;
    assert q[0] == word[0];
    FrontRead(before, disabled, after, q);
    NoGrip(word, rest);
  }

  lemma NoGrip(word: bytes, rest: bytes)
    requires !Grip(word) && forall i :: 0 <= i < |word| ==> word[i] != ' ' && word[i] != '\t'
    requires rest == [] || rest[0] == ' ' || rest[0] == '\t'
    ensures var q := word + rest; |q| < 40 || !AllHex(q[..40]) || (|q| > 40 && !IsBlank(q[40]))
  {
    var q := word + rest;
    if |q| >= 40 && |word| < 40 {
      assert !IsHex(q[..40][|word|]);
    } else if |word| > 40 {
      assert q[40] == word[40];
    } else if |word| == 40 {
      assert q[..40] == word;
    }
  }

  /** A line of at most 253 characters is read; a longer one is an error. */
  lemma LineLimit(text: bytes, r: bytes)
    requires '\n' !in text
    ensures NextLine(text + "\n" + r) == if |text| <= 253 then Line(text, r) else Overlong
  {
    hide NewlineAt;
    NewlineAppend(text, r);
    var s := text + "\n" + r;
    assert s[..|text|] == text && s[|text| + 1..] == r;
  }
}
