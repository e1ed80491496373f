/**
 The sshcontrol file of agent/command-ssh.c: a text file that is searched from
 its start and only ever appended to.
 */
module SshControl {
  import opened Octets
  import opened Hex

  // ----- lines

  const LINE_SIZE := 256

  datatype Line = EndOfFile | Overlong | Line(text: bytes, rest: bytes)

  /** The position of the first newline, or the length. */
  function NewlineAt(s: bytes): (i: nat)
    ensures i <= |s| && (i < |s| ==> s[i] == '\n')
    ensures forall j :: 0 <= j < i ==> s[j] != '\n'
  {
    if s == [] || s[0] == '\n' then 0
    else
      var i := 1 + NewlineAt(s[1..]);
      assert forall j :: 1 <= j < i ==> s[j] == s[1..][j - 1];
      i
  }

  /** fgets: a line with its newline fits two octets less than the buffer. */
  function NextLine(s: bytes): Line {
    if s == [] then EndOfFile
    else
      var i := NewlineAt(s);
      if i == |s| || i + 1 > LINE_SIZE - 2 then Overlong else Line(s[..i], s[i + 1..])
  }

  // ----- entries

  datatype Item = Item(disabled: bool, grip: bytes, ttl: int, confirm: bool)

  datatype Parsed = Comment | BadData | Entry(item: Item)

  const LONG_MAX: int := 0x7FFF_FFFF_FFFF_FFFF

  datatype Signed = NoNumber | Signed(value: int, rest: bytes)

  /** An optional sign and digits, saturating. */
  function SignedNumber(t: bytes): Signed {
    var neg := t != [] && t[0] == '-';
    var ds := if t != [] && (t[0] == '-' || t[0] == '+') then t[1..] else t;
    var k := DigitCount(ds);
    if k == 0 then NoNumber
    else
      var v: int := Value(ds[..k]);
      Signed(if neg then (if v > LONG_MAX + 1 then -LONG_MAX - 1 else -v) else if v > LONG_MAX then LONG_MAX else v, ds[k..])
  }

  /** strtol: the number and what follows it; nothing is used if there is no number. */
  function StrToL(s: bytes): (int, bytes) {
    match SignedNumber(SkipSpaces(s))
    case NoNumber => (0, s)
    case Signed(v, r) => (v, r)
  }

  function SkipSpaces(s: bytes): bytes {
    if s == [] || !IsSpace(s[0]) then s else SkipSpaces(s[1..])
  }

  /** The conversion of a long to an int. */
  function ToInt(v: int): int {
    (v + 0x8000_0000) % 0x1_0000_0000 - 0x8000_0000
  }

  /** The length of a flag name. */
  function FlagLength(s: bytes): (n: nat)
    ensures n <= |s|
  {
    if s == [] || s[0] == '=' || IsBlank(s[0]) then 0 else 1 + FlagLength(s[1..])
  }

  datatype Flag = NoFlag | Flag(name: bytes, valued: bool, rest: bytes)

  /** The next flag of the form NAME or NAME=; a value is read as the next flag. */
  function NextFlag(s: bytes): (f: Flag)
    ensures f.Flag? ==> |f.rest| < |s|
  {
    var t := SkipBlanks(s);
    if t == [] then NoFlag
    else
      var n := FlagLength(t);
      if n < |t| && t[n] == '=' then Flag(t[..n], true, t[n + 1..]) else Flag(t[..n], false, t[n..])
  }

  /** Whether the flags contain "confirm"; flags with values and unknown flags are ignored. */
  function Confirms(s: bytes): bool
    decreases |s|
  {
    match NextFlag(s)
    case NoFlag => false
    case Flag(name, valued, rest) => (!valued && name == "confirm") || Confirms(rest)
  }

  /** The line from the keygrip on. */
  function KeyPart(text: bytes): bytes {
    var p := SkipBlanks(text);
    if p != [] && p[0] == '!' then SkipBlanks(p[1..]) else p
  }

  /** One line of the file. */
  function ParseLine(text: bytes): Parsed {
    var p, q := SkipBlanks(text), KeyPart(text);
    if p == [] || p[0] == '#' then Comment
    else if |q| < 40 || !AllHex(q[..40]) || (|q| > 40 && !IsBlank(q[40])) then BadData
    else
      var (ttl, r) := StrToL(q[40..]);
      Entry(Item(p[0] == '!', Uppers(q[..40]), ToInt(ttl), Confirms(r)))
  }

  // ----- what the log says about the TTL

  /** A number, or none, that ends the field, and that is not below -1. */
  predicate ValidTtl(field: bytes) {
    var (ttl, r) := StrToL(field);
    (r == [] || IsBlank(r[0])) && ToInt(ttl) >= -1
  }

  /** The TTL that the log message announces: 0 for an invalid one. */
  function AnnouncedTtl(field: bytes): int {
    if ValidTtl(field) then ToInt(StrToL(field).0) else 0
  }

  /** The stored TTL is the announced one if and only if the field is valid or the number in it is 0 as an int. */
  lemma TtlAsAnnounced(text: bytes)
    requires ParseLine(text).Entry?
    ensures var field := KeyPart(text)[40..];
            ParseLine(text).item.ttl == AnnouncedTtl(field) <==> ValidTtl(field) || ToInt(StrToL(field).0) == 0
  {
    hide StrToL, ToInt, Uppers, Confirms, SkipBlanks;
  }

  /** Lines with a bad TTL: something other than a blank behind the number, or a number below -1. */
  lemma BadTtlStored(grip: bytes, ttl: int, r: bytes)
    requires ValidGrip(grip) && IsInt(ttl) && (r == [] || !IsDigit(r[0]))
    requires ttl < -1 || (ttl != 0 && r != [] && !IsBlank(r[0]))
    ensures var field := " " + SignedDec(ttl) + r; var line := ParseLine(grip + field);
            line.Entry? && line.item.grip == grip && line.item.ttl == ttl != AnnouncedTtl(field) == 0
  {
    hide StrToL, Confirms, SignedDec, ToInt, Uppers;
    NumberBack(ttl, r);
    EntryLine(grip, " " + SignedDec(ttl) + r);
  }

  /** The log says 0, and 5 is stored. */
  lemma FiveStored(grip: bytes)
    requires ValidGrip(grip)
    ensures var line := ParseLine(grip + " 5x");
            line.Entry? && line.item.ttl == 5 && AnnouncedTtl(" 5x") == 0
  {
    hide ParseLine, AnnouncedTtl;
    assert SignedDec(5) == "5" && " " + "5" + "x" == " 5x";
    BadTtlStored(grip, 5, "x");
  }

  /** A line that starts with a keygrip. */
  lemma EntryLine(grip: bytes, field: bytes)
    requires ValidGrip(grip) && (field == [] || IsBlank(field[0]))
    ensures KeyPart(grip + field) == grip + field && (grip + field)[40..] == field
    ensures ParseLine(grip + field) == Entry(Item(false, grip, ToInt(StrToL(field).0), Confirms(StrToL(field).1)))
  {
    hide StrToL, Confirms, ToInt, Uppers;
    var text := grip + field;
    assert IsHex(grip[0]);
    assert text[0] == grip[0];
    assert SkipBlanks(text) == text;
    assert text[..40] == grip && text[40..] == field;
  }

  // ----- searching

  datatype Answer = Found(item: Item) | Missing | Broken

  /** search_control_file. */
  function Search(s: bytes, grip: bytes): Answer
    decreases |s|
  {
    match NextLine(s)
    case EndOfFile => Missing
    case Overlong => Broken
    case Line(text, rest) =>
      match ParseLine(text)
      case Comment => Search(rest, grip)
      case BadData => Broken
      case Entry(item) => if item.grip == grip then Found(item) else Search(rest, grip)
  }

  // ----- adding

  function SignedDec(t: int): bytes {
    if t < 0 then "-" + Dec(-t) else Dec(t)
  }

  /** The entry that is appended, behind its comment lines. */
  function EntryText(grip: bytes, ttl: int, confirm: bool): bytes {
    grip + " " + SignedDec(ttl) + (if confirm then " confirm" else "")
  }

  function NotesText(notes: seq<bytes>): bytes {
    if notes == [] then [] else "#" + notes[0] + "\n" + NotesText(notes[1..])
  }

  /** add_control_entry: nothing is done unless the end of the file is reached without finding the key. */
  function Add(file: bytes, notes: seq<bytes>, grip: bytes, ttl: int, confirm: bool): bytes {
    if Search(file, grip) != Missing then file
    else file + NotesText(notes) + EntryText(grip, ttl, confirm) + "\n"
  }

  predicate ValidNotes(notes: seq<bytes>) {
    forall i :: 0 <= i < |notes| ==> '\n' !in notes[i] && |notes[i]| + 2 <= LINE_SIZE - 2
  }

  /** A keygrip as the agent writes it: forty hex digits in upper case. */
  predicate ValidGrip(grip: bytes) {
    |grip| == 40 && AllHex(grip) && Uppers(grip) == grip
  }

  predicate IsInt(t: int) {
    -0x8000_0000 <= t < 0x8000_0000
  }

  lemma {:induction false} NewlineAppend(x: bytes, r: bytes)
    requires '\n' !in x
    ensures NewlineAt(x + "\n" + r) == |x|
  {
    if x == [] {
      assert x + "\n" + r == "\n" + r;
    } else {
      assert (x + "\n" + r)[1..] == x[1..] + "\n" + r;
      NewlineAppend(x[1..], r);
    }
  }

  lemma LineBack(x: bytes, r: bytes)
    requires '\n' !in x && |x| + 1 <= LINE_SIZE - 2
    ensures NextLine(x + "\n" + r) == Line(x, r)
  {
    NewlineAppend(x, r);
    var s := x + "\n" + r;
    assert s[..|x|] == x && s[|x| + 1..] == r;
  }

  /** Lines that can be read are read whatever follows. */
  lemma LineLocal(s: bytes, r: bytes)
    requires NextLine(s).Line?
    ensures NextLine(s + r) == Line(NextLine(s).text, NextLine(s).rest + r)
  {
    var i := NewlineAt(s);
    var x, rest := s[..i], s[i + 1..];
    assert s == x + "\n" + rest;
    assert s + r == x + "\n" + (rest + r);
    LineBack(x, rest + r);
  }

  /** Appending to a file does not change what is found in it, and is searched if nothing is found. */
  lemma {:induction false} SearchAppend(s: bytes, r: bytes, grip: bytes)
    ensures Search(s, grip).Found? ==> Search(s + r, grip) == Search(s, grip)
    ensures Search(s, grip).Missing? ==> Search(s + r, grip) == Search(r, grip)
    decreases |s|
  {
    hide ParseLine;
    if s == [] {
      assert s + r == r;
    } else {
      var line := NextLine(s);
      if line.Line? {
        hide NextLine;
        LineLocal(s, r);
        SearchAppend(line.rest, r, grip);
      }
    }
  }

  /** If one key is missing, every key is found or missing. */
  lemma {:induction false} MissingIsReadable(s: bytes, grip: bytes, other: bytes)
    requires Search(s, grip).Missing?
    ensures !Search(s, other).Broken?
    decreases |s|
  {
    hide ParseLine;
    var line := NextLine(s);
    if line.Line? {
      MissingIsReadable(line.rest, grip, other);
    }
  }

  // ----- reading an added entry

  lemma SignedBack(ttl: int, r: bytes)
    requires IsInt(ttl) && (r == [] || !IsDigit(r[0]))
    ensures SignedNumber(SignedDec(ttl) + r) == Signed(ttl, r)
  {
    hide Dec, Value, DigitCount;
    var n: nat := if ttl < 0 then -ttl else ttl;
    var ds := Dec(n);
    var x := SignedDec(ttl) + r;
    assert IsDigit(ds[0]);
    assert ttl < 0 ==> x == "-" + (ds + r);
    var t := if ttl < 0 then x[1..] else x;
    assert t == ds + r;
    DigitCountAppend(ds, r);
    assert t[..|ds|] == ds && t[|ds|..] == r;
    ValueOfDec(n);
  }

  lemma SpaceSkipped(ttl: int, r: bytes)
    ensures SkipSpaces(" " + (SignedDec(ttl) + r)) == SignedDec(ttl) + r
  {
    hide Dec;
    var x := SignedDec(ttl) + r;
    assert ttl >= 0 ==> IsDigit(Dec(ttl)[0]) && x[0] == Dec(ttl)[0];
    assert (" " + x)[1..] == x;
    assert SkipSpaces(x) == x;
  }

  lemma NumberBack(ttl: int, r: bytes)
    requires IsInt(ttl) && (r == [] || !IsDigit(r[0]))
    ensures StrToL(" " + SignedDec(ttl) + r) == (ttl, r) && ToInt(ttl) == ttl
  {
    hide SignedDec, SignedNumber, SkipSpaces;
    assert " " + SignedDec(ttl) + r == " " + (SignedDec(ttl) + r);
    SpaceSkipped(ttl, r);
    SignedBack(ttl, r);
  }

  lemma FlagsBack()
    ensures Confirms(" confirm") && !Confirms([])
  {
    hide FlagLength;
    var c := "confirm";
    assert " confirm"[1..] == c;
    FlagWhole(c);
    assert SkipBlanks(c) == c;
    assert SkipBlanks(" confirm") == c;
    assert c[..7] == c;
    assert NextFlag(" confirm").name == c;
  }

  lemma {:induction false} FlagWhole(s: bytes)
    requires forall i :: 0 <= i < |s| ==> s[i] != '=' && !IsBlank(s[i])
    ensures FlagLength(s) == |s|
  {
    if s != [] {
      FlagWhole(s[1..]);
    }
  }

  /** An entry that was written is read back. */
  lemma EntryBack(grip: bytes, ttl: int, confirm: bool)
    requires ValidGrip(grip) && IsInt(ttl)
    ensures ParseLine(EntryText(grip, ttl, confirm)) == Entry(Item(false, grip, ttl, confirm))
  {
    hide StrToL, Confirms, SignedDec, ToInt, Uppers;
    var tail := if confirm then " confirm" else "";
    assert EntryText(grip, ttl, confirm) == grip + (" " + SignedDec(ttl) + tail);
    EntryLine(grip, " " + SignedDec(ttl) + tail);
    NumberBack(ttl, tail);
    FlagsBack();
  }

  lemma {:induction false} DecShort(n: nat, k: nat, bound: nat)
    requires n < bound && bound == Ten(k) && k > 0
    ensures |Dec(n)| <= k
  {
    assert Ten(1) == 10 * Ten(0);
    if n >= 10 && k > 1 {
      DecShort(n / 10, k - 1, Ten(k - 1));
    }
  }

  function Ten(k: nat): nat {
    if k == 0 then 1 else 10 * Ten(k - 1)
  }

  /** The line of an entry is short, and is one line. */
  lemma EntryIsLine(grip: bytes, ttl: int, confirm: bool)
    requires ValidGrip(grip) && IsInt(ttl)
    ensures var text := EntryText(grip, ttl, confirm); '\n' !in text && |text| + 1 <= LINE_SIZE - 2
  {
    hide Uppers, Dec;
    var n: nat := if ttl < 0 then -ttl else ttl;
    assert Ten(5) == 100000;
    assert Ten(10) == 100000 * Ten(5);
    DecShort(n, 10, Ten(10));
    var text := EntryText(grip, ttl, confirm);
    assert forall i :: 0 <= i < |grip| ==> IsHex(grip[i]) && grip[i] != '\n';
    assert forall i :: 0 <= i < |Dec(n)| ==> IsDigit(Dec(n)[i]) && Dec(n)[i] != '\n';
    assert '\n' !in " confirm";
  }

  lemma {:induction false} NotesSkipped(notes: seq<bytes>, r: bytes, grip: bytes)
    requires ValidNotes(notes)
    ensures Search(NotesText(notes) + r, grip) == Search(r, grip)
  {
    hide NextLine, ParseLine, Search;
    if notes == [] {
      assert NotesText(notes) + r == r;
    } else {
      var x, rest := "#" + notes[0], NotesText(notes[1..]) + r;
      assert NotesText(notes) + r == x + "\n" + rest;
      assert '\n' !in x;
      LineBack(x, rest);
      NoteIsComment(notes[0]);
      SearchStep(x + "\n" + rest, grip);
      NotesSkipped(notes[1..], r, grip);
    }
  }

  lemma NoteIsComment(note: bytes)
    ensures ParseLine("#" + note).Comment?
  {
    assert ("#" + note)[0] == '#';
    assert SkipBlanks("#" + note) == "#" + note;
  }

  lemma AddedSearch(notes: seq<bytes>, grip: bytes, ttl: int, confirm: bool, other: bytes)
    requires ValidNotes(notes) && ValidGrip(grip) && IsInt(ttl)
    ensures Search(NotesText(notes) + EntryText(grip, ttl, confirm) + "\n", other) ==
            if other == grip then Found(Item(false, grip, ttl, confirm)) else Missing
  {
    hide ParseLine, EntryText, NextLine, NotesText, Uppers;
    var text := EntryText(grip, ttl, confirm);
    EntryIsLine(grip, ttl, confirm);
    EntryBack(grip, ttl, confirm);
    assert NotesText(notes) + text + "\n" == NotesText(notes) + (text + "\n");
    NotesSkipped(notes, text + "\n", other);
    LineBack(text, []);
    assert text + "\n" + [] == text + "\n";
    EmptySearch(other);
  }

  lemma EmptySearch(grip: bytes)
    ensures Search([], grip) == Missing
  {
  }

  /**
   Adding a key to any file: a missing key is then found enabled with its
   lifetime and flag, any other answer about it stays, the answer for every
   other key stays, and adding it again does not change the file.
   */
  lemma AddThenSearch(file: bytes, notes: seq<bytes>, grip: bytes, ttl: int, confirm: bool, other: bytes)
    requires ValidNotes(notes) && ValidGrip(grip) && IsInt(ttl)
    ensures var f := Add(file, notes, grip, ttl, confirm);
            && Search(f, grip) == (if Search(file, grip).Missing? then Found(Item(false, grip, ttl, confirm)) else Search(file, grip))
            && (other != grip ==> Search(f, other) == Search(file, other))
  {
    hide Search, NotesText, EntryText, Uppers;
    var added := NotesText(notes) + EntryText(grip, ttl, confirm) + "\n";
    if Search(file, grip).Missing? {
      assert Add(file, notes, grip, ttl, confirm) == file + added;
      SearchAppend(file, added, grip);
      AddedSearch(notes, grip, ttl, confirm, grip);
      MissingIsReadable(file, grip, other);
      SearchAppend(file, added, other);
      AddedSearch(notes, grip, ttl, confirm, other);
    }
  }

  lemma AddTwice(file: bytes, notes: seq<bytes>, notes': seq<bytes>, grip: bytes, ttl: int, ttl': int, confirm: bool, confirm': bool)
    requires ValidNotes(notes) && ValidGrip(grip) && IsInt(ttl)
    ensures var f := Add(file, notes, grip, ttl, confirm); Add(f, notes', grip, ttl', confirm') == f
  {
    hide Search, NotesText, EntryText, Uppers;
    AddThenSearch(file, notes, grip, ttl, confirm, grip);
  }

  // ----- the loops

  lemma ConfirmsStep(s: bytes)
    ensures var f := NextFlag(s);
            Confirms(s) == if f.NoFlag? then false else (!f.valued && f.name == "confirm") || Confirms(f.rest)
  {
    hide NextFlag;
  }

  /** strcspn. */
  method FlagEnd(s: bytes, pos: nat) returns (n: nat)
    requires pos <= |s|
    ensures n == FlagLength(s[pos..])
  {
    n := 0;
    while pos + n < |s| && s[pos + n] != '=' && !IsBlank(s[pos + n])
      invariant pos + n <= |s| && FlagLength(s[pos..]) == n + FlagLength(s[pos + n..])
    {
      assert s[pos + n..][1..] == s[pos + n + 1..];
      n := n + 1;
    }
  }

  method FlagAt(s: bytes, pos: nat) returns (f: Flag, next: nat)
    requires pos <= |s|
    ensures f == NextFlag(s[pos..])
    ensures f.Flag? ==> pos < next <= |s| && f.rest == s[next..]
  {
    hide SkipBlanks, FlagLength, NextFlag, IsBlank;
    var p := SkipBlanksAt(s, pos);
    if p == |s| {
      NoFlagAt(s, pos);
      return NoFlag, p;
    }
    var n := FlagEnd(s, p);
    FlagIs(s, pos, p, n);
    var end := p + n;
    if end < |s| && s[end] == '=' {
      return Flag(s[p..end], true, s[end + 1..]), end + 1;
    }
    return Flag(s[p..end], false, s[end..]), end;
  }

  lemma NoFlagAt(s: bytes, pos: nat)
    requires pos <= |s| && SkipBlanks(s[pos..]) == s[|s|..]
    ensures NextFlag(s[pos..]) == NoFlag
  {
    hide SkipBlanks;
    assert s[|s|..] == [];
  }

  /** The flag at a position, given where it starts and how long its name is. */
  lemma FlagIs(s: bytes, pos: nat, p: nat, n: nat)
    requires pos <= p < |s| && SkipBlanks(s[pos..]) == s[p..] && n == FlagLength(s[p..])
    ensures p + n <= |s|
    ensures var next := p + n;
            if next < |s| && s[next] == '=' then NextFlag(s[pos..]) == Flag(s[p..next], true, s[next + 1..])
            else NextFlag(s[pos..]) == Flag(s[p..next], false, s[next..]) && pos < next
  {
    hide SkipBlanks, FlagLength, NextFlag;
    FlagFrom(s[pos..], s[p..], n);
    Slices(s, p, n);
    if s[p..][if n < |s[p..]| then n else 0] != '=' {
      LongerName(s[pos..], s[p..], n);
    }
  }

  lemma Slices(s: bytes, p: nat, n: nat)
    requires p + n <= |s|
    ensures s[p..][..n] == s[p..p + n] && s[p..][n..] == s[p + n..] && (p + n < |s| ==> s[p..][n + 1..] == s[p + n + 1..])
  {
  }

  lemma FlagFrom(s: bytes, t: bytes, n: nat)
    requires SkipBlanks(s) == t != [] && n == FlagLength(t)
    ensures NextFlag(s) == if n < |t| && t[n] == '=' then Flag(t[..n], true, t[n + 1..]) else Flag(t[..n], false, t[n..])
  {
    hide SkipBlanks, FlagLength;
  }

  lemma LongerName(s: bytes, t: bytes, n: nat)
    requires SkipBlanks(s) == t != [] && n == FlagLength(t) && t[if n < |t| then n else 0] != '='
    ensures n > 0
  {
    hide SkipBlanks;
    NotBlankThere(s);
  }

  lemma NotBlankThere(s: bytes)
    ensures SkipBlanks(s) != [] ==> !IsBlank(SkipBlanks(s)[0])
  {
  }

  /** The loop over the flags in read_control_file_item. */
  method ReadFlags(s: bytes, start: nat) returns (confirm: bool)
    requires start <= |s|
    ensures confirm == Confirms(s[start..])
  {
    hide Confirms, NextFlag;
    confirm := false;
    var p := start;
    while p < |s|
      invariant start <= p <= |s| && Confirms(s[start..]) == (confirm || Confirms(s[p..]))
      decreases |s| - p
    {
      ConfirmsStep(s[p..]);
      var f, next := FlagAt(s, p);
      if f.NoFlag? {
        return;
      }
      if !f.valued && f.name == "confirm" {
        confirm := true;
      }
      p := next;
    }
    NoFlags(s[p..]);
  }

  lemma NoFlags(s: bytes)
    requires s == []
    ensures !Confirms(s)
  {
  }

  /** The loop that reads a keygrip: at most forty digits, in upper case. */
  method ReadGrip(s: bytes, pos: nat) returns (ok: bool, grip: bytes)
    requires pos <= |s|
    ensures var q := s[pos..];
            ok == (|q| >= 40 && AllHex(q[..40]) && (|q| == 40 || IsBlank(q[40]))) && (ok ==> grip == Uppers(q[..40]))
  {
    hide Uppers;
    ghost var q := s[pos..];
    var i := 0;
    grip := [];
    NoUppers();
    while pos + i < |s| && i < 40 && IsHex(s[pos + i])
      invariant i <= 40 && pos + i <= |s| && AllHex(q[..i]) && grip == Uppers(q[..i])
    {
      assert q[..i + 1] == q[..i] + [q[i]];
      UppersAppend(q[..i], q[i]);
      grip := grip + [Upper(s[pos + i])];
      i := i + 1;
    }
    ok := i == 40 && (pos + 40 == |s| || IsBlank(s[pos + 40]));
  }

  /** read_control_file_item on one line. */
  method ReadLine(text: bytes) returns (r: Parsed)
    ensures r == ParseLine(text)
  {
    hide SkipBlanks, Confirms, StrToL, Uppers, ToInt, KeyPart;
    var comment, disabled, p := KeyPartAt(text);
    if comment {
      return Comment;
    }
    var ok, grip := ReadGrip(text, p);
    if !ok {
      return BadData;
    }
    assert text[p..][40..] == text[p + 40..];
    var (ttl, r') := StrToL(text[p + 40..]);
    assert r'[0..] == r';
    var confirm := ReadFlags(r', 0);
    return Entry(Item(disabled, grip, ToInt(ttl), confirm));
  }

  /** The part of read_control_file_item before the keygrip. */
  method KeyPartAt(text: bytes) returns (comment: bool, disabled: bool, p: nat)
    ensures var t := SkipBlanks(text); comment == (t == [] || t[0] == '#') && (!comment ==> disabled == (t[0] == '!'))
    ensures !comment ==> p <= |text| && KeyPart(text) == text[p..]
  {
    hide SkipBlanks;
    assert text[0..] == text;
    p := SkipBlanksAt(text, 0);
    disabled := false;
    comment := p == |text| || text[p] == '#';
    if !comment {
      disabled := text[p] == '!';
      if disabled {
        assert text[p..][1..] == text[p + 1..];
        p := SkipBlanksAt(text, p + 1);
      }
    }
  }

  lemma SearchStep(s: bytes, grip: bytes)
    ensures var l := NextLine(s);
            Search(s, grip) == if l.EndOfFile? then Missing else if l.Overlong? then Broken
                               else match ParseLine(l.text)
                                    case Comment => Search(l.rest, grip)
                                    case BadData => Broken
                                    case Entry(item) => if item.grip == grip then Found(item) else Search(l.rest, grip)
  {
    hide NextLine, ParseLine;
  }

  lemma LineShorter(s: bytes)
    ensures NextLine(s).Line? ==> |NextLine(s).rest| < |s|
  {
  }

  /** search_control_file over the lines of read_control_file_item. */
  method SearchFile(file: bytes, grip: bytes) returns (r: Answer)
    ensures r == Search(file, grip)
  {
    hide Search, NextLine, ParseLine;
    var s := file;
    while true
      invariant Search(s, grip) == Search(file, grip)
      decreases |s|
    {
      SearchStep(s, grip);
      LineShorter(s);
      var line := NextLine(s);
      if line.EndOfFile? {
        return Missing;
      }
      if line.Overlong? {
        return Broken;
      }
      var item := ReadLine(line.text);
      if item.BadData? {
        return Broken;
      }
      if item.Entry? && item.item.grip == grip {
        return Found(item.item);
      }
      s := line.rest;
    }
  }

  /** An opened control file. */
  class ControlFile {
    var content: bytes

    /** add_control_entry. */
    method AddEntry(notes: seq<bytes>, grip: bytes, ttl: int, confirm: bool)
      modifies this
      ensures content == Add(old(content), notes, grip, ttl, confirm)
    {
      hide Search, NotesText, EntryText;
      var found := SearchFile(content, grip);
      if found.Missing? {
        content := content + NotesText(notes) + EntryText(grip, ttl, confirm) + "\n";
      }
    }
  }
}
