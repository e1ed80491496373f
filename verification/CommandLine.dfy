/**
 build_argv of agent/w32main.c: a command line is split into arguments in two
 passes, the second one in place.
 */
module CommandLine {
  import opened Octets

  function Repeat(c: octet, n: nat): (s: bytes)
    ensures |s| == n && forall i :: 0 <= i < n ==> s[i] == c
  {
    seq(n, _ => c)
  }

  // ----- the quoting rules

  function Backslashes(s: bytes): (k: nat)
    ensures k <= |s| && s[..k] == Repeat('\\', k)
    ensures k < |s| ==> s[k] != '\\'
  {
    if s == [] || s[0] != '\\' then 0
    else
      var k := 1 + Backslashes(s[1..]);
      assert s[..k] == [s[0]] + s[1..][..k - 1];
      k
  }

  /**
   The arguments of a command line.  Blanks outside quotes separate arguments.
   Backslashes are ordinary characters unless a quotation mark follows: then two
   of them stand for one, and a remaining one makes the mark an ordinary
   character.  What follows the last separator is an argument unless it is empty.
   */
  function Arguments(s: bytes, quoted: bool, arg: bytes, begun: bool): seq<bytes>
    decreases |s|
  {
    if s == [] then if begun then [arg] else []
    else if IsBlank(s[0]) && !quoted then [arg] + Arguments(SkipBlanks(s), false, [], false)
    else
      var k := Backslashes(s);
      if k < |s| && s[k] == '"' then
        if k % 2 == 0 then Arguments(s[k + 1..], !quoted, arg + Repeat('\\', k / 2), true)
        else Arguments(s[k + 1..], quoted, arg + Repeat('\\', k / 2) + "\"", true)
      else if k > 0 then Arguments(s[k..], quoted, arg + Repeat('\\', k), true)
      else Arguments(s[1..], quoted, arg + [s[0]], true)
  }

  // ----- the automaton of the second pass

  /** One character at a time: backslashes are copied, and taken back when a quotation mark follows. */
  function Machine(s: bytes, quoted: bool, arg: bytes, bs: nat, begun: bool): seq<bytes>
    requires bs <= |arg|
    decreases |s|
  {
    if s == [] then if begun then [arg] else []
    else if IsBlank(s[0]) && !quoted then [arg] + Machine(SkipBlanks(s), false, [], 0, false)
    else if s[0] == '\\' then Machine(s[1..], quoted, arg + [s[0]], bs + 1, true)
    else if s[0] == '"' then
      if bs % 2 == 0 then Machine(s[1..], !quoted, arg[..|arg| - bs / 2], 0, true)
      else Machine(s[1..], quoted, arg[..|arg| - bs / 2 - 1] + "\"", 0, true)
    else Machine(s[1..], quoted, arg + [s[0]], 0, true)
  }

  lemma BackslashesOf(bs: nat, s: bytes)
    requires s == [] || s[0] != '\\'
    ensures Backslashes(Repeat('\\', bs) + s) == bs
  {
    var t := Repeat('\\', bs) + s;
    if bs == 0 {
      assert t == s;
    } else {
      assert t[1..] == Repeat('\\', bs - 1) + s;
      BackslashesOf(bs - 1, s);
    }
  }

  /** What the run of backslashes before s contributes when the run is over. */
  lemma RunEnds(s: bytes, quoted: bool, arg: bytes, bs: nat, begun: bool)
    requires s == [] || s[0] != '\\'
    ensures bs > 0 && !(s != [] && s[0] == '"') ==>
              Arguments(Repeat('\\', bs) + s, quoted, arg, begun) == Arguments(s, quoted, arg + Repeat('\\', bs), true)
    ensures s != [] && s[0] == '"' ==>
              Arguments(Repeat('\\', bs) + s, quoted, arg, begun) ==
              if bs % 2 == 0 then Arguments(s[1..], !quoted, arg + Repeat('\\', bs / 2), true)
              else Arguments(s[1..], quoted, arg + Repeat('\\', bs / 2) + "\"", true)
  {
    var t := Repeat('\\', bs) + s;
    BackslashesOf(bs, s);
    assert t[bs..] == s;
    if s != [] {
      assert t[bs + 1..] == s[1..];
    }
  }

  lemma MachineStep(s: bytes, quoted: bool, arg: bytes, bs: nat, begun: bool)
    requires bs <= |arg|
    ensures s == [] ==> Machine(s, quoted, arg, bs, begun) == if begun then [arg] else []
    ensures s != [] ==>
              Machine(s, quoted, arg, bs, begun) ==
              if IsBlank(s[0]) && !quoted then [arg] + Machine(SkipBlanks(s), false, [], 0, false)
              else if s[0] == '\\' then Machine(s[1..], quoted, arg + [s[0]], bs + 1, true)
              else if s[0] == '"' && bs % 2 == 0 then Machine(s[1..], !quoted, arg[..|arg| - bs / 2], 0, true)
              else if s[0] == '"' then Machine(s[1..], quoted, arg[..|arg| - bs / 2 - 1] + "\"", 0, true)
              else Machine(s[1..], quoted, arg + [s[0]], 0, true)
  {
  }

  lemma ArgumentsStep(s: bytes, quoted: bool, arg: bytes, begun: bool)
    ensures s == [] ==> Arguments(s, quoted, arg, begun) == if begun then [arg] else []
    ensures s != [] && s[0] != '\\' && s[0] != '"' ==>
              Arguments(s, quoted, arg, begun) ==
              if IsBlank(s[0]) && !quoted then [arg] + Arguments(SkipBlanks(s), false, [], false)
              else Arguments(s[1..], quoted, arg + [s[0]], true)
    ensures s != [] && !IsBlank(s[0]) ==> Arguments(s, quoted, arg, begun) == Arguments(s, quoted, arg, true)
  {
  }

  /** The automaton computes the arguments: copying and taking back is the same as looking at whole runs. */
  lemma {:induction false} MachineIsArguments(s: bytes, quoted: bool, arg: bytes, bs: nat, begun: bool)
    requires bs > 0 ==> begun
    ensures Machine(s, quoted, arg + Repeat('\\', bs), bs, begun) == Arguments(Repeat('\\', bs) + s, quoted, arg, begun)
    decreases |s|, 0
  {
    hide Machine, Arguments;
    var run := Repeat('\\', bs);
    var cur := arg + run;
    assert bs == 0 ==> run + s == s && cur == arg;
    MachineStep(s, quoted, cur, bs, begun);
    if s == [] {
      RunEnds(s, quoted, arg, bs, begun);
      ArgumentsStep(s, quoted, cur, begun);
    } else if s[0] == '\\' {
      assert run + s == Repeat('\\', bs + 1) + s[1..];
      assert cur + [s[0]] == arg + Repeat('\\', bs + 1);
      MachineIsArguments(s[1..], quoted, arg, bs + 1, true);
      ArgumentsStep(Repeat('\\', bs + 1) + s[1..], quoted, arg, begun);
    } else if s[0] == '"' {
      RunEnds(s, quoted, arg, bs, begun);
      if bs % 2 == 0 {
        assert cur[..|cur| - bs / 2] == arg + Repeat('\\', bs / 2);
        Continue(s[1..], !quoted, arg + Repeat('\\', bs / 2));
      } else {
        assert cur[..|cur| - bs / 2 - 1] + "\"" == arg + Repeat('\\', bs / 2) + "\"";
        Continue(s[1..], quoted, arg + Repeat('\\', bs / 2) + "\"");
      }
    } else {
      RunEnds(s, quoted, arg, bs, begun);
      ArgumentsStep(s, quoted, cur, begun);
      if IsBlank(s[0]) && !quoted {
        Fresh(SkipBlanks(s));
      } else {
        Continue(s[1..], quoted, cur + [s[0]]);
      }
    }
  }

  lemma Continue(s: bytes, quoted: bool, arg: bytes)
    ensures Machine(s, quoted, arg, 0, true) == Arguments(s, quoted, arg, true)
    decreases |s|, 1
  {
    hide Machine, Arguments;
    MachineIsArguments(s, quoted, arg, 0, true);
    assert arg + Repeat('\\', 0) == arg && Repeat('\\', 0) + s == s;
  }

  lemma Fresh(s: bytes)
    ensures Machine(s, false, [], 0, false) == Arguments(s, false, [], false)
    decreases |s|, 1
  {
    hide Machine, Arguments;
    MachineIsArguments(s, false, [], 0, false);
    assert [] + Repeat('\\', 0) == [] && Repeat('\\', 0) + s == s;
  }

  // ----- the first pass

  /** What the first pass adds to the size of the argument array. */
  function Count(s: bytes, quoted: bool, bs: nat): nat
    decreases |s|
  {
    if s == [] then 1
    else if IsBlank(s[0]) && !quoted then
      var t := SkipBlanks(s);
      1 + if t == [] then 0 else Count(t, false, 0)
    else if s[0] == '\\' then Count(s[1..], quoted, bs + 1)
    else if s[0] == '"' && bs % 2 == 0 then Count(s[1..], !quoted, 0)
    else Count(s[1..], quoted, 0)
  }

  /** The first pass counts the entries of the second one, and one more for an empty rest. */
  lemma {:induction false} CountIsMachine(s: bytes, quoted: bool, arg: bytes, bs: nat, begun: bool)
    requires bs <= |arg|
    ensures Count(s, quoted, bs) == |Machine(s, quoted, arg, bs, begun)| + (if s == [] && !begun then 1 else 0)
    decreases |s|
  {
    hide Machine;
    MachineStep(s, quoted, arg, bs, begun);
    if s == [] {
    } else if IsBlank(s[0]) && !quoted {
      CountIsMachine(SkipBlanks(s), false, [], 0, false);
    } else if s[0] == '\\' {
      CountIsMachine(s[1..], quoted, arg + [s[0]], bs + 1, true);
    } else if s[0] == '"' && bs % 2 == 0 {
      CountIsMachine(s[1..], !quoted, arg[..|arg| - bs / 2], 0, true);
    } else if s[0] == '"' {
      CountIsMachine(s[1..], quoted, arg[..|arg| - bs / 2 - 1] + "\"", 0, true);
    } else {
      CountIsMachine(s[1..], quoted, arg + [s[0]], 0, true);
    }
  }

  /** The array has room for every argument and the end mark; it is larger only for an empty command line. */
  lemma SizeIsExact(cmd: bytes)
    ensures Count(cmd, false, 0) == |Arguments(cmd, false, [], false)| + (if cmd == [] then 1 else 0)
  {
    hide Machine, Arguments, Count;
    CountIsMachine(cmd, false, [], 0, false);
    Fresh(cmd);
  }

  lemma CountStep(s: bytes, quoted: bool, bs: nat)
    ensures s == [] ==> Count(s, quoted, bs) == 1
    ensures s != [] && IsBlank(s[0]) && !quoted ==>
              Count(s, quoted, bs) == 1 + if SkipBlanks(s) == [] then 0 else Count(SkipBlanks(s), false, 0)
    ensures s != [] && !(IsBlank(s[0]) && !quoted) ==>
              Count(s, quoted, bs) ==
              if s[0] == '\\' then Count(s[1..], quoted, bs + 1)
              else if s[0] == '"' && bs % 2 == 0 then Count(s[1..], !quoted, 0)
              else Count(s[1..], quoted, 0)
  {
  }

  /** The first loop of build_argv. */
  method CountArgs(cmd: bytes, reserved: nat) returns (argc: nat)
    ensures argc == reserved + 1 + Count(cmd, false, 0)
  {
    hide Count, SkipBlanks;
    var bs, quoted, s := 0, false, 0;
    argc := reserved + 1;
    while true
      invariant s <= |cmd| && argc + Count(cmd[s..], quoted, bs) == reserved + 1 + Count(cmd, false, 0)
      decreases |cmd| - s
    {
      CountStep(cmd[s..], quoted, bs);
      if s == |cmd| {
        argc := argc + 1;
        break;
      }
      if IsBlank(cmd[s]) && !quoted {
        argc := argc + 1;
        SkipsSome(cmd[s..]);
        s := SkipBlanksAt(cmd, s);
        if s == |cmd| {
          break;
        }
        bs := 0;
      } else if cmd[s] == '\\' {
        bs, s := bs + 1, s + 1;
      } else if cmd[s] == '"' && bs % 2 == 0 {
        quoted, bs, s := !quoted, 0, s + 1;
      } else {
        bs, s := 0, s + 1;
      }
    }
  }

  lemma SkipsSome(s: bytes)
    requires s != [] && IsBlank(s[0])
    ensures |SkipBlanks(s)| < |s|
  {
  }

  // ----- the second pass

  /** A finished argument: at its place below the limit, with its end mark. */
  predicate Placed(buf: bytes, p: int, x: bytes, limit: nat) {
    0 <= p && p + |x| < limit <= |buf| && buf[p..p + |x|] == x && buf[p + |x|] == '\0'
  }

  /** The cursors and flags of the second loop. */
  datatype Cursor = Cursor(s: nat, arg: nat, d: nat, bs: nat, quoted: bool)

  /** Writing stays between the start of the argument and the reading cursor; what is to be read is unchanged. */
  ghost predicate Splitting(cmd: bytes, buf: bytes, c: Cursor, out: seq<bytes>) {
    && |buf| == |cmd| + 1 && c.arg <= c.d <= c.s <= |cmd| && c.bs <= c.d - c.arg
    && buf[c.s..] == cmd[c.s..] + "\0"
    && (forall j :: c.arg <= j < |cmd| ==> buf[j] != '\0')
    && out + Machine(cmd[c.s..], c.quoted, buf[c.arg..c.d], c.bs, c.arg < c.s) == Machine(cmd, false, [], 0, false)
  }

  predicate NoNul(cmd: bytes) {
    forall i :: 0 <= i < |cmd| ==> cmd[i] != '\0'
  }

  /** A character is written at or before the reading cursor. */
  lemma WriteKeeps(cmd: bytes, buf: bytes, c: Cursor, out: seq<bytes>, at: nat, x: octet)
    requires Splitting(cmd, buf, c, out) && c.arg <= at <= c.d && c.s < |cmd| && x != '\0'
    ensures var b := buf[at := x];
            && b[c.s + 1..] == cmd[c.s + 1..] + "\0"
            && (forall j :: c.arg <= j < |cmd| ==> b[j] != '\0')
            && b[c.arg..at + 1] == buf[c.arg..at] + [x]
  {
    hide Machine;
    var b := buf[at := x];
    assert b[c.s + 1..] == buf[c.s..][1..];
    assert (cmd[c.s..] + "\0")[1..] == cmd[c.s + 1..] + "\0";
  }

  lemma CopyKeeps(cmd: bytes, buf: bytes, c: Cursor, out: seq<bytes>)
    requires Splitting(cmd, buf, c, out) && c.s < |cmd| && NoNul(cmd)
    requires cmd[c.s] != '"' && !(IsBlank(cmd[c.s]) && !c.quoted)
    ensures Splitting(cmd, buf[c.d := cmd[c.s]],
                      c.(s := c.s + 1, d := c.d + 1, bs := if cmd[c.s] == '\\' then c.bs + 1 else 0), out)
  {
    hide Machine;
    WriteKeeps(cmd, buf, c, out, c.d, cmd[c.s]);
    MachineStep(cmd[c.s..], c.quoted, buf[c.arg..c.d], c.bs, c.arg < c.s);
    assert cmd[c.s..][1..] == cmd[c.s + 1..];
  }

  lemma ToggleKeeps(cmd: bytes, buf: bytes, c: Cursor, out: seq<bytes>)
    requires Splitting(cmd, buf, c, out) && c.s < |cmd| && cmd[c.s] == '"' && c.bs % 2 == 0
    ensures Splitting(cmd, buf, c.(s := c.s + 1, d := c.d - c.bs / 2, bs := 0, quoted := !c.quoted), out)
  {
    hide Machine;
    MachineStep(cmd[c.s..], c.quoted, buf[c.arg..c.d], c.bs, c.arg < c.s);
    assert cmd[c.s..][1..] == cmd[c.s + 1..];
    assert buf[c.s + 1..] == buf[c.s..][1..];
    assert (cmd[c.s..] + "\0")[1..] == cmd[c.s + 1..] + "\0";
    var cur := buf[c.arg..c.d];
    assert cur[..|cur| - c.bs / 2] == buf[c.arg..c.d - c.bs / 2];
  }

  lemma EscapeKeeps(cmd: bytes, buf: bytes, c: Cursor, out: seq<bytes>)
    requires Splitting(cmd, buf, c, out) && c.s < |cmd| && cmd[c.s] == '"' && c.bs % 2 == 1
    ensures var d := c.d - c.bs / 2 - 1;
            c.arg <= d && Splitting(cmd, buf[d := '"'], c.(s := c.s + 1, d := d + 1, bs := 0), out)
  {
    hide Machine;
    var half := c.bs / 2;
    var d := c.d - half - 1;
    WriteKeeps(cmd, buf, c, out, d, '"');
    MachineStep(cmd[c.s..], c.quoted, buf[c.arg..c.d], c.bs, c.arg < c.s);
    assert cmd[c.s..][1..] == cmd[c.s + 1..];
    ShorterPart(buf, c.arg, c.d, half + 1);
  }

  lemma ShorterPart(buf: bytes, from: nat, to: nat, n: nat)
    requires from <= to <= |buf| && n <= to - from
    ensures buf[from..to][..to - from - n] == buf[from..to - n]
  {
  }

  lemma CloseKeeps(cmd: bytes, buf: bytes, c: Cursor, out: seq<bytes>, next: nat)
    requires Splitting(cmd, buf, c, out) && c.s < |cmd| && IsBlank(cmd[c.s]) && !c.quoted && NoNul(cmd)
    requires c.s < next <= |cmd| && SkipBlanks(cmd[c.s..]) == cmd[next..]
    ensures Splitting(cmd, buf[c.d := '\0'], Cursor(next, next, next, 0, false), out + [buf[c.arg..c.d]])
    ensures Placed(buf[c.d := '\0'], c.arg, buf[c.arg..c.d], next)
  {
    hide Machine, SkipBlanks;
    MachineStep(cmd[c.s..], c.quoted, buf[c.arg..c.d], c.bs, c.arg < c.s);
    var b := buf[c.d := '\0'];
    assert b[next..] == buf[c.s..][next - c.s..];
    assert (cmd[c.s..] + "\0")[next - c.s..] == cmd[next..] + "\0";
    forall j | next <= j < |cmd|
      ensures b[j] != '\0'
    {
      assert b[next..][j - next] == cmd[next..][j - next];
    }
    assert b[next..next] == [];
    var m := Machine(cmd[next..], false, [], 0, false);
    assert out + ([buf[c.arg..c.d]] + m) == out + [buf[c.arg..c.d]] + m;
  }

  lemma PlacedStays(buf: bytes, p: int, x: bytes, limit: nat, at: nat, c: octet, limit': nat)
    requires Placed(buf, p, x, limit) && limit <= at < |buf| && limit <= limit' <= |buf|
    ensures Placed(buf[at := c], p, x, limit')
  {
    assert buf[at := c][p..p + |x|] == buf[p..p + |x|];
  }

  /** The arguments found so far are where the array says, and stay there. */
  ghost predicate Listed(buf: bytes, argv: seq<int>, reserved: nat, out: seq<bytes>, limit: nat) {
    && reserved + |out| <= |argv|
    && forall k :: 0 <= k < |out| ==> Placed(buf, argv[reserved + k], out[k], limit)
  }

  lemma ListedStays(buf: bytes, argv: seq<int>, reserved: nat, out: seq<bytes>, limit: nat, at: nat, c: octet, limit': nat)
    requires Listed(buf, argv, reserved, out, limit) && limit <= at < |buf| && limit <= limit' <= |buf|
    ensures Listed(buf[at := c], argv, reserved, out, limit')
  {
    hide Placed;
    forall k | 0 <= k < |out|
      ensures Placed(buf[at := c], argv[reserved + k], out[k], limit')
    {
      PlacedStays(buf, argv[reserved + k], out[k], limit, at, c, limit');
    }
  }

  lemma ListedMore(buf: bytes, argv: seq<int>, argv': seq<int>, reserved: nat, out: seq<bytes>, limit: nat, p: nat, x: bytes)
    requires Listed(buf, argv, reserved, out, limit) && Placed(buf, p, x, limit) && reserved + |out| < |argv|
    requires argv' == argv[reserved + |out| := p]
    ensures Listed(buf, argv', reserved, out + [x], limit)
  {
    hide Placed;
    var out' := out + [x];
    forall k | 0 <= k < |out'|
      ensures Placed(buf, argv'[reserved + k], out'[k], limit)
    {
      if k < |out| {
        assert Placed(buf, argv[reserved + k], out[k], limit);
      }
    }
  }

  /** There is room for one more argument and the end mark. */
  lemma RoomLeft(cmd: bytes, buf: bytes, c: Cursor, out: seq<bytes>)
    requires Splitting(cmd, buf, c, out)
    ensures |out| <= Count(cmd, false, 0)
    ensures c.s < |cmd| && IsBlank(cmd[c.s]) && !c.quoted ==> |out| < Count(cmd, false, 0)
    ensures c.s == |cmd| && c.arg < c.s ==> |out| < Count(cmd, false, 0)
  {
    hide Machine, Count;
    CountIsMachine(cmd, false, [], 0, false);
    MachineStep(cmd[c.s..], c.quoted, buf[c.arg..c.d], c.bs, c.arg < c.s);
  }

  lemma CharAt(cmd: bytes, buf: bytes, c: Cursor, out: seq<bytes>)
    requires Splitting(cmd, buf, c, out)
    ensures c.s < |buf| && (c.s < |cmd| ==> buf[c.s] == cmd[c.s])
    ensures buf[c.s] == '\0' ==> c.s == |cmd|
    ensures c.s == |cmd| ==> buf[c.s] == '\0'
  {
    hide Machine;
    assert buf[c.s] == (cmd[c.s..] + "\0")[0];
    if c.s < |cmd| {
      assert buf[c.s] != '\0';
    }
  }

  lemma SkipAt(cmd: bytes, i: nat)
    requires i <= |cmd|
    ensures i < |cmd| && IsBlank(cmd[i]) ==> SkipBlanks(cmd[i..]) == SkipBlanks(cmd[i + 1..])
    ensures i == |cmd| || !IsBlank(cmd[i]) ==> SkipBlanks(cmd[i..]) == cmd[i..]
  {
    if i < |cmd| {
      assert cmd[i..][1..] == cmd[i + 1..];
    }
  }

  /** The inner loop of the second pass: to the next character that is not blank. */
  method SkipBlanksIn(a: array<octet>, cmd: bytes, s: nat) returns (next: nat)
    requires s < |cmd| && a.Length == |cmd| + 1 && IsBlank(cmd[s])
    requires a[|cmd|] == '\0' && forall j :: s < j < |cmd| ==> a[j] == cmd[j]
    ensures s < next <= |cmd| && SkipBlanks(cmd[s..]) == cmd[next..]
  {
    hide SkipBlanks, IsBlank;
    ghost var rest := SkipBlanks(cmd[s..]);
    next := s + 1;
    SkipAt(cmd, s);
    NulNotBlank();
    while IsBlank(a[next])
      invariant s < next <= |cmd| && SkipBlanks(cmd[next..]) == rest
      decreases |cmd| - next
    {
      SkipAt(cmd, next);
      next := next + 1;
    }
    SkipAt(cmd, next);
  }

  lemma NulNotBlank()
    ensures !IsBlank('\0')
  {
  }

  lemma RestAt(cmd: bytes, buf: bytes, s: nat)
    requires s < |cmd| && |buf| == |cmd| + 1 && buf[s + 1..] == cmd[s + 1..] + "\0"
    ensures buf[|cmd|] == '\0' && forall j :: s < j < |cmd| ==> buf[j] == cmd[j]
  {
    forall j | s < j <= |cmd|
      ensures buf[j] == if j < |cmd| then cmd[j] else '\0'
    {
      assert buf[s + 1..][j - s - 1] == (cmd[s + 1..] + "\0")[j - s - 1];
    }
  }

  /** One round of the second loop that is not at a separator. */
  method CopyRound(a: array<octet>, cmd: bytes, c: Cursor, ghost out: seq<bytes>, argv: seq<int>, reserved: nat) returns (c': Cursor)
    requires Splitting(cmd, a[..], c, out) && c.s < |cmd| && NoNul(cmd) && !(IsBlank(cmd[c.s]) && !c.quoted)
    requires Listed(a[..], argv, reserved, out, c.arg)
    modifies a
    ensures Splitting(cmd, a[..], c', out) && c'.s == c.s + 1 && c'.arg == c.arg
    ensures Listed(a[..], argv, reserved, out, c'.arg)
  {
    hide Machine, Splitting, Listed;
    ghost var buf := a[..];
    CharAt(cmd, buf, c, out);
    Bounds(cmd, buf, c, out);
    if a[c.s] == '"' {
      if c.bs % 2 == 0 {
        ToggleKeeps(cmd, buf, c, out);
        return c.(s := c.s + 1, d := c.d - c.bs / 2, bs := 0, quoted := !c.quoted);
      }
      var d := c.d - c.bs / 2 - 1;
      EscapeKeeps(cmd, buf, c, out);
      ListedStays(buf, argv, reserved, out, c.arg, d, '"', c.arg);
      a[d] := '"';
      assert a[..] == buf[d := '"'];
      return c.(s := c.s + 1, d := d + 1, bs := 0);
    }
    CopyKeeps(cmd, buf, c, out);
    ListedStays(buf, argv, reserved, out, c.arg, c.d, cmd[c.s], c.arg);
    a[c.d] := a[c.s];
    assert a[..] == buf[c.d := cmd[c.s]];
    return c.(s := c.s + 1, d := c.d + 1, bs := if cmd[c.s] == '\\' then c.bs + 1 else 0);
  }

  lemma Bounds(cmd: bytes, buf: bytes, c: Cursor, out: seq<bytes>)
    requires Splitting(cmd, buf, c, out)
    ensures |buf| == |cmd| + 1 && c.arg <= c.d <= c.s <= |cmd| && c.bs <= c.d - c.arg
    ensures c.s < |cmd| ==> buf[c.s + 1..] == cmd[c.s + 1..] + "\0"
  {
    hide Machine;
    if c.s < |cmd| {
      assert buf[c.s + 1..] == buf[c.s..][1..];
      assert (cmd[c.s..] + "\0")[1..] == cmd[c.s + 1..] + "\0";
    }
  }

  const NULL: int := -1

  /** The second loop of build_argv. */
  method SplitArgs(a: array<octet>, argv: array<int>, cmd: bytes, reserved: nat) returns (argc: nat, c: Cursor, ghost out: seq<bytes>)
    requires NoNul(cmd) && a[..] == cmd + "\0" && argv.Length == reserved + 1 + Count(cmd, false, 0)
    requires a as object != argv as object
    modifies a, argv
    ensures argc == reserved + |out| && c.s == |cmd| && Splitting(cmd, a[..], c, out)
    ensures Listed(a[..], argv[..], reserved, out, c.arg)
  {
    hide Machine, Splitting, Listed, Count, SkipBlanks;
    argc, c, out := reserved, Cursor(0, 0, 0, 0, false), [];
    SplitStart(cmd, a[..], argv[..], reserved);
    while c.s < |cmd|
      invariant a.Length == |cmd| + 1 && argc == reserved + |out| && c.s <= |cmd|
      invariant Splitting(cmd, a[..], c, out) && Listed(a[..], argv[..], reserved, out, c.arg)
      decreases |cmd| - c.s
    {
      ghost var buf := a[..];
      CharAt(cmd, buf, c, out);
      Bounds(cmd, buf, c, out);
      if IsBlank(a[c.s]) && !c.quoted {
        RoomLeft(cmd, buf, c, out);
        RestAt(cmd, buf, c.s);
        a[c.d] := '\0';
        assert a[..] == buf[c.d := '\0'];
        var next := SkipBlanksIn(a, cmd, c.s);
        CloseKeeps(cmd, buf, c, out, next);
        ListedStays(buf, argv[..], reserved, out, c.arg, c.d, '\0', next);
        ghost var list := argv[..];
        argv[argc] := c.arg;
        ListedMore(a[..], list, argv[..], reserved, out, next, c.arg, buf[c.arg..c.d]);
        argc, out, c := argc + 1, out + [buf[c.arg..c.d]], Cursor(next, next, next, 0, false);
      } else {
        c := CopyRound(a, cmd, c, out, argv[..], reserved);
        assert argv[..] == argv[..];
      }
    }
  }

  lemma SplitStart(cmd: bytes, buf: bytes, argv: seq<int>, reserved: nat)
    requires NoNul(cmd) && buf == cmd + "\0" && reserved <= |argv|
    ensures Splitting(cmd, buf, Cursor(0, 0, 0, 0, false), []) && Listed(buf, argv, reserved, [], 0)
  {
    hide Machine;
    assert buf[0..] == cmd[0..] + "\0" && buf[0..0] == [] && cmd[0..] == cmd;
    var m := Machine(cmd, false, [], 0, false);
    assert [] + m == m;
  }

  /** The end of the second pass: the last argument, unless it is empty. */
  lemma LastArgument(cmd: bytes, buf: bytes, c: Cursor, out: seq<bytes>)
    requires Splitting(cmd, buf, c, out) && c.s == |cmd|
    ensures buf[c.arg] == '\0' ==> out == Arguments(cmd, false, [], false)
    ensures buf[c.arg] != '\0' ==> out + [buf[c.arg..c.d]] == Arguments(cmd, false, [], false)
                                   && c.arg < c.s && Placed(buf[c.d := '\0'], c.arg, buf[c.arg..c.d], |buf|)
  {
    hide Machine, Arguments;
    CharAt(cmd, buf, c, out);
    Fresh(cmd);
    MachineStep(cmd[c.s..], c.quoted, buf[c.arg..c.d], c.bs, c.arg < c.s);
    assert buf[c.d := '\0'][c.arg..c.d] == buf[c.arg..c.d];
    assert out + [] == out;
  }

  /**
   build_argv: the entries from the reserved ones on are the arguments of the
   command line, each in the buffer with its end mark, followed by NULL; the
   array computed in the first pass has room for all of them.
   */
  method BuildArgv(cmd: bytes, reserved: nat) returns (a: array<octet>, argv: array<int>)
    requires NoNul(cmd)
    ensures var args := Arguments(cmd, false, [], false);
            && argv.Length == reserved + 1 + |args| + (if cmd == [] then 1 else 0)
            && Listed(a[..], argv[..], reserved, args, a.Length)
            && argv[reserved + |args|] == NULL
  {
    hide Machine, Splitting, Listed, Count, Arguments;
    a := new octet[|cmd| + 1];
    forall i | 0 <= i < |cmd| {
      a[i] := cmd[i];
    }
    a[|cmd|] := '\0';
    assert a[..] == cmd + "\0";
    var size := CountArgs(cmd, reserved);
    argv := new int[size];
    SizeIsExact(cmd);
    var argc, c;
    ghost var out;
    argc, c, out := SplitArgs(a, argv, cmd, reserved);
    FinishArgs(a, argv, cmd, reserved, argc, c, out);
  }

  /** The end of build_argv: the last argument, unless it is empty, and NULL. */
  method FinishArgs(a: array<octet>, argv: array<int>, cmd: bytes, reserved: nat, count: nat, c: Cursor, ghost found: seq<bytes>)
    requires count == reserved + |found| && c.s == |cmd| && Splitting(cmd, a[..], c, found)
    requires Listed(a[..], argv[..], reserved, found, c.arg) && argv.Length == reserved + 1 + Count(cmd, false, 0)
    requires a as object != argv as object
    modifies a, argv
    ensures var args := Arguments(cmd, false, [], false);
            && reserved + |args| < argv.Length && Listed(a[..], argv[..], reserved, args, a.Length)
            && argv[reserved + |args|] == NULL
  {
    hide Machine, Splitting, Listed, Count, Arguments;
    ghost var out := found;
    var argc := count;
    ghost var buf := a[..];
    Bounds(cmd, buf, c, out);
    RoomLeft(cmd, buf, c, out);
    LastArgument(cmd, buf, c, out);
    if a[c.arg] != '\0' {
      a[c.d] := '\0';
      assert a[..] == buf[c.d := '\0'];
      ListedStays(buf, argv[..], reserved, out, c.arg, c.d, '\0', a.Length);
      ghost var list := argv[..];
      argv[argc] := c.arg;
      ListedMore(a[..], list, argv[..], reserved, out, a.Length, c.arg, buf[c.arg..c.d]);
      argc, out := argc + 1, out + [buf[c.arg..c.d]];
    } else {
      ListedLonger(buf, argv[..], reserved, out, c.arg);
    }
    ghost var list := argv[..];
    argv[argc] := NULL;
    ListedEnd(a[..], list, argv[..], reserved, out, a.Length);
  }

  lemma ListedLonger(buf: bytes, argv: seq<int>, reserved: nat, out: seq<bytes>, limit: nat)
    requires Listed(buf, argv, reserved, out, limit) && limit <= |buf|
    ensures Listed(buf, argv, reserved, out, |buf|)
  {
  }

  lemma ListedEnd(buf: bytes, argv: seq<int>, argv': seq<int>, reserved: nat, out: seq<bytes>, limit: nat)
    requires Listed(buf, argv, reserved, out, limit) && reserved + |out| < |argv|
    requires argv' == argv[reserved + |out| := NULL]
    ensures Listed(buf, argv', reserved, out, limit)
  {
    hide Placed;
    forall k | 0 <= k < |out|
      ensures Placed(buf, argv'[reserved + k], out[k], limit)
    {
      assert Placed(buf, argv[reserved + k], out[k], limit);
    }
  }
}
