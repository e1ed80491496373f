/**
 Any arguments can be passed through a command line: put in quotation marks and
 separated by blanks, they are what build_argv takes apart again.
 */
module CommandLineQuoting {
  import opened Octets
  import opened CommandLine

  /**
   Backslashes are doubled before a quotation mark and at the end, and a
   quotation mark gets one of its own; run backslashes have just been written.
   */
  function Escaped(x: bytes, run: nat): bytes {
    if x == [] then Repeat('\\', run)
    else if x[0] == '\\' then [x[0]] + Escaped(x[1..], run + 1)
    else if x[0] == '"' then Repeat('\\', run + 1) + ([x[0]] + Escaped(x[1..], 0))
    else [x[0]] + Escaped(x[1..], 0)
  }

  function Quoted(x: bytes): bytes {
    "\"" + (Escaped(x, 0) + "\"")
  }

  function Joined(args: seq<bytes>): bytes {
    if args == [] then []
    else if |args| == 1 then Quoted(args[0])
    else Quoted(args[0]) + (" " + Joined(args[1..]))
  }

  lemma RunsAdd(m: nat, n: nat, c: octet)
    ensures Repeat(c, m) + Repeat(c, n) == Repeat(c, m + n) && Repeat(c, m) + [c] == Repeat(c, m + 1)
  {
  }

  /** The closing mark behind a doubled run. */
  lemma AtEnd(run: nat, r: bytes, arg: bytes)
    ensures var bs := Repeat('\\', run);
            Arguments(bs + (bs + ("\"" + r)), true, arg, true) == Arguments(r, false, arg + bs, true)
  {
    hide Arguments, Repeat;
    var bs, end := Repeat('\\', run), "\"" + r;
    RunsAdd(run, run, '\\');
    assert bs + (bs + end) == Repeat('\\', 2 * run) + end && end[1..] == r;
    RunEnds(end, true, arg, 2 * run, true);
  }

  /** A quotation mark behind a run that is doubled and has one more. */
  lemma AtMark(run: nat, e: bytes, arg: bytes)
    ensures var bs := Repeat('\\', run);
            Arguments(bs + (Repeat('\\', run + 1) + (['"'] + e)), true, arg, true) == Arguments(e, true, arg + bs + ['"'], true)
  {
    hide Arguments, Repeat;
    var bs, t := Repeat('\\', run), ['"'] + e;
    RunsAdd(run, run + 1, '\\');
    assert bs + (Repeat('\\', run + 1) + t) == Repeat('\\', 2 * run + 1) + t && t[1..] == e;
    RunEnds(t, true, arg, 2 * run + 1, true);
  }

  lemma AtOther(run: nat, c: octet, e: bytes, arg: bytes)
    requires c != '\\' && c != '"'
    ensures var bs := Repeat('\\', run); Arguments(bs + ([c] + e), true, arg, true) == Arguments(e, true, arg + bs + [c], true)
  {
    hide Arguments, Repeat;
    assert ([c] + e)[1..] == e;
    OrdinaryRun([c] + e, arg, run);
  }

  lemma NoRun(s: bytes)
    ensures Repeat('\\', 0) + s == s && s + Repeat('\\', 0) == s
  {
  }

  /** Inside quotation marks an escaped argument is read as it was, up to the closing mark. */
  lemma {:induction false} EscapedRead(x: bytes, run: nat, r: bytes, arg: bytes)
    ensures Arguments(Repeat('\\', run) + (Escaped(x, run) + ("\"" + r)), true, arg, true) ==
            Arguments(r, false, arg + Repeat('\\', run) + x, true)
    decreases |x|
  {
    hide Arguments, Repeat;
    var bs, end := Repeat('\\', run), "\"" + r;
    if x == [] {
      AtEnd(run, r, arg);
      assert arg + bs + x == arg + bs;
    } else {
      var c, rest := x[0], x[1..];
      assert arg + bs + x == arg + bs + [c] + rest;
      if c == '\\' {
        var more := Escaped(rest, run + 1) + end;
        RunsAdd(run, 0, c);
        assert bs + (([c] + Escaped(rest, run + 1)) + end) == (bs + [c]) + more;
        EscapedRead(rest, run + 1, r, arg);
        assert arg + (bs + [c]) == arg + bs + [c];
      } else {
        var more := Escaped(rest, 0) + end;
        EscapedRead(rest, 0, r, arg + bs + [c]);
        NoRun(more);
        NoRun(arg + bs + [c]);
        if c == '"' {
          assert (Repeat('\\', run + 1) + ([c] + Escaped(rest, 0))) + end == Repeat('\\', run + 1) + ([c] + more);
          AtMark(run, more, arg);
        } else {
          assert ([c] + Escaped(rest, 0)) + end == [c] + more;
          AtOther(run, c, more, arg);
        }
      }
    }
  }

  /** Backslashes before an ordinary character. */
  lemma OrdinaryRun(t: bytes, arg: bytes, k: nat)
    requires t != [] && t[0] != '\\' && t[0] != '"'
    ensures Arguments(Repeat('\\', k) + t, true, arg, true) == Arguments(t[1..], true, arg + Repeat('\\', k) + [t[0]], true)
  {
    hide Arguments;
    RunEnds(t, true, arg, k, true);
    ArgumentsStep(t, true, arg + Repeat('\\', k), true);
    if k == 0 {
      assert Repeat('\\', k) + t == t && arg + Repeat('\\', k) == arg;
    }
  }

  lemma QuotedRead(x: bytes, r: bytes)
    ensures Arguments(Quoted(x) + r, false, [], false) == Arguments(r, false, x, true)
  {
    hide Arguments, Escaped;
    var inner := Escaped(x, 0) + ("\"" + r);
    var t := "\"" + inner;
    assert Quoted(x) + r == t && t[1..] == inner;
    assert Repeat('\\', 0) + t == t && [] + Repeat('\\', 0) == [];
    RunEnds(t, false, [], 0, false);
    EscapedRead(x, 0, r, []);
    assert Repeat('\\', 0) + inner == inner && [] + Repeat('\\', 0) + x == x;
  }

  /** The arguments of a joined command line are the ones that were joined, whatever characters are in them. */
  lemma {:induction false} QuotingRoundTrip(args: seq<bytes>)
    ensures Arguments(Joined(args), false, [], false) == args
  {
    hide Arguments, Quoted, SkipBlanks;
    if args == [] {
      ArgumentsStep([], false, [], false);
    } else if |args| == 1 {
      assert Quoted(args[0]) + [] == Quoted(args[0]);
      QuotedRead(args[0], []);
      ArgumentsStep([], false, args[0], true);
      assert args == [args[0]];
    } else {
      var rest := Joined(args[1..]);
      QuotedRead(args[0], " " + rest);
      ArgumentsStep(" " + rest, false, args[0], true);
      BlankSkipped(args[1..]);
      QuotingRoundTrip(args[1..]);
    }
  }

  lemma BlankSkipped(args: seq<bytes>)
    requires args != []
    ensures SkipBlanks(" " + Joined(args)) == Joined(args)
  {
    hide Escaped;
    var s := Joined(args);
    assert s[0] == '"';
    assert (" " + s)[1..] == s;
  }

  /** Without quotation marks, words of ordinary characters and backslashes are the arguments. */
  predicate Word(x: bytes) {
    x != [] && forall i :: 0 <= i < |x| ==> x[i] != '"' && !IsBlank(x[i])
  }

  /** A word is taken as it is. */
  lemma {:induction false} WordRead(x: bytes, r: bytes, arg: bytes)
    requires forall i :: 0 <= i < |x| ==> x[i] != '"' && !IsBlank(x[i])
    requires r == [] || IsBlank(r[0])
    ensures Arguments(x + r, false, arg, true) == Arguments(r, false, arg + x, true)
    decreases |x|
  {
    hide Arguments;
    var k := Backslashes(x);
    if x == [] {
      assert x + r == r && arg + x == arg;
    } else if k == |x| {
      assert x == Repeat('\\', k);
      RunEnds(r, false, arg, k, true);
    } else {
      var t, rest := x[k..] + r, x[k + 1..];
      assert x == Repeat('\\', k) + [x[k]] + rest;
      assert x + r == Repeat('\\', k) + t && t[1..] == rest + r;
      RunEnds(t, false, arg, k, true);
      assert k == 0 ==> x + r == t && arg + Repeat('\\', k) == arg;
      ArgumentsStep(t, false, arg + Repeat('\\', k), true);
      WordRead(rest, r, arg + Repeat('\\', k) + [x[k]]);
      assert arg + Repeat('\\', k) + [x[k]] + rest == arg + x;
    }
  }

  /** Words separated by a blank or more. */
  function Words(args: seq<bytes>, blanks: nat -> nat): bytes {
    if args == [] then []
    else if |args| == 1 then args[0]
    else args[0] + (Repeat(' ', 1 + blanks(|args|)) + Words(args[1..], blanks))
  }

  lemma {:induction false} WordsAreArguments(args: seq<bytes>, blanks: nat -> nat)
    requires forall i :: 0 <= i < |args| ==> Word(args[i])
    ensures Arguments(Words(args, blanks), false, [], false) == args
  {
    hide Arguments, SkipBlanks;
    if args == [] {
      ArgumentsStep([], false, [], false);
    } else {
      var x := args[0];
      assert Word(x);
      var r := if |args| == 1 then [] else Repeat(' ', 1 + blanks(|args|)) + Words(args[1..], blanks);
      assert Words(args, blanks) == x + r;
      FirstWord(x, r);
      if |args| == 1 {
        assert args == [x];
      } else {
        WordsAreArguments(args[1..], blanks);
        assert Word(args[1]);
        WordsStart(args[1..], blanks);
        RepeatSkipped(1 + blanks(|args|), Words(args[1..], blanks));
      }
    }
  }

  lemma FirstWord(x: bytes, r: bytes)
    requires Word(x) && (r == [] || IsBlank(r[0]))
    ensures Arguments(x + r, false, [], false) == [x] + if r == [] then [] else Arguments(SkipBlanks(r), false, [], false)
  {
    hide Arguments, SkipBlanks;
    assert (x + r)[0] == x[0];
    ArgumentsStep(x + r, false, [], false);
    WordRead(x, r, []);
    assert [] + x == x;
    ArgumentsStep(r, false, x, true);
  }

  lemma WordsStart(args: seq<bytes>, blanks: nat -> nat)
    requires args != [] && Word(args[0])
    ensures var s := Words(args, blanks); s != [] && !IsBlank(s[0])
  {
  }

  lemma {:induction false} RepeatSkipped(n: nat, s: bytes)
    requires s != [] && !IsBlank(s[0])
    ensures SkipBlanks(Repeat(' ', n) + s) == s
  {
    var t := Repeat(' ', n) + s;
    if n == 0 {
      assert t == s;
    } else {
      assert t[1..] == Repeat(' ', n - 1) + s;
      RepeatSkipped(n - 1, s);
    }
  }
}
