/** Joining arguments into one Windows command line (cli/src/elevate.rs), against
    the splitter that stands for how Windows takes it apart again. */
module Quoting {
  import opened Text

  predicate IsSpecial(c: char) {
    c == ' ' || c == '\t' || c == '"' || c == '\\'
  }

  predicate IsPlain(arg: string) {
    arg != [] && forall i :: 0 <= i < |arg| ==> !IsSpecial(arg[i])
  }

  /** What is written for one character when `pending` backslashes have just
      been written: a quote is escaped, and the backslashes before it doubled. */
  function EscapeOf(c: char, pending: nat): string {
    if c == '"' then Repeat('\\', pending + 1) + ['"'] else [c]
  }

  /** What remains to be written of a quoted argument: the rest of it, escaped,
      and the closing quote, with the backslashes before that doubled too. */
  function Escaped(arg: string, pending: nat): string {
    if arg == [] then Repeat('\\', pending) + ['"']
    else EscapeOf(arg[0], pending) + Escaped(arg[1..], if arg[0] == '\\' then pending + 1 else 0)
  }

  function Quoted(arg: string): string {
    if IsPlain(arg) then arg else ['"'] + Escaped(arg, 0)
  }

  /** Every argument quoted, with a space between one and the next. */
  function Joined(args: seq<string>): string {
    if args == [] then [] else Quoted(args[0]) + Following(args[1..])
  }

  function Following(args: seq<string>): string {
    if args == [] then [] else [' '] + Quoted(args[0]) + Following(args[1..])
  }

  method Quote(arg: string) returns (out: string)
    ensures out == Quoted(arg)
  {
    if arg != [] && forall i :: 0 <= i < |arg| ==> !IsSpecial(arg[i]) {
      return arg;
    }
    out := ['"'];
    var backslashes := 0;
    for i := 0 to |arg|
      invariant out + Escaped(arg[i..], backslashes) == ['"'] + Escaped(arg, 0)
    {
      var c := arg[i];
      assert arg[i..][1..] == arg[i + 1..];
      Regroup(out, EscapeOf(c, backslashes), Escaped(arg[i + 1..], if c == '\\' then backslashes + 1 else 0));
      if c == '\\' {
        backslashes := backslashes + 1;
        out := out + [c];
      } else if c == '"' {
        Regroup(out, Repeat('\\', backslashes + 1), ['"']);
        out := out + Repeat('\\', backslashes + 1);
        out := out + ['"'];
        backslashes := 0;
      } else {
        backslashes := 0;
        out := out + [c];
      }
    }
    Regroup(out, Repeat('\\', backslashes), ['"']);
    out := out + Repeat('\\', backslashes);
    out := out + ['"'];
  }

  method JoinArgs(args: seq<string>) returns (line: string)
    ensures line == Joined(args)
  {
    if args == [] {
      return [];
    }
    line := Quote(args[0]);
    for i := 1 to |args|
      invariant line + Following(args[i..]) == Joined(args)
    {
      var quoted := Quote(args[i]);
      ghost var rest := Following(args[i + 1..]);
      assert args[i..][1..] == args[i + 1..];
      Regroup(line, [' '] + quoted, rest);
      Regroup(line, [' '], quoted);
      line := line + [' '] + quoted;
    }
  }

  // The splitter

  /** Where the splitter stands after some of the line: the arguments ended, what
      it has gathered of the one being read, whether it is inside quotes,
      whether a quote has already made it an argument even if nothing is in it,
      and how many backslashes it has just passed whose meaning still depends
      on what follows them. */
  datatype Splitter = Splitter(args: seq<string>, current: string, inQuotes: bool, started: bool, slashes: nat)

  const Start := Splitter([], [], false, false, 0)

  function WithSlashes(current: string, n: nat): string {
    if n == 0 then current else current + Repeat('\\', n)
  }

  /** The pending backslashes taken as themselves. */
  function Settled(s: Splitter): Splitter {
    s.(current := WithSlashes(s.current, s.slashes), slashes := 0)
  }

  function Ended(s: Splitter): Splitter {
    if s.started || s.current != [] then s.(args := s.args + [s.current], current := [], started := false) else s
  }

  /** Backslashes before a quote stand for half as many, and an odd one makes the
      quote literal; anywhere else they stand for themselves. Outside quotes a
      space or a tab ends the argument. */
  function Step(s: Splitter, c: char): Splitter {
    if c == '\\' then s.(slashes := s.slashes + 1)
    else if c == '"' then
      var halved := s.(current := WithSlashes(s.current, s.slashes / 2), slashes := 0);
      if s.slashes % 2 == 1 then halved.(current := halved.current + ['"'])
      else halved.(inQuotes := !s.inQuotes, started := true)
    else if (c == ' ' || c == '\t') && !s.inQuotes then Ended(Settled(s))
    else Settled(s).(current := Settled(s).current + [c])
  }

  function Finish(s: Splitter): seq<string> {
    Ended(Settled(s)).args
  }

  /** The arguments of a line read from offset `i` on. */
  function ReadFrom(line: string, i: nat, s: Splitter): seq<string>
    requires i <= |line|
    decreases |line| - i
  {
    if i == |line| then Finish(s) else ReadFrom(line, i + 1, Step(s, line[i]))
  }

  function SplitArgs(line: string): seq<string> {
    ReadFrom(line, 0, Start)
  }

  /** Once a run of backslashes is over, what it means is settled by the next
      character, and it can be taken at that at once. */
  lemma RunIsOver(line: string, i: nat, s: Splitter)
    requires i <= |line| && (i < |line| ==> line[i] != '\\')
    ensures var quote := i < |line| && line[i] == '"';
            var n := if quote then s.slashes / 2 else s.slashes;
            (quote ==> s.slashes % 2 == 0) ==>
              ReadFrom(line, i, s) == ReadFrom(line, i, s.(current := WithSlashes(s.current, n), slashes := 0))
  {
  }

  method Split(line: string) returns (args: seq<string>)
    ensures args == SplitArgs(line)
  {
    args := [];
    var current: string := [];
    var inQuotes, started := false, false;
    var i := 0;
    while i < |line|
      invariant i <= |line|
      invariant ReadFrom(line, i, Splitter(args, current, inQuotes, started, 0)) == SplitArgs(line)
    {
      var c := line[i];
      i := i + 1;
      if c == '\\' {
        var slashes := 1;
        while i < |line| && line[i] == '\\'
          invariant i <= |line|
          invariant ReadFrom(line, i, Splitter(args, current, inQuotes, started, slashes)) == SplitArgs(line)
        {
          i := i + 1;
          slashes := slashes + 1;
        }
        RunIsOver(line, i, Splitter(args, current, inQuotes, started, slashes));
        if i < |line| && line[i] == '"' {
          current := WithSlashes(current, slashes / 2);
          if slashes % 2 == 1 {
            i := i + 1;
            current := current + ['"'];
          }
        } else {
          current := WithSlashes(current, slashes);
        }
      } else if c == '"' {
        inQuotes := !inQuotes;
        started := true;
      } else if (c == ' ' || c == '\t') && !inQuotes {
        if started || current != [] {
          args := args + [current];
          current := [];
          started := false;
        }
      } else {
        current := current + [c];
      }
    }
    if started || current != [] {
      args := args + [current];
    }
  }

  // Round trip

  /** Where the splitter stands after all of `text`. */
  function After(s: Splitter, text: string): Splitter {
    if text == [] then s else Step(After(s, text[..|text| - 1]), text[|text| - 1])
  }

  lemma {:induction false} AfterBoth(s: Splitter, a: string, b: string)
    ensures After(s, a + b) == After(After(s, a), b)
  {
    if b == [] {
      assert a + b == a;
    } else {
      assert (a + b)[..|a + b| - 1] == a + b[..|b| - 1];
      AfterBoth(s, a, b[..|b| - 1]);
    }
  }

  lemma AfterOne(s: Splitter, c: char)
    ensures After(s, [c]) == Step(s, c)
  {
    assert [c][..0] == [];
  }

  lemma {:induction false} ReadIsAfter(line: string, i: nat, s: Splitter)
    requires i <= |line| && s == After(Start, line[..i])
    ensures ReadFrom(line, i, s) == Finish(After(Start, line))
    decreases |line| - i
  {
    if i == |line| {
      assert line[..i] == line;
    } else {
      assert line[..i + 1][..i] == line[..i];
      ReadIsAfter(line, i + 1, Step(s, line[i]));
    }
  }

  lemma {:induction false} AfterRun(s: Splitter, n: nat)
    ensures After(s, Repeat('\\', n)) == s.(slashes := s.slashes + n)
  {
    if n > 0 {
      assert Repeat('\\', n)[..n - 1] == Repeat('\\', n - 1);
      AfterRun(s, n - 1);
    }
  }

  /** After a run of backslashes and a quote. */
  lemma AfterRunAndQuote(s: Splitter, n: nat)
    ensures After(s, Repeat('\\', n) + ['"']) == Step(s.(slashes := s.slashes + n), '"')
  {
    AfterBoth(s, Repeat('\\', n), ['"']);
    AfterRun(s, n);
    AfterOne(s.(slashes := s.slashes + n), '"');
  }

  lemma AfterFirst(s: Splitter, c: char, rest: string)
    ensures After(s, [c] + rest) == After(Step(s, c), rest)
  {
    AfterBoth(s, [c], rest);
    AfterOne(s, c);
  }

  lemma Gathered(current: string, arg: string, pending: nat)
    requires arg != []
    ensures WithSlashes(current, pending) + [arg[0]] + arg[1..] == WithSlashes(current, pending) + arg
    ensures arg[0] == '\\' ==> WithSlashes(current, pending + 1) + arg[1..] == WithSlashes(current, pending) + arg
  {
    if arg[0] == '\\' {
      assert WithSlashes(current, pending + 1) == WithSlashes(current, pending) + ['\\'];
    }
  }

  /** Where one character of the argument leaves the splitter, read back from
      however many characters escape it. */
  function AfterChar(s: Splitter, c: char): Splitter {
    if c == '\\' then s.(slashes := s.slashes + 1)
    else s.(current := WithSlashes(s.current, s.slashes) + [c], slashes := 0)
  }

  lemma AfterEscapeOf(s: Splitter, c: char)
    requires s.inQuotes && s.started
    ensures After(s, EscapeOf(c, s.slashes)) == AfterChar(s, c)
  {
    if c == '"' {
      AfterRunAndQuote(s, s.slashes + 1);
    } else {
      AfterOne(s, c);
    }
  }

  lemma AfterClosing(s: Splitter)
    requires s.inQuotes && s.started
    ensures After(s, Escaped([], s.slashes))
         == s.(current := WithSlashes(s.current, s.slashes) + [], inQuotes := false, slashes := 0)
  {
    AfterRunAndQuote(s, s.slashes);
    assert WithSlashes(s.current, s.slashes) + [] == WithSlashes(s.current, s.slashes);
  }

  /** Reading back what `Escaped` wrote gathers exactly the argument, the
      backslashes already passed included, and leaves the quotes. */
  lemma {:induction false} AfterEscaped(s: Splitter, arg: string)
    requires s.inQuotes && s.started
    ensures After(s, Escaped(arg, s.slashes))
         == s.(current := WithSlashes(s.current, s.slashes) + arg, inQuotes := false, slashes := 0)
    decreases |arg|
  {
    if arg == [] {
      AfterClosing(s);
    } else {
      var next := AfterChar(s, arg[0]);
      AfterBoth(s, EscapeOf(arg[0], s.slashes), Escaped(arg[1..], next.slashes));
      AfterEscapeOf(s, arg[0]);
      AfterEscaped(next, arg[1..]);
      Gathered(s.current, arg, s.slashes);
    }
  }

  lemma {:induction false} AfterPlain(s: Splitter, arg: string)
    requires s.slashes == 0 && forall i :: 0 <= i < |arg| ==> !IsSpecial(arg[i])
    ensures After(s, arg) == s.(current := s.current + arg)
  {
    if arg == [] {
      assert s.current + arg == s.current;
    } else {
      AfterPlain(s, arg[..|arg| - 1]);
      assert s.current + arg[..|arg| - 1] + [arg[|arg| - 1]] == s.current + arg;
    }
  }

  /** One quoted argument is read back whole, and counts as one even if empty. */
  lemma AfterQuoted(args: seq<string>, arg: string)
    ensures After(Start.(args := args), Quoted(arg)) == Splitter(args, arg, false, !IsPlain(arg), 0)
  {
    var s := Start.(args := args);
    if IsPlain(arg) {
      AfterPlain(s, arg);
      assert [] + arg == arg;
    } else {
      AfterFirst(s, '"', Escaped(arg, 0));
      AfterEscaped(Step(s, '"'), arg);
      assert [] + arg == arg;
    }
  }

  lemma AfterNext(done: seq<string>, current: string, started: bool, arg: string, rest: string)
    requires started || current != []
    ensures After(Splitter(done, current, false, started, 0), [' '] + Quoted(arg) + rest)
         == After(Splitter(done + [current], arg, false, !IsPlain(arg), 0), rest)
  {
    var s := Splitter(done, current, false, started, 0);
    AfterBoth(s, [' '] + Quoted(arg), rest);
    AfterFirst(s, ' ', Quoted(arg));
    AfterQuoted(done + [current], arg);
  }

  lemma {:induction false} AfterFollowing(args: seq<string>, done: seq<string>, current: string, started: bool)
    requires started || current != []
    ensures Finish(After(Splitter(done, current, false, started, 0), Following(args))) == done + [current] + args
    decreases |args|
  {
    if args != [] {
      AfterNext(done, current, started, args[0], Following(args[1..]));
      AfterFollowing(args[1..], done + [current], args[0], !IsPlain(args[0]));
      Peel(done + [current], args);
    } else {
      assert done + [current] + args == done + [current];
    }
  }

  /** Splitting the joined command line gives back exactly the arguments. */
  lemma RoundTrip(args: seq<string>)
    ensures SplitArgs(Joined(args)) == args
  {
    ReadIsAfter(Joined(args), 0, Start);
    if args != [] {
      AfterBoth(Start, Quoted(args[0]), Following(args[1..]));
      AfterQuoted([], args[0]);
      AfterFollowing(args[1..], [], args[0], !IsPlain(args[0]));
      Peel([], args);
      assert [] + args == args;
    }
  }

  /** So two different argument lists never share a command line. */
  lemma JoinedInjective(a: seq<string>, b: seq<string>)
    requires Joined(a) == Joined(b)
    ensures a == b
  {
    RoundTrip(a);
    RoundTrip(b);
  }

  /** The program's own round trip: what `JoinArgs` writes, `Split` reads. */
  method JoinThenSplit(args: seq<string>) returns (back: seq<string>)
    ensures back == args
  {
    var line := JoinArgs(args);
    back := Split(line);
    RoundTrip(args);
  }
}
