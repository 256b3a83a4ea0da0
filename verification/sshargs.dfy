/** Finding the destination on the command line of a running ssh client. */
module SshArgs {
  import opened Wrappers
  import opened HostNames

  /** Options whose value is the next argument when they stand alone. */
  predicate TakesValue(arg: string) {
    arg in {
      "-b", "-c", "-D", "-E", "-e", "-F", "-I", "-i", "-J", "-L",
      "-l", "-m", "-O", "-o", "-p", "-Q", "-R", "-S", "-W", "-w"
    }
  }

  predicate IsDashed(arg: string) {
    arg != "" && arg[0] == '-'
  }

  /** The scan as a function: options are skipped with their values until a destination or "--". */
  function Destination(args: seq<string>): Option<string> {
    if args == [] then None
    else if args[0] == "--" then AfterDashes(args[1..])
    else if IsDashed(args[0]) then
      if !TakesValue(args[0]) then Destination(args[1..])
      else if |args| == 1 then None
      else Destination(args[2..])
    else Some(args[0])
  }

  /** After "--" the first argument without a dash is the destination. */
  function AfterDashes(args: seq<string>): Option<string> {
    if args == [] then None
    else if IsDashed(args[0]) then AfterDashes(args[1..])
    else Some(args[0])
  }

  function Normalized(destination: Option<string>): Option<string> {
    match destination
    case None => None
    case Some(d) => NormalizeSshHost(d)
  }

  method ExtractSshDestinationHost(args: seq<string>) returns (host: Option<string>)
    ensures host == Normalized(Destination(args))
  {
    var idx := 0;
    var dashes := false;
    while idx < |args|
      invariant 0 <= idx
      invariant Destination(args) == if idx <= |args| then Destination(args[idx..]) else None
    {
      var arg := args[idx];
      assert args[idx..][0] == arg && args[idx..][1..] == args[idx + 1..];
      assert idx + 2 <= |args| ==> args[idx..][2..] == args[idx + 2..];
      if arg == "--" {
        idx := idx + 1;
        dashes := true;
        break;
      }
      if IsDashed(arg) {
        var short := arg[..if |arg| < 2 then |arg| else 2];
        assert |arg| == 2 ==> short == arg;
        var consumesNext := TakesValue(arg) || (|arg| == 2 && TakesValue(short));
        idx := idx + if consumesNext then 2 else 1;
        continue;
      }
      return NormalizeSshHost(arg);
    }
    while idx < |args|
      invariant 0 <= idx
      invariant dashes ==> idx <= |args| && Destination(args) == AfterDashes(args[idx..])
      invariant !dashes ==> idx >= |args| && Destination(args) == None
    {
      var arg := args[idx];
      assert args[idx..][0] == arg && args[idx..][1..] == args[idx + 1..];
      if !IsDashed(arg) {
        return NormalizeSshHost(arg);
      }
      idx := idx + 1;
    }
    return None;
  }

  // ----- The grammar of command lines ------------------------------------------------------

  /** A flag or an option with its value inline is one argument; a listed option alone is two. */
  datatype Opt =
    | Single(arg: string)
    | Separate(name: string, value: string)

  predicate ValidOpt(o: Opt) {
    match o
    case Single(arg) => IsDashed(arg) && arg != "--" && !TakesValue(arg)
    case Separate(name, _) => TakesValue(name)
  }

  /** What follows the options. */
  datatype Tail =
    | Nothing
    | Dangling(name: string)                                  // a listed option without its value
    | Plain(destination: string, command: seq<string>)
    | Dashes(skipped: seq<string>)                            // "--" and no destination
    | DashesThen(skippedBefore: seq<string>, target: string, rest: seq<string>)

  predicate AllDashed(args: seq<string>) {
    forall i :: 0 <= i < |args| ==> IsDashed(args[i])
  }

  predicate ValidTail(t: Tail) {
    match t
    case Nothing => true
    case Dangling(name) => TakesValue(name)
    case Plain(d, _) => !IsDashed(d)
    case Dashes(skipped) => AllDashed(skipped)
    case DashesThen(skipped, d, _) => AllDashed(skipped) && !IsDashed(d)
  }

  datatype CommandLine = CommandLine(opts: seq<Opt>, tail: Tail)

  predicate ValidLine(c: CommandLine) {
    (forall i :: 0 <= i < |c.opts| ==> ValidOpt(c.opts[i])) && ValidTail(c.tail)
  }

  function RenderOpt(o: Opt): seq<string> {
    match o
    case Single(arg) => [arg]
    case Separate(name, value) => [name, value]
  }

  function RenderTail(t: Tail): seq<string> {
    match t
    case Nothing => []
    case Dangling(name) => [name]
    case Plain(d, command) => [d] + command
    case Dashes(skipped) => ["--"] + skipped
    case DashesThen(skipped, d, rest) => ["--"] + skipped + [d] + rest
  }

  function Render(c: CommandLine): seq<string>
    decreases c.opts
  {
    if c.opts == [] then RenderTail(c.tail)
    else RenderOpt(c.opts[0]) + Render(c.(opts := c.opts[1..]))
  }

  function Target(t: Tail): Option<string> {
    match t
    case Plain(d, _) => Some(d)
    case DashesThen(_, d, _) => Some(d)
    case _ => None
  }

  lemma {:induction false} SkipDashed(skipped: seq<string>, rest: seq<string>)
    requires AllDashed(skipped)
    ensures AfterDashes(skipped + rest) == AfterDashes(rest)
    decreases skipped
  {
    if skipped == [] {
      assert skipped + rest == rest;
    } else {
      assert (skipped + rest)[1..] == skipped[1..] + rest;
      SkipDashed(skipped[1..], rest);
    }
  }

  lemma DashedOptions(arg: string)
    requires TakesValue(arg)
    ensures IsDashed(arg) && arg != "--"
  {
  }

  lemma DanglingFound(name: string)
    requires TakesValue(name)
    ensures Destination([name]) == None
  {
    DashedOptions(name);
  }

  lemma DashesFound(skipped: seq<string>, rest: seq<string>)
    requires AllDashed(skipped)
    ensures Destination(["--"] + skipped + rest) == AfterDashes(rest)
  {
    assert (["--"] + skipped + rest)[1..] == skipped + rest;
    SkipDashed(skipped, rest);
  }

  lemma TailFound(t: Tail)
    requires ValidTail(t)
    ensures Destination(RenderTail(t)) == Target(t)
  {
    match t {
      case Nothing =>
      case Dangling(name) => DanglingFound(name);
      case Plain(d, command) =>
      case Dashes(skipped) =>
        DashesFound(skipped, []);
        assert ["--"] + skipped + [] == ["--"] + skipped;
      case DashesThen(skipped, d, rest) =>
        DashesFound(skipped, [d] + rest);
        assert ["--"] + skipped + ([d] + rest) == ["--"] + skipped + [d] + rest;
    }
  }

  /**
   The scan undoes rendering: whatever options and values come first, the
   destination of the command line is found, and there is none iff it has none.
   */
  lemma {:induction false} DestinationUndoesRender(c: CommandLine)
    requires ValidLine(c)
    ensures Destination(Render(c)) == Target(c.tail)
    decreases c.opts
  {
    if c.opts == [] {
      TailFound(c.tail);
    } else {
      var rest := c.(opts := c.opts[1..]);
      assert ValidOpt(c.opts[0]);
      assert ValidLine(rest);
      DestinationUndoesRender(rest);
      match c.opts[0] {
        case Single(arg) => assert Render(c)[1..] == Render(rest);
        case Separate(name, value) =>
          DashedOptions(name);
          assert Render(c)[2..] == Render(rest);
      }
    }
  }

  /** Splits what follows "--" at the first argument without a dash. */
  lemma {:induction false} SplitDashed(args: seq<string>) returns (skipped: seq<string>, rest: seq<string>)
    ensures AllDashed(skipped) && skipped + rest == args
    ensures rest == [] || !IsDashed(rest[0])
    decreases args
  {
    if args == [] || !IsDashed(args[0]) {
      skipped, rest := [], args;
    } else {
      var more;
      more, rest := SplitDashed(args[1..]);
      skipped := [args[0]] + more;
    }
  }

  lemma DashesParse(args: seq<string>) returns (t: Tail)
    ensures ValidTail(t) && RenderTail(t) == ["--"] + args
  {
    var skipped, rest := SplitDashed(args);
    if rest == [] {
      t := Dashes(skipped);
    } else {
      t := DashesThen(skipped, rest[0], rest[1..]);
      assert [rest[0]] + rest[1..] == rest;
    }
  }

  /** Every argument list is the rendering of some command line of the grammar. */
  lemma {:induction false} EveryLineParses(args: seq<string>) returns (c: CommandLine)
    ensures ValidLine(c) && Render(c) == args
    decreases args
  {
    if args == [] {
      c := CommandLine([], Nothing);
    } else if args[0] == "--" {
      var t := DashesParse(args[1..]);
      c := CommandLine([], t);
      assert ["--"] + args[1..] == args;
    } else if !IsDashed(args[0]) {
      c := CommandLine([], Plain(args[0], args[1..]));
      assert [args[0]] + args[1..] == args;
    } else if !TakesValue(args[0]) {
      var rest := EveryLineParses(args[1..]);
      c := Prepend(Single(args[0]), rest);
      assert [args[0]] + args[1..] == args;
    } else if |args| == 1 {
      c := CommandLine([], Dangling(args[0]));
    } else {
      var rest := EveryLineParses(args[2..]);
      c := Prepend(Separate(args[0], args[1]), rest);
      assert [args[0], args[1]] + args[2..] == args;
    }
  }

  lemma Prepend(o: Opt, rest: CommandLine) returns (c: CommandLine)
    requires ValidOpt(o) && ValidLine(rest)
    ensures ValidLine(c) && c.tail == rest.tail && Render(c) == RenderOpt(o) + Render(rest)
  {
    c := rest.(opts := [o] + rest.opts);
    assert c.opts[1..] == rest.opts;
  }

  /**
   A complete account of the scan: an argument list names a host iff it can be
   read as options followed by a destination, and every reading agrees.
   */
  lemma DestinationIffParse(args: seq<string>, d: string)
    ensures Destination(args) == Some(d) <==>
      exists c :: ValidLine(c) && Render(c) == args && Target(c.tail) == Some(d)
    ensures forall c :: ValidLine(c) && Render(c) == args ==> Target(c.tail) == Destination(args)
  {
    forall c | ValidLine(c) && Render(c) == args
      ensures Target(c.tail) == Destination(args)
    {
      DestinationUndoesRender(c);
    }
    var c := EveryLineParses(args);
    assert ValidLine(c) && Render(c) == args;
  }

  /**
   Scan and normaliser together: whatever options precede it and words follow it,
   a destination decorated with quotes, a user, blanks and a port yields its bare host.
   */
  lemma DecoratedDestinationFound(c: CommandLine, left: string, user: Option<string>, before: string, host: string,
                                  after: string, port: Option<string>, right: string)
    requires ValidLine(c)
    requires AllQuotes(left) && AllQuotes(right) && AllBlank(before) && AllBlank(after)
    requires Canonical(Lower(host)) && (port.Some? ==> AllDigits(port.value))
    requires Target(c.tail) == Some(left + WithUser(user, HostPort(before + host + after, port)) + right)
    ensures Normalized(Destination(Render(c))) == Some(Lower(host))
  {
    DestinationUndoesRender(c);
    NormalizeUndecorates(left, user, before, host, after, port, right);
  }

  // ----- The options, letter by letter -------------------------------------------------------

  /**
   A one-letter option takes the next argument as its value exactly when its letter
   is one of the twenty; after any other letter, and after "--", that argument is
   the destination.
   */
  lemma OneLetterOption(c: char, value: string, d: string)
    requires d == "" || d[0] != '-'
    ensures c in "bcDEeFIiJLlmOopQRSWw" ==>
      Destination(["-" + [c], value, d]) == Some(d) && Destination(["-" + [c]]) == None
    ensures c !in "bcDEeFIiJLlmOopQRSWw" && (value == "" || value[0] != '-') ==>
      Destination(["-" + [c], value, d]) == Some(value)
  {
    var args := ["-" + [c], value, d];
    assert args[1..] == [value, d] && args[2..] == [d] && [d][0] == d;
    assert ("-" + [c])[0] == '-' && ("-" + [c])[1] == c;
    ShortOptions(c);
    assert "-" + [c] == "--" <==> c == '-' by {
      assert "--"[1] == '-';
    }
  }

  lemma ShortOptions(c: char)
    ensures TakesValue("-" + [c]) <==> c in "bcDEeFIiJLlmOopQRSWw"
  {
    var arg := "-" + [c];
    assert forall o :: TakesValue(o) && o == arg ==> o[1] == c;
    if c in "bcDEeFIiJLlmOopQRSWw" {
      assert arg == ['-', c];
    }
  }

  /** An option of more than one letter, or with its value inline, and a lone dash stand for themselves. */
  lemma LongerOption(arg: string, d: string)
    requires arg != "" && arg[0] == '-' && |arg| != 2 && (d == "" || d[0] != '-')
    ensures Destination([arg, d]) == Some(d)
  {
    assert [arg, d][1..] == [d];
    assert !TakesValue(arg) && arg != "--";
  }

  /** After "--" every argument with a dash is skipped, one-letter options with a value included. */
  lemma AfterDashesNothingTakesValues(arg: string, d: string)
    requires arg != "" && arg[0] == '-' && (d == "" || d[0] != '-')
    ensures Destination(["--", arg, d]) == Some(d)
  {
    assert ["--", arg, d][1..] == [arg, d] && [arg, d][1..] == [d];
    assert AfterDashes([arg, d]) == AfterDashes([d]) == Some(d);
  }
}
