/** Response files on the command line: splitting a file into arguments, and replacing arguments by the arguments
    of the files they name (client/argv.c). */
module Argv {
  import opened Common

  // ---------------------------------------------------------------- splitting

  predicate IsSpace(c: char) {
    c == ' ' || c == '\t' || c == '\n' || c == '\r' || c as int == 11 || c as int == 12
  }

  function SkipSpace(s: string): (r: string)
    ensures |r| <= |s| && (r != [] ==> !IsSpace(r[0]))
    ensures s != [] && !IsSpace(s[0]) ==> r == s
  {
    if s != [] && IsSpace(s[0]) then SkipSpace(s[1..]) else s
  }

  /** Inside single quotes, inside double quotes, behind a backslash. */
  datatype Quoting = Quoting(single: bool, double: bool, escaped: bool)

  const PLAIN := Quoting(false, false, false)

  /** What one character does: the new state and what it adds to the argument. */
  function Read(q: Quoting, c: char): (Quoting, string) {
    if q.escaped then (q.(escaped := false), [c])
    else if c == '\\' then (q.(escaped := true), [])
    else if q.single then (if c == '\'' then (q.(single := false), []) else (q, [c]))
    else if q.double then (if c == '"' then (q.(double := false), []) else (q, [c]))
    else if c == '\'' then (q.(single := true), [])
    else if c == '"' then (q.(double := true), [])
    else (q, [c])
  }

  /** One argument, up to a space outside quotes or the end, and what follows it. */
  function Scan(s: string, q: Quoting): (r: (string, string))
    ensures |r.1| <= |s| && (s != [] && !(IsSpace(s[0]) && q == PLAIN) ==> |r.1| < |s|)
    ensures r.1 != [] ==> IsSpace(r.1[0])
    ensures |r.0| + |r.1| <= |s|
  {
    if s == [] || (IsSpace(s[0]) && q == PLAIN) then ([], s)
    else
      var (q', out) := Read(q, s[0]);
      var (arg, rest) := Scan(s[1..], q');
      (out + arg, rest)
  }

  /** All arguments; even an empty string has one. */
  function Build(s: string): (args: seq<string>)
    ensures args != []
    decreases |s|
  {
    var s1 := SkipSpace(s);
    var (arg, rest) := Scan(s1, PLAIN);
    var s2 := SkipSpace(rest);
    if s2 == [] then [arg] else [arg] + Build(s2)
  }

  predicate OnlySpace(s: string) {
    s == [] || (IsSpace(s[0]) && OnlySpace(s[1..]))
  }

  method OnlyWhitespace(input: string) returns (only: bool)
    ensures only == OnlySpace(input)
  {
    var k := 0;
    assert input[0..] == input;
    while k < |input| && IsSpace(input[k])
      invariant k <= |input| && OnlySpace(input) == OnlySpace(input[k..])
    {
      k := k + 1;
    }
    return k == |input|;
  }

  /** An argument on its way out: every character behind a backslash, quotes for an empty one. */
  function Quoted(arg: string): string {
    if arg == [] then "''" else Escaped(arg)
  }

  function Escaped(arg: string): (r: string)
    ensures arg != [] ==> |r| >= 2 && r[0] == '\\'
  {
    if arg == [] then [] else ['\\', arg[0]] + Escaped(arg[1..])
  }

  function Print(args: seq<string>): (r: string)
    requires args != []
    ensures r != [] && !IsSpace(r[0])
  {
    if |args| == 1 then Quoted(args[0]) else Quoted(args[0]) + " " + Print(args[1..])
  }

  /** A backslash, and what follows one. */
  lemma ScanOne(s: string)
    requires s != [] && s[0] == '\\'
    ensures Scan(s, PLAIN) == Scan(s[1..], PLAIN.(escaped := true))
  {
    var r := Scan(s[1..], PLAIN.(escaped := true));
    assert [] + r.0 == r.0 && r == (r.0, r.1);
  }

  lemma ScanAny(s: string)
    requires s != []
    ensures Scan(s, PLAIN.(escaped := true)) == ([s[0]] + Scan(s[1..], PLAIN).0, Scan(s[1..], PLAIN).1)
  {
  }

  lemma ScanEnd(s: string)
    requires s == [] || IsSpace(s[0])
    ensures Scan(s, PLAIN) == ([], s)
  {
  }

  lemma {:induction false} ScanEscaped(arg: string, rest: string)
    requires rest == [] || IsSpace(rest[0])
    ensures Scan(Escaped(arg) + rest, PLAIN) == (arg, rest)
  {
    hide Scan, IsSpace, Escaped;
    EscapedFirst(arg, rest);
    if arg == [] {
      ScanEnd(rest);
    } else {
      ScanEscaped(arg[1..], rest);
      var s1 := [arg[0]] + (Escaped(arg[1..]) + rest);
      assert (['\\'] + s1)[1..] == s1 && s1[1..] == Escaped(arg[1..]) + rest;
      ScanOne(['\\'] + s1);
      ScanAny(s1);
      assert [arg[0]] + arg[1..] == arg;
    }
  }

  lemma EscapedFirst(arg: string, rest: string)
    ensures arg == [] ==> Escaped(arg) + rest == rest
    ensures arg != [] ==> Escaped(arg) + rest == ['\\'] + ([arg[0]] + (Escaped(arg[1..]) + rest))
  {
  }

  lemma ScanQuoted(arg: string, rest: string)
    requires rest == [] || IsSpace(rest[0])
    ensures Scan(Quoted(arg) + rest, PLAIN) == (arg, rest)
  {
    if arg == [] {
      var s := "''" + rest;
      assert s[1..] == "'" + rest && s[1..][1..] == rest;
      assert Scan(s[1..], PLAIN.(single := true)) == ([] + [], rest);
    } else {
      ScanEscaped(arg, rest);
    }
  }

  /** Splitting undoes the printer, for every list of arguments. */
  lemma {:induction false} BuildUndoesPrint(args: seq<string>)
    requires args != []
    ensures Build(Print(args)) == args
  {
    hide Scan, Quoted;
    var s := Print(args);
    if |args| == 1 {
      ScanQuoted(args[0], []);
      assert Quoted(args[0]) + [] == s;
      assert args == [args[0]];
    } else {
      var more := Print(args[1..]);
      ScanQuoted(args[0], " " + more);
      assert s == Quoted(args[0]) + (" " + more);
      assert (" " + more)[1..] == more;
      assert SkipSpace(" " + more) == more;
      BuildUndoesPrint(args[1..]);
      assert args == [args[0]] + args[1..];
    }
  }

  /** The arguments a vector holds before its terminating null. */
  predicate Vector(argv: array<Option<string>>, argc: nat)
    reads argv
  {
    argc < argv.Length && argv[argc] == None && forall k :: 0 <= k < argc ==> argv[k].Some?
  }

  function Args(argv: array<Option<string>>, argc: nat): (args: seq<string>)
    requires Vector(argv, argc)
    reads argv
    ensures |args| == argc && forall k :: 0 <= k < argc ==> Some(args[k]) == argv[k]
  {
    ArgsOf(argv[..argc])
  }

  function ArgsOf(v: seq<Option<string>>): (args: seq<string>)
    requires forall k :: 0 <= k < |v| ==> v[k].Some?
    ensures |args| == |v| && forall k :: 0 <= k < |v| ==> Some(args[k]) == v[k]
  {
    if v == [] then [] else [v[0].value] + ArgsOf(v[1..])
  }

  const INITIAL_MAXARGC := 8

  /** Makes room for one more argument and the null behind it; there is no vector before the first. */
  method Enlarge(argv: array<Option<string>>, argc: nat) returns (nargv: array<Option<string>>)
    requires argc > 0 ==> Vector(argv, argc)
    ensures Vector(nargv, argc) && argc + 1 < nargv.Length
    ensures nargv == argv || fresh(nargv)
    ensures argc > 0 ==> Args(nargv, argc) == old(Args(argv, argc))
    ensures argc == 0 ==> fresh(nargv)
  {
    nargv := argv;
    if argc == 0 || argc + 1 >= argv.Length {
      nargv := new Option<string>[if argc == 0 then INITIAL_MAXARGC else 2 * argv.Length](_ => None);
      forall k | 0 <= k < argc { nargv[k] := argv[k]; }
      if argc > 0 { assert Args(nargv, argc) == Args(argv, argc); }
    }
  }

  method ConsumeWhitespace(input: string, pos: nat) returns (next: nat)
    requires pos <= |input|
    ensures pos <= next <= |input| && input[next..] == SkipSpace(input[pos..])
  {
    next := pos;
    while next < |input| && IsSpace(input[next])
      invariant pos <= next <= |input| && SkipSpace(input[pos..]) == SkipSpace(input[next..])
    {
      next := next + 1;
    }
  }

  /** The inner loop of buildargv: one argument goes into the working buffer. */
  method ScanArg(input: string, pos: nat, copybuf: array<char>) returns (n: nat, next: nat)
    requires pos <= |input| && copybuf.Length == |input| + 1
    modifies copybuf
    ensures n <= |input| && pos <= next <= |input|
    ensures Scan(input[pos..], PLAIN) == (copybuf[..n], input[next..])
  {
    hide Scan;
    var squote, dquote, bsquote := false, false, false;
    n, next := 0, pos;
    ScanNothing(input);
    NothingYet(copybuf[..0], Scan(input[pos..], PLAIN));
    while next < |input|
      invariant pos <= next <= |input| && n <= next - pos
      invariant var r := Scan(input[next..], Quoting(squote, dquote, bsquote));
        Scan(input[pos..], PLAIN) == (copybuf[..n] + r.0, r.1)
    {
      var c := input[next];
      ScanStep(input, next, Quoting(squote, dquote, bsquote), copybuf[..n]);
      if IsSpace(c) && !squote && !dquote && !bsquote {
        break;
      }
      ghost var done := copybuf[..n];
      var keep := false;
      if bsquote {
        bsquote := false;
        keep := true;
      } else if c == '\\' {
        bsquote := true;
      } else if squote {
        if c == '\'' { squote := false; } else { keep := true; }
      } else if dquote {
        if c == '"' { dquote := false; } else { keep := true; }
      } else {
        if c == '\'' { squote := true; } else if c == '"' { dquote := true; } else { keep := true; }
      }
      if keep {
        copybuf[n] := c;
        n := n + 1;
      }
      assert copybuf[..n] == done + if keep then [c] else [];
      next := next + 1;
    }
    assert copybuf[..n] + [] == copybuf[..n];
  }

  lemma ScanNothing(input: string)
    ensures input[|input|..] == [] && forall q :: Scan([], q) == ([], [])
  {
  }

  lemma NothingYet(nothing: string, r: (string, string))
    requires nothing == []
    ensures r == (nothing + r.0, r.1)
  {
    assert nothing + r.0 == r.0;
    assert r == (r.0, r.1);
  }

  /** One more character of the argument. */
  lemma ScanStep(input: string, pos: nat, q: Quoting, done: string)
    requires pos < |input|
    ensures var r := Scan(input[pos..], q);
      if IsSpace(input[pos]) && q == PLAIN then r == ([], input[pos..])
      else
        var (q', out) := Read(q, input[pos]);
        var r' := Scan(input[pos + 1..], q');
        (done + r.0, r.1) == (done + out + r'.0, r'.1)
  {
    var (q', out) := Read(q, input[pos]);
    assert input[pos..][1..] == input[pos + 1..];
    var after := Scan(input[pos + 1..], q').0;
    assert done + (out + after) == done + out + after;
  }

  /** One more argument. */
  lemma BuildStep(s: string, before: seq<string>)
    ensures var (arg, rest) := Scan(SkipSpace(s), PLAIN);
      var s2 := SkipSpace(rest);
      before + Build(s) == before + [arg] + if s2 == [] then [] else Build(s2)
  {
    var (arg, rest) := Scan(SkipSpace(s), PLAIN);
    var s2 := SkipSpace(rest);
    assert before + ([arg] + Build(s2)) == before + [arg] + Build(s2);
    assert before + [arg] + [] == before + [arg];
  }

  /** buildargv: the vector grows by doubling, and every write stays inside it and inside the working buffer. */
  method BuildArgv(input: string) returns (argv: array<Option<string>>, argc: nat)
    ensures fresh(argv) && Vector(argv, argc) && Args(argv, argc) == Build(input)
  {
    var copybuf := new char[|input| + 1](_ => '\0');
    argv := new Option<string>[0];
    argc := 0;
    var pos := 0;
    var more := true;
    assert input[0..] == input;
    while more
      invariant pos <= |input| && fresh(argv) && fresh(copybuf) && copybuf.Length == |input| + 1
      invariant argc > 0 ==> Vector(argv, argc)
      invariant more ==> Build(input) == (if argc > 0 then Args(argv, argc) else []) + Build(input[pos..])
      invariant !more ==> argc > 0 && Build(input) == Args(argv, argc)
      decreases more, |input| - pos
    {
      argv, argc, pos, more := NextArg(input, pos, copybuf, argv, argc);
    }
  }

  method NextArg(input: string, pos: nat, copybuf: array<char>, argv: array<Option<string>>, argc: nat)
    returns (nargv: array<Option<string>>, nargc: nat, next: nat, more: bool)
    requires pos <= |input| && copybuf.Length == |input| + 1 && (argc > 0 ==> Vector(argv, argc))
    modifies copybuf, argv
    ensures pos <= next <= |input| && (more ==> pos < next) && nargc == argc + 1
    ensures (nargv == argv || fresh(nargv)) && Vector(nargv, nargc)
    ensures (if argc > 0 then old(Args(argv, argc)) else []) + Build(input[pos..])
         == Args(nargv, nargc) + if more then Build(input[next..]) else []
  {
    hide Build, Scan, SkipSpace, Args, IsSpace;
    ghost var before := if argc > 0 then Args(argv, argc) else [];
    BuildStep(input[pos..], before);
    next := ConsumeWhitespace(input, pos);
    nargv := Enlarge(argv, argc);
    ghost var next0 := next;
    var n;
    n, next := ScanArg(input, next, copybuf);
    Place(nargv, argc, copybuf[..n], before);
    nargc := argc + 1;
    Progress(input, pos, next);
    next := ConsumeWhitespace(input, next);
    more := next < |input|;
  }

  method Place(argv: array<Option<string>>, argc: nat, arg: string, ghost before: seq<string>)
    requires Vector(argv, argc) && argc + 1 < argv.Length && (argc > 0 ==> Args(argv, argc) == before) && (argc == 0 ==> before == [])
    modifies argv
    ensures Vector(argv, argc + 1) && Args(argv, argc + 1) == before + [arg]
  {
    ghost var was := Args(argv, argc);
    assert was == before;
    argv[argc] := Some(arg);
    argv[argc + 1] := None;
    assert Vector(argv, argc + 1);
  }

  lemma Progress(input: string, pos: nat, next: nat)
    requires pos <= next <= |input|
    ensures next < |input| && input[next..] == Scan(SkipSpace(input[pos..]), PLAIN).1 ==> pos < next
  {
  }

  // ---------------------------------------------------------------- response files

  /** What opening and reading a file gives; text ends before its first NUL. */
  datatype File = Missing | Directory | Unreadable | Text(text: string)

  type Files = map<string, File>

  function Open(fs: Files, name: string): File {
    if name in fs then fs[name] else Missing
  }

  const ITERATION_LIMIT := 2000

  predicate Response(arg: string) {
    arg != [] && arg[0] == '@'
  }

  /** The arguments in a file; a file of spaces has none. */
  function FileArgs(text: string): seq<string> {
    if OnlySpace(text) then [] else Build(text)
  }

  /** The recursive expansion, left to right: a readable file stands for the expansion of its arguments. Every
      argument that looks like a file uses up one of `limit`; the last one, or a directory, is an error. The
      result holds what is left of the limit. */
  function Expand(args: seq<string>, limit: nat, fs: Files): (r: Option<(seq<string>, nat)>)
    ensures r.Some? ==> r.value.1 <= limit
    decreases limit, |args|
  {
    if args == [] then Some(([], limit))
    else
      match ExpandOne(args[0], limit, fs)
      case None => None
      case Some(one) =>
        match Expand(args[1..], one.1, fs)
        case None => None
        case Some(more) => Some((one.0 + more.0, more.1))
  }

  function ExpandOne(arg: string, limit: nat, fs: Files): (r: Option<(seq<string>, nat)>)
    ensures r.Some? ==> r.value.1 <= limit
    decreases limit, 0
  {
    if !Response(arg) then Some(([arg], limit))
    else if limit <= 1 then None
    else
      match Open(fs, arg[1..])
      case Directory => None
      case Text(text) => Expand(FileArgs(text), limit - 1, fs)
      case _ => Some(([arg], limit - 1))
  }

  lemma {:induction false} ExpandConcat(a: seq<string>, b: seq<string>, limit: nat, fs: Files)
    ensures Expand(a + b, limit, fs) ==
      match Expand(a, limit, fs)
      case None => None
      case Some(x) =>
        match Expand(b, x.1, fs)
        case None => None
        case Some(y) => Some((x.0 + y.0, y.1))
    decreases limit, |a|
  {
    hide ExpandOne;
    if a == [] {
      assert a + b == b;
      assert forall y: seq<string> :: [] + y == y;
    } else {
      assert (a + b)[0] == a[0] && (a + b)[1..] == a[1..] + b;
      var one := ExpandOne(a[0], limit, fs);
      if one.Some? {
        ExpandConcat(a[1..], b, one.value.1, fs);
        assert forall x: seq<string>, y: seq<string> :: one.value.0 + (x + y) == one.value.0 + x + y;
      }
    }
  }

  /** Splicing the arguments of a readable file in place of its name, and going on with the first of them, is the
      recursive expansion. */
  lemma Rescan(arg: string, rest: seq<string>, limit: nat, fs: Files)
    requires Response(arg) && limit > 1 && Open(fs, arg[1..]).Text?
    ensures Expand([arg] + rest, limit, fs) == Expand(FileArgs(Open(fs, arg[1..]).text) + rest, limit - 1, fs)
  {
    hide Build, OnlySpace, FileArgs;
    var inner := FileArgs(Open(fs, arg[1..]).text);
    assert ([arg] + rest)[0] == arg && ([arg] + rest)[1..] == rest;
    ExpandConcat(inner, rest, limit - 1, fs);
  }

  /** `target` is `done` followed by the result `r`; an error stays an error. */
  ghost predicate Extends(target: Option<(seq<string>, nat)>, done: seq<string>, r: Option<(seq<string>, nat)>) {
    match r
    case None => target == None
    case Some(x) => target == Some((done + x.0, x.1))
  }

  lemma ExtendsTrans(target: Option<(seq<string>, nat)>, a: seq<string>, r: Option<(seq<string>, nat)>, b: seq<string>,
                     r': Option<(seq<string>, nat)>)
    requires Extends(target, a, r) && Extends(r, b, r')
    ensures Extends(target, a + b, r')
  {
    if r'.Some? { assert a + (b + r'.value.0) == a + b + r'.value.0; }
  }

  /** An argument that stays. */
  lemma Stays(args: seq<string>, i: nat, limit: nat, fs: Files)
    requires i < |args|
    requires !Response(args[i]) || (limit > 1 && (Open(fs, args[i][1..]).Missing? || Open(fs, args[i][1..]).Unreadable?))
    ensures var limit' := if Response(args[i]) then limit - 1 else limit;
      Extends(Expand(args[i..], limit, fs), args[i..i + 1], Expand(args[i + 1..], limit', fs))
  {
    assert args[i..][0] == args[i] && args[i..][1..] == args[i + 1..];
    assert args[i..i + 1] == [args[i]];
  }

  lemma Fatal(args: seq<string>, i: nat, limit: nat, fs: Files)
    requires i < |args| && Response(args[i]) && (limit <= 1 || Open(fs, args[i][1..]).Directory?)
    ensures Expand(args[i..], limit, fs) == None
  {
    assert args[i..][0] == args[i];
  }

  lemma Spliced(args: seq<string>, i: nat, limit: nat, fs: Files, args': seq<string>)
    requires i < |args| && Response(args[i]) && limit > 1 && Open(fs, args[i][1..]).Text?
    requires args' == args[..i] + FileArgs(Open(fs, args[i][1..]).text) + args[i + 1..]
    ensures Extends(Expand(args[i..], limit, fs), [], Expand(args'[i..], limit - 1, fs)) && args'[..i] == args[..i]
  {
    hide FileArgs, Expand;
    var inner := FileArgs(Open(fs, args[i][1..]).text);
    assert args[i..] == [args[i]] + args[i + 1..];
    assert args'[i..] == inner + args[i + 1..];
    Rescan(args[i], args[i + 1..], limit, fs);
    var r := Expand(args'[i..], limit - 1, fs);
    if r.Some? { assert [] + r.value.0 == r.value.0; }
  }

  /** The argument vector and its count, which expandargv changes in place. */
  class CommandLine {
    var argv: array<Option<string>>
    var argc: nat

    predicate Valid()
      reads this, argv
    {
      argc > 0 && Vector(argv, argc)
    }

    function View(): (args: seq<string>)
      requires Valid()
      reads this, argv
      ensures |args| == argc
    {
      Args(argv, argc)
    }

    constructor (argv: array<Option<string>>, argc: nat)
      requires argc > 0 && Vector(argv, argc)
      ensures Valid() && View() == Args(argv, argc)
    {
      this.argv, this.argc := argv, argc;
    }

    /** Puts the `count` arguments of `v` in place of argument `i`: the vector is made larger, what is behind the
        argument moves, its null included, and the new arguments are copied in. */
    method Splice(i: nat, v: array<Option<string>>, count: nat)
      requires Valid() && Vector(v, count) && 0 < i < argc
      modifies this
      ensures Valid() && fresh(argv) && argc == old(argc) + count - 1
      ensures View() == old(View())[..i] + Args(v, count) + old(View())[i + 1..]
    {
      hide Args, ArgsOf;
      ghost var was := View();
      ghost var more := Args(v, count);
      ArgsAt(argv, argc);
      ArgsAt(v, count);
      var b := new Option<string>[argc + count + 1](_ => None);
      forall k | 0 <= k < argc + 1 { b[k] := argv[k]; }
      MoveUp(b, argc, i, count, was);
      CopyIn(b, i, v, count, was, more);
      argv := b;
      argc := argc + count - 1;
      SplicedArgs(b, argc, was, i, more);
    }

    /** memmove of the arguments behind `i`. */
    static method MoveUp(b: array<Option<string>>, argc: nat, i: nat, count: nat, ghost was: seq<string>)
      requires |was| == argc && i < argc && b.Length == argc + count + 1 && b[argc] == None
      requires forall k :: 0 <= k < argc ==> b[k] == Some(was[k])
      modifies b
      ensures b[argc + count - 1] == None
      ensures forall k :: 0 <= k < i ==> b[k] == Some(was[k])
      ensures forall k :: i + count <= k < argc + count - 1 ==> b[k] == Some(was[k - count + 1])
    {
      var shift := count - 1;
      forall k | i + count <= k < argc + count { b[k] := b[k - shift]; }
    }

    /** memcpy of the new arguments. */
    static method CopyIn(b: array<Option<string>>, i: nat, v: array<Option<string>>, count: nat, ghost was: seq<string>,
                         ghost more: seq<string>)
      requires i < |was| && b.Length == |was| + count + 1 && b != v && count <= v.Length && |more| == count
      requires b[|was| + count - 1] == None
      requires forall k :: 0 <= k < i ==> b[k] == Some(was[k])
      requires forall k :: i + count <= k < |was| + count - 1 ==> b[k] == Some(was[k - count + 1])
      requires forall k :: 0 <= k < count ==> v[k] == Some(more[k])
      modifies b
      ensures b[|was| + count - 1] == None
      ensures forall k :: 0 <= k < |was| + count - 1 ==> b[k] == Some((was[..i] + more + was[i + 1..])[k])
    {
      forall k | 0 <= k < count { b[i + k] := v[k]; }
      assert forall k :: i <= k < i + count ==> b[k] == v[k - i] == Some(more[k - i]);
    }

    /** One pass of the loop: argument `i` stays, or the arguments of its file take its place and are looked at
        next, or the program exits. */
    method Visit(i: nat, limit: nat, fs: Files) returns (fatal: bool, next: nat, left: nat)
      requires Valid() && 0 < i < argc && limit > 0
      modifies this
      ensures Valid() && (argv == old(argv) || fresh(argv))
      ensures fatal ==> Expand(old(View())[i..], limit, fs) == None
      ensures !fatal ==> 0 < left <= limit && i <= next <= argc && View()[..i] == old(View())[..i]
      ensures !fatal ==> Extends(Expand(old(View())[i..], limit, fs), View()[i..next], Expand(View()[next..], left, fs))
      ensures !fatal ==> left < limit || (next == i + 1 && argc == old(argc))
    {
      hide Expand, Extends, Args, Build, OnlySpace;
      ghost var args := View();
      var filename := argv[i].value;
      assert args[i] == filename by { ArgAt(argv, argc, i); }
      fatal, next, left := false, i + 1, limit;
      if !Response(filename) {
        Stays(args, i, limit, fs);
        return;
      }
      left := left - 1;
      if left == 0 {
        Fatal(args, i, limit, fs);
        return true, next, left;
      }
      match Open(fs, filename[1..])
      case Directory =>
        Fatal(args, i, limit, fs);
        fatal := true;
      case Text(text) =>
        var v, count := ReadFile(text);
        Splice(i, v, count);
        Spliced(args, i, limit, fs, View());
        assert View()[i..i] == [];
        next := i;
      case _ =>
        Stays(args, i, limit, fs);
    }

    method ReadFile(text: string) returns (v: array<Option<string>>, count: nat)
      ensures fresh(v) && Vector(v, count) && Args(v, count) == FileArgs(text)
    {
      var only := OnlyWhitespace(text);
      if only {
        v := new Option<string>[1](_ => None);
        count := 0;
      } else {
        v, count := BuildArgv(text);
      }
    }

    /** expandargv; false if the program exits. It terminates on every file system, files that name themselves
        included: splicing uses up the limit, and otherwise the scan moves on. */
    method ExpandArgv(fs: Files) returns (ok: bool)
      requires Valid()
      modifies this
      ensures Valid()
      ensures ok <==> Expand(old(View())[1..], ITERATION_LIMIT, fs).Some?
      ensures ok ==> View() == [old(View())[0]] + Expand(old(View())[1..], ITERATION_LIMIT, fs).value.0
    {
      hide Expand, Extends, Args;
      ghost var args := View();
      ghost var target := Expand(args[1..], ITERATION_LIMIT, fs);
      var i, limit: nat := 1, ITERATION_LIMIT;
      ghost var done: seq<string> := [];
      ExtendsSelf(target);
      while i < argc
        invariant Valid() && 0 < i <= argc && 0 < limit && (argv == old(argv) || fresh(argv))
        invariant View()[..i] == [args[0]] + done
        invariant Extends(target, done, Expand(View()[i..], limit, fs))
        decreases limit, argc - i
      {
        ghost var before := View();
        var fatal, next, left := Visit(i, limit, fs);
        if fatal {
          FailsAll(target, done);
          return false;
        }
        ghost var added := View()[i..next];
        ExtendsTrans(target, done, Expand(before[i..], limit, fs), added, Expand(View()[next..], left, fs));
        assert View()[..next] == View()[..i] + added;
        done := done + added;
        i, limit := next, left;
      }
      ExpandNothing(limit, fs);
      assert View()[i..] == [] && View()[..i] == View();
      Finished(target, done, limit);
      ok := true;
    }
  }

  lemma ArgsAt(argv: array<Option<string>>, argc: nat)
    requires Vector(argv, argc)
    ensures |Args(argv, argc)| == argc && forall k :: 0 <= k < argc ==> argv[k] == Some(Args(argv, argc)[k])
  {
  }

  lemma SplicedArgs(b: array<Option<string>>, argc: nat, was: seq<string>, i: nat, more: seq<string>)
    requires i < |was| && argc == |was| + |more| - 1 && argc < b.Length && b[argc] == None
    requires forall k :: 0 <= k < argc ==> b[k] == Some((was[..i] + more + was[i + 1..])[k])
    ensures Vector(b, argc) && Args(b, argc) == was[..i] + more + was[i + 1..]
  {
    hide ArgsOf;
    assert Vector(b, argc);
    ArgsAt(b, argc);
  }

  lemma ExtendsSelf(target: Option<(seq<string>, nat)>)
    ensures Extends(target, [], target)
  {
    if target.Some? {
      assert [] + target.value.0 == target.value.0;
    }
  }

  lemma FailsAll(target: Option<(seq<string>, nat)>, done: seq<string>)
    requires Extends(target, done, None)
    ensures target == None
  {
  }

  lemma ExpandNothing(limit: nat, fs: Files)
    ensures Expand([], limit, fs) == Some(([], limit))
  {
  }

  lemma Finished(target: Option<(seq<string>, nat)>, done: seq<string>, limit: nat)
    requires Extends(target, done, Some(([], limit)))
    ensures target.Some? && target.value.0 == done
  {
  }

  lemma ArgAt(argv: array<Option<string>>, argc: nat, i: nat)
    requires Vector(argv, argc) && i < argc
    ensures argv[i] == Some(Args(argv, argc)[i])
  {
  }
}
