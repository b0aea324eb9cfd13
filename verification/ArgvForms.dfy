/** Every way of writing arguments into a response file: what buildargv (client/argv.c:168-292) reads is what was meant. */
module ArgvForms {
  import opened Argv
  import opened Common

  const VT: char := 11 as char

  const FF: char := 12 as char

  /** A character of an argument, with or without a backslash in front. */
  datatype Mark = Mark(escaped: bool, c: char)

  /** A part of an argument: without quotes, in single quotes, or in double quotes. */
  datatype Piece = Bare(marks: seq<Mark>) | Single(marks: seq<Mark>) | Double(marks: seq<Mark>)

  /** A backslash always needs one in front, and so does the quote that would end the part; without quotes so do the
      six characters of white space and both quotes. */
  predicate MarkOk(p: Piece, m: Mark) {
    m.escaped
    || match p
       case Bare(_) => m.c !in {' ', '\t', '\n', '\r', VT, FF, '\\', '\'', '"'}
       case Single(_) => m.c != '\\' && m.c != '\''
       case Double(_) => m.c != '\\' && m.c != '"'
  }

  predicate PieceOk(p: Piece) {
    forall m :: m in p.marks ==> MarkOk(p, m)
  }

  function Chars(marks: seq<Mark>): (s: string)
    ensures |s| == |marks| && forall i :: 0 <= i < |s| ==> s[i] == marks[i].c
  {
    if marks == [] then [] else [marks[0].c] + Chars(marks[1..])
  }

  function PrintMark(m: Mark): string {
    if m.escaped then ['\\', m.c] else [m.c]
  }

  function PrintMarks(marks: seq<Mark>): string {
    if marks == [] then [] else PrintMark(marks[0]) + PrintMarks(marks[1..])
  }

  function PrintPiece(p: Piece): string {
    match p
    case Bare(marks) => PrintMarks(marks)
    case Single(marks) => "'" + PrintMarks(marks) + "'"
    case Double(marks) => "\"" + PrintMarks(marks) + "\""
  }

  function PrintArg(arg: seq<Piece>): string {
    if arg == [] then [] else PrintPiece(arg[0]) + PrintArg(arg[1..])
  }

  /** What is meant: the characters of all parts. */
  function Value(arg: seq<Piece>): string {
    if arg == [] then [] else Chars(arg[0].marks) + Value(arg[1..])
  }

  /** Something must be written for an argument, if only a pair of quotes. */
  predicate ArgOk(arg: seq<Piece>) {
    (forall p :: p in arg ==> PieceOk(p)) && PrintArg(arg) != []
  }

  predicate Blank(s: string) {
    forall c :: c in s ==> c in {' ', '\t', '\n', '\r', VT, FF}
  }

  /** A blank text behind each argument, which only the last may leave empty. */
  predicate GapsOk(gaps: seq<string>) {
    forall i :: 0 <= i < |gaps| ==> Blank(gaps[i]) && (i < |gaps| - 1 ==> gaps[i] != [])
  }

  function PrintAll(args: seq<seq<Piece>>, gaps: seq<string>): string
    requires |gaps| == |args|
  {
    if args == [] then [] else PrintArg(args[0]) + gaps[0] + PrintAll(args[1..], gaps[1..])
  }

  function Values(args: seq<seq<Piece>>): (v: seq<string>)
    ensures |v| == |args| && forall i :: 0 <= i < |v| ==> v[i] == Value(args[i])
  {
    if args == [] then [] else [Value(args[0])] + Values(args[1..])
  }

  // ---------------------------------------------------------------- scanning what was printed

  /** Where the scanner is inside a part. */
  function State(p: Piece): Quoting {
    Quoting(p.Single?, p.Double?, false)
  }

  function Onto(s: string, r: (string, string)): (string, string) {
    (s + r.0, r.1)
  }

  lemma OntoBoth(s: string, t: string, r: (string, string))
    ensures Onto(s, Onto(t, r)) == Onto(s + t, r)
  {
    assert s + (t + r.0) == s + t + r.0;
  }

  lemma OntoNothing(r: (string, string))
    ensures Onto([], r) == r
  {
    assert [] + r.0 == r.0;
  }

  /** One step of the scanner. */
  lemma ScanNext(s: string, q: Quoting, c: char, rest: string)
    requires s == [c] + rest && !(IsSpace(c) && q == PLAIN)
    ensures Scan(s, q) == Onto(Read(q, c).1, Scan(rest, Read(q, c).0))
  {
    assert s[1..] == rest;
  }

  lemma ScanMark(p: Piece, m: Mark, rest: string)
    requires MarkOk(p, m)
    ensures Scan(PrintMark(m) + rest, State(p)) == Onto([m.c], Scan(rest, State(p)))
  {
    hide Scan;
    if m.escaped {
      var q := State(p).(escaped := true);
      assert PrintMark(m) + rest == ['\\'] + ([m.c] + rest);
      ScanNext(PrintMark(m) + rest, State(p), '\\', [m.c] + rest);
      ScanNext([m.c] + rest, q, m.c, rest);
      OntoNothing(Onto([m.c], Scan(rest, State(p))));
    } else {
      ScanNext(PrintMark(m) + rest, State(p), m.c, rest);
    }
  }

  lemma {:induction false} ScanMarks(p: Piece, marks: seq<Mark>, rest: string)
    requires forall m :: m in marks ==> MarkOk(p, m)
    ensures Scan(PrintMarks(marks) + rest, State(p)) == Onto(Chars(marks), Scan(rest, State(p)))
  {
    hide Scan, MarkOk, PrintMark, State;
    if marks == [] {
      assert PrintMarks(marks) + rest == rest;
      OntoNothing(Scan(rest, State(p)));
    } else {
      var more := PrintMarks(marks[1..]) + rest;
      ScanMarks(p, marks[1..], rest);
      assert PrintMarks(marks) + rest == PrintMark(marks[0]) + more;
      ScanMark(p, marks[0], more);
      OntoBoth([marks[0].c], Chars(marks[1..]), Scan(rest, State(p)));
    }
  }

  lemma ScanPiece(p: Piece, rest: string)
    requires PieceOk(p)
    ensures Scan(PrintPiece(p) + rest, PLAIN) == Onto(Chars(p.marks), Scan(rest, PLAIN))
  {
    hide Scan, MarkOk, PrintMarks;
    if p.Bare? {
      ScanMarks(p, p.marks, rest);
    } else {
      var c := if p.Single? then '\'' else '"';
      var inside := PrintMarks(p.marks) + ([c] + rest);
      assert PrintPiece(p) + rest == [c] + inside;
      ScanNext([c] + inside, PLAIN, c, inside);
      ScanMarks(p, p.marks, [c] + rest);
      ScanNext([c] + rest, State(p), c, rest);
      OntoNothing(Scan(inside, State(p)));
      OntoNothing(Scan(rest, PLAIN));
    }
  }

  lemma {:induction false} ScanPieces(arg: seq<Piece>, rest: string)
    requires forall p :: p in arg ==> PieceOk(p)
    ensures Scan(PrintArg(arg) + rest, PLAIN) == Onto(Value(arg), Scan(rest, PLAIN))
  {
    hide Scan, PieceOk, PrintPiece;
    if arg == [] {
      assert PrintArg(arg) + rest == rest;
      OntoNothing(Scan(rest, PLAIN));
    } else {
      var more := PrintArg(arg[1..]) + rest;
      ScanPieces(arg[1..], rest);
      assert PrintArg(arg) + rest == PrintPiece(arg[0]) + more;
      ScanPiece(arg[0], more);
      OntoBoth(Chars(arg[0].marks), Value(arg[1..]), Scan(rest, PLAIN));
    }
  }

  lemma ScanArgument(arg: seq<Piece>, rest: string)
    requires ArgOk(arg) && (rest == [] || IsSpace(rest[0]))
    ensures Scan(PrintArg(arg) + rest, PLAIN) == (Value(arg), rest)
  {
    hide Scan, PieceOk;
    ScanPieces(arg, rest);
    ScanEnd(rest);
    assert Value(arg) + [] == Value(arg);
  }

  /** No argument begins with a space. */
  lemma {:induction false} PrintFirst(arg: seq<Piece>)
    requires ArgOk(arg)
    ensures PrintArg(arg) != [] && !IsSpace(PrintArg(arg)[0])
  {
    if PrintPiece(arg[0]) == [] {
      PrintFirst(arg[1..]);
    } else if arg[0].Bare? {
      assert arg[0] in arg && arg[0].marks[0] in arg[0].marks;
      assert MarkOk(arg[0], arg[0].marks[0]);
    }
  }

  lemma {:induction false} SkipBlank(gap: string, rest: string)
    requires Blank(gap) && (rest != [] ==> !IsSpace(rest[0]))
    ensures SkipSpace(gap + rest) == rest
    ensures gap + rest == [] || (gap != [] ==> IsSpace((gap + rest)[0]))
  {
    if gap == [] {
      assert gap + rest == rest;
    } else {
      assert gap[0] in gap && forall c :: c in gap[1..] ==> c in gap;
      assert (gap + rest)[1..] == gap[1..] + rest;
      SkipBlank(gap[1..], rest);
    }
  }

  lemma AllFirst(args: seq<seq<Piece>>, gaps: seq<string>)
    requires |gaps| == |args| && forall arg :: arg in args ==> ArgOk(arg)
    ensures PrintAll(args, gaps) != [] ==> !IsSpace(PrintAll(args, gaps)[0])
    ensures args != [] ==> PrintAll(args, gaps) != []
  {
    if args != [] { PrintFirst(args[0]); }
  }

  /** Whatever parts, quotes and backslashes each argument is written with, and whatever white space stands in front of
      the arguments, between them and behind them: the arguments are read as they were meant. */
  lemma {:induction false} BuildUndoesForms(lead: string, args: seq<seq<Piece>>, gaps: seq<string>)
    requires args != [] && |gaps| == |args| && (forall arg :: arg in args ==> ArgOk(arg)) && GapsOk(gaps) && Blank(lead)
    ensures Build(lead + PrintAll(args, gaps)) == Values(args)
    decreases |args|
  {
    hide Scan, ArgOk, IsSpace, SkipSpace, PrintArg, Value;
    var s, more := PrintAll(args, gaps), PrintAll(args[1..], gaps[1..]);
    var rest := gaps[0] + more;
    assert forall arg :: arg in args[1..] ==> arg in args;
    AllFirst(args, gaps);
    SkipBlank(lead, s);
    AllFirst(args[1..], gaps[1..]);
    SkipBlank(gaps[0], more);
    assert s == PrintArg(args[0]) + rest;
    ScanArgument(args[0], rest);
    if |args| > 1 {
      BuildUndoesForms([], args[1..], gaps[1..]);
      assert [] + more == more;
    }
  }

  // ---------------------------------------------------------------- how many response files there may be

  /** None of the arguments looks like a response file. */
  predicate Literal(args: seq<string>) {
    forall a :: a in args ==> a == [] || a[0] != '@'
  }

  /** A name of a file, behind a '@', that holds no further names of files. */
  predicate Leaf(arg: string, fs: Files) {
    arg != [] && arg[0] == '@' && arg[1..] in fs && fs[arg[1..]].Text? && Literal(FileArgs(fs[arg[1..]].text))
  }

  function Held(arg: string, fs: Files): seq<string>
    requires Leaf(arg, fs)
  {
    FileArgs(fs[arg[1..]].text)
  }

  function Contents(names: seq<string>, fs: Files): seq<string>
    requires forall i :: 0 <= i < |names| ==> Leaf(names[i], fs)
  {
    if names == [] then [] else Held(names[0], fs) + Contents(names[1..], fs)
  }

  lemma {:induction false} ExpandLiteral(args: seq<string>, limit: nat, fs: Files)
    requires Literal(args)
    ensures Expand(args, limit, fs) == Some((args, limit))
  {
    if args != [] {
      assert args[0] in args;
      ExpandLiteral(args[1..], limit, fs);
      assert [args[0]] + args[1..] == args;
    }
  }

  lemma {:induction false} ExpandLeaves(names: seq<string>, limit: nat, fs: Files)
    requires forall i :: 0 <= i < |names| ==> Leaf(names[i], fs)
    ensures Expand(names, limit, fs)
      == if names == [] || |names| < limit then Some((Contents(names, fs), limit - |names|)) else None
  {
    hide FileArgs;
    if names != [] && limit > 1 {
      var inner := Held(names[0], fs);
      ExpandLiteral(inner, limit - 1, fs);
      ExpandLeaves(names[1..], limit - 1, fs);
      assert ExpandOne(names[0], limit, fs) == Some((inner, limit - 1));
    }
  }

  /** A command line may name up to 1999 files. */
  lemma ExpandsUpTo(names: seq<string>, fs: Files)
    requires forall i :: 0 <= i < |names| ==> Leaf(names[i], fs)
    ensures var r := Expand(names, ITERATION_LIMIT, fs);
      (r.Some? <==> |names| <= 1999) && (r.Some? ==> r.value.0 == Contents(names, fs))
  {
    ExpandLeaves(names, ITERATION_LIMIT, fs);
  }

  /** A file that names itself ends the program, whatever the limit. */
  lemma {:induction false} SelfNamed(arg: string, rest: seq<string>, limit: nat, fs: Files)
    requires arg != [] && arg[0] == '@' && arg[1..] in fs && fs[arg[1..]].Text?
    requires var inner := FileArgs(fs[arg[1..]].text); inner != [] && inner[0] == arg
    ensures Expand([arg] + rest, limit, fs) == None
    decreases limit
  {
    hide FileArgs;
    assert ([arg] + rest)[0] == arg;
    if limit > 1 {
      var inner := FileArgs(fs[arg[1..]].text);
      SelfNamed(arg, inner[1..], limit - 1, fs);
      assert [arg] + inner[1..] == inner;
    }
  }
}
