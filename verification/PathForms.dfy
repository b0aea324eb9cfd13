/** When the absolute name of client/remote.cpp and the canonical path of daemon/file_util.cpp are the same. Both run
    through the components with a stack, but on the one a "." or an empty component is pushed and taken away by "..",
    and only dropped at the end. */
module PathForms {
  import opened Paths

  predicate Skipped(c: string) {
    c == "" || c == "."
  }

  function Pop(u: seq<string>): seq<string> {
    if u == [] then [] else u[..|u| - 1]
  }

  /** A component that is not the last one, in the one form and in the other. */
  function Pushed(u: seq<string>, c: string): seq<string> {
    if c == ".." then Pop(u) else u + [c]
  }

  function Entered(k: seq<string>, c: string): seq<string> {
    if c == ".." then Pop(k) else if Skipped(c) then k else k + [c]
  }

  function Stack(u: seq<string>, cs: seq<string>): seq<string>
    decreases cs
  {
    if cs == [] then u else Stack(Pushed(u, cs[0]), cs[1..])
  }

  function Names(u: seq<string>): seq<string> {
    if u == [] then [] else (if Skipped(u[0]) then [] else [u[0]]) + Names(u[1..])
  }

  // ---------------------------------------------------------------- weighing a path

  /** Which components of the one stack are names, how many the other stack holds, and how many names the one holds
      beyond the other. */
  datatype Balance = Balance(marks: seq<bool>, depth: nat, extra: int)

  const LEVEL := Balance([], 0, 0)

  /** A ".." that takes away a skipped component spares a name, unless the other stack is empty; one that takes away a
      name when the other is empty takes back one that was spared. */
  function Weighed(b: Balance, c: string): Balance {
    if c == ".." then
      var name := b.marks != [] && b.marks[|b.marks| - 1];
      Balance(if b.marks == [] then [] else b.marks[..|b.marks| - 1],
              if b.depth == 0 then 0 else b.depth - 1,
              b.extra + if !name && b.depth > 0 then 1 else if name && b.depth == 0 then -1 else 0)
    else if Skipped(c) then b.(marks := b.marks + [false])
    else Balance(b.marks + [true], b.depth + 1, b.extra)
  }

  function Weight(b: Balance, cs: seq<string>): Balance
    decreases cs
  {
    if cs == [] then b else Weight(Weighed(b, cs[0]), cs[1..])
  }

  /** The balance is that of the two stacks; the one holds at least the names of the other, and if it holds no more,
      the same. */
  ghost predicate Balanced(u: seq<string>, k: seq<string>, b: Balance) {
    && |b.marks| == |u| && (forall i :: 0 <= i < |u| ==> (b.marks[i] <==> !Skipped(u[i])))
    && b.depth == |k| && b.extra == |Names(u)| - |k|
    && b.extra >= 0 && (b.extra == 0 ==> Names(u) == k)
  }

  lemma {:induction false} NamesConcat(a: seq<string>, b: seq<string>)
    ensures Names(a + b) == Names(a) + Names(b)
  {
    hide Skipped;
    if a == [] {
      assert a + b == b && [] + Names(b) == Names(b);
    } else {
      NamesConcat(a[1..], b);
      assert (a + b)[0] == a[0] && (a + b)[1..] == a[1..] + b;
      var one := if Skipped(a[0]) then [] else [a[0]];
      Assoc(one, Names(a[1..]), Names(b));
    }
  }

  lemma Assoc(a: seq<string>, b: seq<string>, c: seq<string>)
    ensures a + (b + c) == a + b + c
  {
  }

  lemma NamesOne(c: string)
    ensures Names([c]) == if Skipped(c) then [] else [c]
  {
    assert [c][1..] == [];
  }

  lemma NamesInit(u: seq<string>)
    requires u != []
    ensures Names(u) == Names(Pop(u)) + if Skipped(u[|u| - 1]) then [] else [u[|u| - 1]]
  {
    hide Names, Skipped, Pop;
    var c := u[|u| - 1];
    PopIs(u);
    NamesConcat(Pop(u), [c]);
    NamesOne(c);
  }

  lemma PopIs(u: seq<string>)
    requires u != []
    ensures u == Pop(u) + [u[|u| - 1]]
  {
  }

  lemma PopBalanced(u: seq<string>, k: seq<string>, b: Balance)
    requires Balanced(u, k, b)
    ensures Balanced(Pop(u), Pop(k), Weighed(b, ".."))
  {
    if u != [] {
      NamesInit(u);
      var c := u[|u| - 1];
      assert b.marks[|u| - 1] <==> !Skipped(c);
      if Names(u) == k && !Skipped(c) { assert Pop(k) == Names(Pop(u)); }
    }
  }

  lemma PushBalanced(u: seq<string>, k: seq<string>, b: Balance, c: string)
    requires Balanced(u, k, b) && c != ".."
    ensures Balanced(Pushed(u, c), Entered(k, c), Weighed(b, c))
  {
    NamesConcat(u, [c]);
    NamesOne(c);
  }

  lemma {:induction false} RunBalanced(u: seq<string>, k: seq<string>, b: Balance, cs: seq<string>)
    requires Balanced(u, k, b)
    ensures Balanced(Stack(u, cs), Canon(k, NonEmpty(cs)), Weight(b, cs))
    decreases cs
  {
    hide Balanced, Weighed, Pushed, Entered, Canon, NonEmpty;
    CanonStep(k, cs);
    if cs != [] {
      StepBalanced(u, k, b, cs[0]);
      RunBalanced(Pushed(u, cs[0]), Entered(k, cs[0]), Weighed(b, cs[0]), cs[1..]);
    }
  }

  lemma StepBalanced(u: seq<string>, k: seq<string>, b: Balance, c: string)
    requires Balanced(u, k, b)
    ensures Balanced(Pushed(u, c), Entered(k, c), Weighed(b, c))
  {
    hide Balanced, Weighed;
    if c == ".." { PopBalanced(u, k, b); } else { PushBalanced(u, k, b, c); }
  }

  lemma CanonStep(k: seq<string>, cs: seq<string>)
    ensures cs == [] ==> Canon(k, NonEmpty(cs)) == k
    ensures cs != [] ==> Canon(k, NonEmpty(cs)) == Canon(Entered(k, cs[0]), NonEmpty(cs[1..]))
  {
    if cs != [] {
      var rest := NonEmpty(cs[1..]);
      assert [] + rest == rest && ([cs[0]] + rest)[1..] == rest;
    }
  }

  // ---------------------------------------------------------------- the absolute name as names of a stack

  lemma {:induction false} UpIsStack(u: seq<string>, cs: seq<string>)
    requires cs != []
    ensures Up(u, cs) == Stack(u, cs[..|cs| - 1]) + [cs[|cs| - 1]]
    decreases cs
  {
    if |cs| == 1 {
      assert cs[..0] == [] && cs == [cs[0]];
    } else {
      var t := cs[..|cs| - 1];
      assert t[0] == cs[0] && t[1..] == cs[1..][..|cs[1..]| - 1];
      UpIsStack(Pushed(u, cs[0]), cs[1..]);
    }
  }

  function Without(u: seq<string>, w: string): seq<string> {
    if u == [] then [] else (if u[0] == w then [] else [u[0]]) + Without(u[1..], w)
  }

  lemma {:induction false} DropIsWithout(u: seq<string>, x: string, w: string)
    ensures DropInner(u + [x], w) == Without(u, w) + [x]
  {
    if u == [] {
      assert u + [x] == [x];
    } else {
      DropIsWithout(u[1..], x, w);
      assert (u + [x])[0] == u[0] && (u + [x])[1..] == u[1..] + [x];
      var one := if u[0] == w then [] else [u[0]];
      assert one + (Without(u[1..], w) + [x]) == one + Without(u[1..], w) + [x];
      assert [] + DropInner(u[1..] + [x], w) == DropInner(u[1..] + [x], w);
    }
  }

  lemma {:induction false} WithoutBoth(u: seq<string>)
    ensures Without(Without(u, "."), "") == Names(u)
  {
    if u != [] {
      WithoutBoth(u[1..]);
      var r := Without(u[1..], ".");
      assert [] + r == r && ([u[0]] + r)[1..] == r;
    }
  }

  lemma AbsIsNames(cs: seq<string>)
    requires cs != []
    ensures AbsComponents(cs) == Names(Stack([], cs[..|cs| - 1])) + [cs[|cs| - 1]]
  {
    hide DropInner, Up, Stack, Names;
    var u, x := Stack([], cs[..|cs| - 1]), cs[|cs| - 1];
    UpIsStack([], cs);
    DropIsWithout(u, x, ".");
    DropIsWithout(Without(u, "."), x, "");
    WithoutBoth(u);
  }

  lemma CanonIsEntered(cs: seq<string>)
    requires cs != []
    ensures Canon([], NonEmpty(cs)) == Entered(Canon([], NonEmpty(cs[..|cs| - 1])), cs[|cs| - 1])
  {
    hide Canon, NonEmpty, Entered, Pop;
    var t, x := cs[..|cs| - 1], cs[|cs| - 1];
    PopIs(cs);
    PopTakes(cs);
    NonEmptyConcat(t, [x]);
    CanonConcat([], NonEmpty(t), NonEmpty([x]));
    CanonOne(Canon([], NonEmpty(t)), x);
  }

  lemma PopTakes(u: seq<string>)
    requires u != []
    ensures Pop(u) == u[..|u| - 1]
  {
  }

  lemma CanonOne(k: seq<string>, x: string)
    ensures Canon(k, NonEmpty([x])) == Entered(k, x)
  {
    hide Canon, NonEmpty, Entered;
    assert [x][1..] == [];
    CanonStep(k, [x]);
    CanonStep(Entered(k, x), []);
  }

  // ---------------------------------------------------------------- the same path

  /** Different lists of components are different paths. */
  lemma JoinInjective(a: seq<string>, b: seq<string>)
    requires AllPlain(a) && AllPlain(b) && a != [] && b != []
    ensures Join(a) == Join(b) <==> a == b
  {
    hide Join, AllPlain;
    PiecesJoin(a);
    PiecesJoin(b);
  }

  /** The components of a canonical path; the root has an empty one. */
  function Rooted(k: seq<string>): seq<string> {
    if k == [] then [""] else k
  }

  lemma RootedJoin(k: seq<string>)
    requires Proper(k)
    ensures Slashed(k) == Join(Rooted(k)) && AllPlain(Rooted(k)) && Rooted(k) != []
  {
    NonEmptyFacts(k);
    assert [""][1..] == [];
    assert Join([""]) == "/";
  }

  lemma {:induction false} ProperAt(k: seq<string>, i: nat)
    requires Proper(k) && i < |k|
    ensures ProperName(k[i])
  {
    if i > 0 { ProperAt(k[1..], i - 1); }
  }

  /** The two lists of components, the last one included. */
  lemma LastDecides(u: seq<string>, k: seq<string>, b: Balance, x: string)
    requires Balanced(u, k, b) && Proper(k) && Proper(Entered(k, x))
    ensures Names(u) + [x] == Rooted(Entered(k, x)) <==> b.extra == 0 && x != "." && x != ".." && (x == "" ==> b.depth == 0)
  {
    hide Proper;
    var l, r := Names(u) + [x], Rooted(Entered(k, x));
    assert l[|l| - 1] == x;
    if Skipped(x) || x == ".." {
      if Entered(k, x) != [] {
        ProperAt(Entered(k, x), |r| - 1);
        assert r[|r| - 1] != x;
      } else {
        assert r == [""];
        assert l == r <==> |Names(u)| == 0 && x == "";
      }
    } else {
      assert r == k + [x] && r[..|r| - 1] == k && l[..|l| - 1] == Names(u);
    }
  }

  /** The absolute name of an absolute path is its canonical path if and only if no name is spared in the end and the
      last component is neither "." nor "..", nor empty unless the canonical path is the root. */
  lemma FormsAgree(path: string, cwd: string)
    requires path != [] && path[0] == SLASH
    ensures var cs := Pieces(path[1..]);
      var b, last := Weight(LEVEL, cs[..|cs| - 1]), cs[|cs| - 1];
      AbsName(path, cwd) == Canonical(path) <==> b.extra == 0 && last != "." && last != ".." && (last == "" ==> b.depth == 0)
  {
    hide Pieces, Join, AbsComponents, Canon, NonEmpty, AllPlain, Proper, Weight, Stack, Names, Rooted, Entered;
    var cs := Pieces(path[1..]);
    var t, x := cs[..|cs| - 1], cs[|cs| - 1];
    var u, k := Stack([], t), Canon([], NonEmpty(t));
    PiecesSlash(path);
    AbsIsNames(cs);
    CanonIsEntered(cs);
    LevelBalanced();
    RunBalanced([], [], LEVEL, t);
    PartsPlain(path[1..]);
    RootedJoin(Entered(k, x));
    JoinInjective(AbsComponents(cs), Rooted(Entered(k, x)));
    LastDecides(u, k, Weight(LEVEL, t), x);
  }

  lemma LevelBalanced()
    ensures Balanced([], [], LEVEL)
  {
  }

  lemma PartsPlain(s: string)
    ensures var cs := Pieces(s);
      && AllPlain(AbsComponents(cs)) && AbsComponents(cs) != []
      && Proper(Canon([], NonEmpty(cs))) && Proper(Canon([], NonEmpty(cs[..|cs| - 1])))
  {
    hide Pieces, AbsComponents, Canon, NonEmpty, AllPlain, Proper, Lacks;
    var cs := Pieces(s);
    JoinPieces(s);
    AbsShape(cs);
    PlainInit(cs);
    NonEmptyFacts(cs);
    NonEmptyFacts(cs[..|cs| - 1]);
    ProperNothing();
    CanonProper([], NonEmpty(cs));
    CanonProper([], NonEmpty(cs[..|cs| - 1]));
  }

  // ---------------------------------------------------------------- without skipped components

  lemma {:induction false} NothingSpared(b: Balance, cs: seq<string>)
    requires Lacks(cs, ".") && Lacks(cs, "") && b.extra == 0 && b.depth == |b.marks| && forall i :: 0 <= i < |b.marks| ==> b.marks[i]
    ensures Weight(b, cs).extra == 0
    decreases cs
  {
    if cs != [] { NothingSpared(Weighed(b, cs[0]), cs[1..]); }
  }

  /** On an absolute path without "." and empty components the two agree if and only if it does not end in "..". */
  lemma AbsIsCanonical(path: string, cwd: string)
    requires path != [] && path[0] == SLASH
    requires var cs := Pieces(path[1..]); Lacks(cs, ".") && Lacks(cs, "")
    ensures AbsName(path, cwd) == Canonical(path) <==> Pieces(path[1..])[|Pieces(path[1..])| - 1] != ".."
  {
    hide Pieces, AbsName, Canonical;
    var cs := Pieces(path[1..]);
    var t, x := cs[..|cs| - 1], cs[|cs| - 1];
    assert cs == t + [x];
    LacksConcat(t, [x], ".");
    LacksConcat(t, [x], "");
    NothingSpared(LEVEL, t);
    FormsAgree(path, cwd);
  }

  // ---------------------------------------------------------------- relative names

  /** The absolute name of a relative name is that of the current directory, a slash and the name; the current directory
      says nothing about an absolute one. */
  lemma RelativeName(file: string, cwd: string, other: string)
    requires file != [] && (cwd == [] || cwd[0] == SLASH)
    ensures file[0] != SLASH ==> AbsName(file, cwd) == AbsName(cwd + "/" + file, other)
    ensures file[0] == SLASH ==> AbsName(file, cwd) == AbsName(file, other)
  {
    hide Pieces, Join, AbsComponents;
    assert (cwd + "/" + file)[0] == SLASH;
  }

  /** Behind the empty component of a path that begins with two slashes there is one mark more than names. */
  lemma {:induction false} NothingSparedBehind(b: Balance, cs: seq<string>)
    requires Lacks(cs, ".") && Lacks(cs, "") && b.extra == 0 && |b.marks| == b.depth + 1 && !b.marks[0]
    requires forall i :: 0 < i < |b.marks| ==> b.marks[i]
    ensures Weight(b, cs).extra == 0
    decreases cs
  {
    if cs != [] {
      if cs[0] == ".." && b.depth == 0 {
        NothingSpared(Weighed(b, cs[0]), cs[1..]);
      } else {
        NothingSparedBehind(Weighed(b, cs[0]), cs[1..]);
      }
    }
  }

  /** The pieces behind a canonical directory: its own, and for the root an empty one. */
  lemma DirectoryPieces(cwd: string, file: string)
    requires cwd != [] && cwd[0] == SLASH && Canonical(cwd) == cwd
    ensures var cs, d := Pieces((cwd + "/" + file)[1..]), Pieces(cwd[1..]);
      cs == d + Pieces(file) && (if cwd == "/" then d == [""] else Lacks(d, ".") && Lacks(d, ""))
  {
    hide Pieces, Join, Canonical, Proper, Lacks;
    assert (cwd + "/" + file)[1..] == cwd[1..] + "/" + file;
    PiecesConcat(cwd[1..], file);
    PiecesNothing([]);
    if cwd != "/" {
      CanonicalForm(cwd);
      var k := NonEmpty(Pieces(cwd));
      NonEmptyFacts(k);
      PiecesJoin(k);
      ProperLacks(k);
    }
  }

  lemma {:induction false} ProperLacks(k: seq<string>)
    requires Proper(k)
    ensures Lacks(k, ".") && Lacks(k, "")
  {
    if k != [] { ProperLacks(k[1..]); }
  }

  lemma NothingSparedIn(d: seq<string>, t: seq<string>)
    requires d == [""] || (Lacks(d, ".") && Lacks(d, ""))
    requires Lacks(t, ".") && Lacks(t, "")
    ensures Weight(LEVEL, d + t).extra == 0
  {
    if d == [""] {
      assert (d + t)[0] == "" && (d + t)[1..] == t;
      NothingSparedBehind(Weighed(LEVEL, ""), t);
    } else {
      LacksConcat(d, t, ".");
      LacksConcat(d, t, "");
      NothingSpared(LEVEL, d + t);
    }
  }

  /** In a canonical directory, the root included, the absolute name of a relative name without "." and empty components
      is the canonical path of the directory, a slash and the name, if and only if the name does not end in "..". */
  lemma RelativeIsCanonical(file: string, cwd: string)
    requires file != [] && file[0] != SLASH && Lacks(Pieces(file), ".") && Lacks(Pieces(file), "")
    requires cwd != [] && cwd[0] == SLASH && Canonical(cwd) == cwd
    ensures AbsName(file, cwd) == Canonical(cwd + "/" + file) <==> Pieces(file)[|Pieces(file)| - 1] != ".."
  {
    hide Pieces, AbsName, Canonical, Weight, Lacks;
    var path, f, d := cwd + "/" + file, Pieces(file), Pieces(cwd[1..]);
    var t, x := f[..|f| - 1], f[|f| - 1];
    RelativeName(file, cwd, cwd);
    DirectoryPieces(cwd, file);
    assert f == t + [x];
    LacksConcat(t, [x], ".");
    LacksConcat(t, [x], "");
    LacksOne(x);
    NothingSparedIn(d, t);
    assert (d + f)[..|d + f| - 1] == d + t;
    FormsAgree(path, cwd);
  }

  lemma LacksOne(x: string)
    requires Lacks([x], ".") && Lacks([x], "")
    ensures x != "." && x != ""
  {
  }

  /** In the directory "/a" the name "b" is "/a/b". */
  lemma InDirectory()
    ensures AbsName("b", "/a") == "/a/b"
  {
    hide Pieces, Join, AbsComponents;
    var l: seq<string> := ["a", "b"];
    TwoPlain();
    RelativeName("b", "/a", []);
    assert "/a" + "/" + "b" == "/a/b";
    TwoSettled();
    PiecesJoin(l);
  }

  lemma TwoSettled()
    ensures var l: seq<string> := ["a", "b"]; AllPlain(l) && AbsComponents(l) == l
  {
    var l: seq<string> := ["a", "b"];
    assert l[1..] == ["b"];
    Settled(l);
  }

  // ---------------------------------------------------------------- where they differ

  lemma PlainParts(w: string)
    requires w == "" || w == "."
    ensures AllPlain(["a", w, "..", "b"]) && Join(["a", w, "..", "b"]) == "/a/" + w + "/../b"
  {
    var l: seq<string> := ["a", w, "..", "b"];
    assert l[1..] == [w, "..", "b"] && l[1..][1..] == ["..", "b"] && l[1..][1..][1..] == ["b"];
    assert Join(["b"]) == "/b";
    assert Join(["..", "b"]) == "/.." + Join(["b"]);
    assert Join([w, "..", "b"]) == "/" + w + Join(["..", "b"]);
    assert Join(l) == "/a" + Join(l[1..]);
  }

  lemma UpDiffers(w: string)
    requires w == "" || w == "."
    ensures AbsComponents(["a", w, "..", "b"]) == ["a", "b"]
  {
    var l: seq<string> := ["a", w, "..", "b"];
    assert l[1..] == [w, "..", "b"] && l[1..][1..] == ["..", "b"] && l[1..][1..][1..] == ["b"];
    assert |w| < 2 && [] + [l[0]] == ["a"] && ["a"] + [w] == ["a", w];
    assert Up(["a"], ["b"]) == ["a", "b"];
    assert Up(["a", w], ["..", "b"]) == Up(["a"], ["b"]);
    assert Up(["a"], [w, "..", "b"]) == Up(["a", w], ["..", "b"]);
    assert Up([], l) == Up(["a"], [w, "..", "b"]);
    DropTwo();
  }

  lemma DropTwo()
    ensures DropInner(["a", "b"], ".") == ["a", "b"] && DropInner(["a", "b"], "") == ["a", "b"]
  {
    var l: seq<string> := ["a", "b"];
    assert l[1..] == ["b"] && [l[0]] + ["b"] == l;
  }

  lemma PopDiffers(w: string)
    requires w == "" || w == "."
    ensures Canon([], NonEmpty(["a", w, "..", "b"])) == ["b"]
  {
    hide Canon, NonEmpty;
    var l: seq<string> := ["a", w, "..", "b"];
    assert l[1..] == [w, "..", "b"] && l[1..][1..] == ["..", "b"] && l[1..][1..][1..] == ["b"] && ["b"][1..] == [];
    var none: seq<string> := [];
    assert none + ["a"] == ["a"] && none + ["b"] == ["b"];
    CanonStep(none, l);
    CanonStep(["a"], l[1..]);
    CanonStep(["a"], l[1..][1..]);
    CanonStep(none, ["b"]);
    CanonStep(["b"], []);
  }

  lemma TwoPlain()
    ensures Join(["a", "b"]) == "/a/b" && Slashed(["b"]) == "/b"
  {
    var l: seq<string> := ["a", "b"];
    assert l[1..] == ["b"] && Join(["b"]) == "/b" && Join(l) == "/a" + Join(l[1..]);
  }

  /** With an empty or a "." component they can differ: "/a//../b" and "/a/./../b" become "/a/b" in the one form and
      "/b" in the other, because ".." takes such a component away in the first. */
  lemma SkippedComponentDiffers(w: string, cwd: string)
    requires w == "" || w == "."
    ensures var path := "/a/" + w + "/../b"; AbsName(path, cwd) == "/a/b" && Canonical(path) == "/b"
  {
    hide Pieces, Join, AbsComponents, Canon, NonEmpty, AllPlain;
    var l: seq<string> := ["a", w, "..", "b"];
    var path := "/a/" + w + "/../b";
    PlainParts(w);
    UpDiffers(w);
    PopDiffers(w);
    TwoPlain();
    PiecesJoin(l);
    PiecesSlash(path);
  }

  /** And at the end ".." is left alone in the one form: "/a/.." stays, where the canonical path is "/". */
  lemma LastUpDiffers(cwd: string)
    ensures AbsName("/a/..", cwd) == "/a/.." && Canonical("/a/..") == "/"
  {
    var l: seq<string> := ["a", ".."];
    assert l[1..] == [".."] && Join([".."]) == "/.." && Join(l) == "/a" + Join(l[1..]) == "/a/..";
    assert Up([], l) == Up(["a"], [".."]) == l;
    assert DropInner([".."], ".") == [".."] && DropInner([".."], "") == [".."];
    assert DropInner(l, ".") == l && DropInner(l, "") == l;
    assert NonEmpty([".."]) == [".."] && NonEmpty(l) == l;
    assert Canon([], l) == Canon(["a"], [".."]) == Canon([], []) == [];
    PiecesJoin(l);
    PiecesSlash("/a/..");
  }
}
