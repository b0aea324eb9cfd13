/** Path normal forms: strings are rewritten in place, and the result is what a stack of components says
    (client/remote.cpp get_absfilename, daemon/file_util.cpp). */
module Paths {
  import opened Common

  const SLASH := '/'

  predicate Plain(c: string) {
    SLASH !in c
  }

  predicate AllPlain(cs: seq<string>) {
    cs == [] || (Plain(cs[0]) && AllPlain(cs[1..]))
  }

  /** A slash before each component. */
  function Join(cs: seq<string>): (s: string)
    ensures cs != [] ==> s != [] && s[0] == SLASH
    ensures cs == [] ==> s == []
  {
    if cs == [] then [] else [SLASH] + cs[0] + Join(cs[1..])
  }

  /** A character in front: a slash starts a new piece. */
  function Consed(x: char, rest: seq<string>): (r: seq<string>)
    requires rest != []
    ensures r != []
  {
    if x == SLASH then [[]] + rest else [[x] + rest[0]] + rest[1..]
  }

  /** The pieces between slashes; one more than there are slashes. */
  function Pieces(s: string): (cs: seq<string>)
    ensures cs != []
  {
    if s == [] then [[]]
    else
      Consed(s[0], Pieces(s[1..]))
  }

  lemma PushChar(x: char, r0: string, j: string, t: string)
    requires [SLASH] + r0 + j == [SLASH] + t
    ensures [SLASH] + ([x] + r0) + j == [SLASH] + ([x] + t)
  {
    assert ([SLASH] + r0 + j)[1..] == r0 + j && ([SLASH] + t)[1..] == t;
    assert [SLASH] + ([x] + r0) + j == [SLASH] + ([x] + (r0 + j));
  }

  lemma {:induction false} JoinPieces(s: string)
    ensures Join(Pieces(s)) == [SLASH] + s && AllPlain(Pieces(s))
  {
    if s == [] {
      var one: seq<string> := [[]];
      assert one[1..] == [];
    } else {
      JoinPieces(s[1..]);
      var rest := Pieces(s[1..]);
      assert s == [s[0]] + s[1..];
      if s[0] == SLASH {
        assert ([[]] + rest)[1..] == rest;
        assert [SLASH] + [] + Join(rest) == [SLASH] + ([SLASH] + s[1..]);
      } else {
        PushChar(s[0], rest[0], Join(rest[1..]), s[1..]);
        assert Pieces(s)[1..] == rest[1..] && Pieces(s)[0] == [s[0]] + rest[0];
      }
    }
  }

  lemma {:induction false} PlainConcat(a: seq<string>, b: seq<string>)
    ensures AllPlain(a + b) <==> AllPlain(a) && AllPlain(b)
  {
    hide Plain;
    if a == [] {
      assert a + b == b;
    } else {
      PlainConcat(a[1..], b);
      assert (a + b)[0] == a[0] && (a + b)[1..] == a[1..] + b;
    }
  }

  lemma Assoc(a: string, b: string, c: string, d: string)
    ensures a + b + (c + d) == a + b + c + d
  {
  }

  lemma {:induction false} JoinConcat(a: seq<string>, b: seq<string>)
    ensures Join(a + b) == Join(a) + Join(b)
    ensures AllPlain(a + b) <==> AllPlain(a) && AllPlain(b)
  {
    hide AllPlain;
    PlainConcat(a, b);
    if a == [] {
      assert a + b == b && [] + Join(b) == Join(b);
    } else {
      JoinConcat(a[1..], b);
      assert (a + b)[0] == a[0] && (a + b)[1..] == a[1..] + b;
      Assoc([SLASH], a[0], Join(a[1..]), Join(b));
    }
  }

  // ---------------------------------------------------------------- searching

  /** The first place at which `w` occurs, or -1. */
  function Find(s: string, w: string): (r: int)
    ensures -1 <= r <= |s|
    ensures r >= 0 ==> w <= s[r..]
  {
    if w <= s then 0
    else if s == [] then -1
    else
      var r := Find(s[1..], w);
      if r < 0 then -1 else r + 1
  }

  function Between(w: string): (b: string)
    ensures b != [] && b[0] == SLASH
  {
    [SLASH] + w + [SLASH]
  }

  /** The first component but the last that equals `w`, or the number of components. */
  function FirstInner(cs: seq<string>, w: string): (k: nat)
    ensures k <= |cs| && (k < |cs| ==> k + 1 < |cs| && cs[k] == w)
    ensures forall i :: 0 <= i < k && i + 1 < |cs| ==> cs[i] != w
  {
    if |cs| <= 1 then |cs| else if cs[0] == w then 0 else 1 + FirstInner(cs[1..], w)
  }

  lemma NotPrefix(w: string, s: string)
    requires w != [] && s != [] && w[0] != s[0]
    ensures !(w <= s)
  {
  }

  /** A slash-free prefix holds no start of the pattern. */
  lemma {:induction false} SkipPlain(c: string, t: string, w: string)
    requires Plain(c) && w != [] && w[0] == SLASH
    ensures Find(c + t, w) == if Find(t, w) < 0 then -1 else |c| + Find(t, w)
  {
    if c == [] {
      assert c + t == t;
    } else {
      SkipPlain(c[1..], t, w);
      assert (c + t)[0] == c[0] && (c + t)[1..] == c[1..] + t;
      assert c[0] in c;
      NotPrefix(w, c + t);
    }
  }

  /** Where the first slash is. */
  function SlashAt(s: string): (k: nat)
    ensures k <= |s|
  {
    if s == [] || s[0] == SLASH then 0 else 1 + SlashAt(s[1..])
  }

  lemma {:induction false} SlashAfter(c: string, t: string)
    requires Plain(c) && (t == [] || t[0] == SLASH)
    ensures SlashAt(c + t) == |c|
  {
    if c == [] {
      assert c + t == t;
    } else {
      assert c[0] in c && (c + t)[1..] == c[1..] + t;
      SlashAfter(c[1..], t);
    }
  }

  lemma {:induction false} SlashPrefix(p: string, s: string)
    requires p <= s && SlashAt(p) < |p|
    ensures SlashAt(s) == SlashAt(p)
  {
    assert p[0] == s[0];
    if p[0] != SLASH {
      assert forall i :: 0 <= i < |p| ==> p[i] == s[i];
      assert p[1..] <= s[1..];
      SlashPrefix(p[1..], s[1..]);
    }
  }

  lemma PrefixSlash(w: string, c: string, t: string)
    requires Plain(w) && Plain(c) && (t == [] || t[0] == SLASH)
    ensures Between(w) <= [SLASH] + c + t <==> w == c && t != []
  {
    var p, s := w + [SLASH], c + t;
    assert Between(w) == [SLASH] + p && [SLASH] + c + t == [SLASH] + s;
    PrefixTail(p, s);
    SlashAfter(w, [SLASH]);
    SlashAfter(c, t);
    if p <= s {
      SlashPrefix(p, s);
      assert p[..|w|] == s[..|w|] && p[..|w|] == w && s[..|w|] == c;
    }
    assert w == c && t != [] ==> s[..|p|] == p;
  }

  lemma PrefixTail(p: string, s: string)
    ensures [SLASH] + p <= [SLASH] + s <==> p <= s
  {
    assert [SLASH] + p <= [SLASH] + s ==> p == ([SLASH] + p)[1..] == ([SLASH] + s)[..1 + |p|][1..] == s[..|p|];
  }

  /** Searching for a component between slashes finds the first one but the last. */
  lemma {:induction false} FindJoin(cs: seq<string>, w: string)
    requires AllPlain(cs) && Plain(w) && cs != []
    ensures var k := FirstInner(cs, w);
      Find(Join(cs), Between(w)) == if k < |cs| then |Join(cs[..k])| else -1
  {
    hide Between, Plain, Find;
    var rest := cs[1..];
    FindFirst(cs[0], Join(rest), w);
    JoinFront(cs);
    if rest == [] {
      FindEmpty(Between(w));
    } else {
      FindJoin(rest, w);
      if cs[0] != w && FirstInner(rest, w) < |rest| { JoinFrontTake(cs, FirstInner(rest, w)); }
    }
  }

  lemma FindEmpty(p: string)
    requires p != []
    ensures Find([], p) == -1
  {
  }

  lemma JoinFront(cs: seq<string>)
    requires cs != []
    ensures Join(cs) == [SLASH] + cs[0] + Join(cs[1..]) && (cs[1..] != [] <==> Join(cs[1..]) != [])
    ensures |Join(cs[..0])| == 0
  {
  }

  lemma JoinFrontTake(cs: seq<string>, k: nat)
    requires k < |cs|
    ensures |Join(cs[..k + 1])| == 1 + |cs[0]| + |Join(cs[1..][..k])|
  {
    assert cs[..k + 1][0] == cs[0] && cs[..k + 1][1..] == cs[1..][..k];
  }

  lemma FindStep(s: string, p: string)
    requires s != []
    ensures Find(s, p) == if p <= s then 0 else if Find(s[1..], p) < 0 then -1 else Find(s[1..], p) + 1
  {
  }

  lemma HeadTail(c: string, t: string)
    ensures |[SLASH] + c + t| > 0 && ([SLASH] + c + t)[1..] == c + t
  {
  }

  lemma FindFirst(c: string, t: string, w: string)
    requires Plain(c) && Plain(w) && (t == [] || t[0] == SLASH)
    ensures var p := Between(w);
      Find([SLASH] + c + t, p) ==
        if t != [] && w == c then 0
        else if Find(t, p) < 0 then -1
        else 1 + |c| + Find(t, p)
  {
    hide Between, Plain, Find;
    var p := Between(w);
    PrefixSlash(w, c, t);
    SkipPlain(c, t, p);
    HeadTail(c, t);
    FindStep([SLASH] + c + t, p);
  }

  // ---------------------------------------------------------------- the stack of components

  /** Every ".." but a last one takes away the component before it, if there is one. */
  function Up(done: seq<string>, cs: seq<string>): (r: seq<string>)
    ensures cs != [] ==> r != []
    decreases |cs|
  {
    if |cs| <= 1 then done + cs
    else if cs[0] == ".." then Up(if done == [] then [] else done[..|done| - 1], cs[1..])
    else Up(done + [cs[0]], cs[1..])
  }

  /** Without the components that equal `w`, but with the last. */
  function DropInner(cs: seq<string>, w: string): (r: seq<string>)
    ensures cs != [] ==> r != []
  {
    if |cs| <= 1 then cs else if cs[0] == w then DropInner(cs[1..], w) else [cs[0]] + DropInner(cs[1..], w)
  }

  lemma {:induction false} UpPrefix(done: seq<string>, cs: seq<string>, k: nat)
    requires k < |cs| && forall i :: 0 <= i < k ==> cs[i] != ".."
    ensures Up(done, cs) == Up(done + cs[..k], cs[k..])
    decreases k
  {
    if k == 0 {
      assert done + cs[..0] == done && cs[0..] == cs;
    } else {
      UpPrefix(done + [cs[0]], cs[1..], k - 1);
      assert done + [cs[0]] + cs[1..][..k - 1] == done + cs[..k] && cs[1..][k - 1..] == cs[k..];
    }
  }

  /** Taking away the first ".." and what is before it does not change the stack. */
  lemma UpStep(cs: seq<string>)
    requires FirstInner(cs, "..") < |cs|
    ensures var k := FirstInner(cs, "..");
      Up([], cs) == Up([], (if k == 0 then [] else cs[..k - 1]) + cs[k + 1..])
  {
    hide Up, FirstInner;
    var k := FirstInner(cs, "..");
    UpAt(cs, k);
    if k > 0 { UpRest(cs, k); } else { EmptyFront(cs[1..]); }
  }

  lemma UpAt(cs: seq<string>, k: nat)
    requires k + 1 < |cs| && cs[k] == ".." && forall i :: 0 <= i < k ==> cs[i] != ".."
    ensures Up([], cs) == Up(if k == 0 then [] else cs[..k][..k - 1], cs[k + 1..])
  {
    hide Up;
    UpPrefix([], cs, k);
    EmptyFront(cs[..k]);
    var done, rest := cs[..k], cs[k..];
    assert rest[0] == cs[k] && rest[1..] == cs[k + 1..];
    UpUnfold(done, rest);
  }

  lemma UpRest(cs: seq<string>, k: nat)
    requires 0 < k && k + 1 < |cs| && forall i :: 0 <= i < k ==> cs[i] != ".."
    ensures Up([], cs[..k - 1] + cs[k + 1..]) == Up(cs[..k][..k - 1], cs[k + 1..])
  {
    hide Up;
    var a, b := cs[..k - 1], cs[k + 1..];
    assert a == cs[..k][..k - 1];
    UpPrefix([], a + b, k - 1);
    EmptyFront((a + b)[..k - 1]);
    assert (a + b)[..k - 1] == a && (a + b)[k - 1..] == b;
  }

  lemma EmptyFront(a: seq<string>)
    ensures [] + a == a
  {
  }

  lemma UpUnfold(done: seq<string>, cs: seq<string>)
    requires |cs| > 1 && cs[0] == ".."
    ensures Up(done, cs) == Up(if done == [] then [] else done[..|done| - 1], cs[1..])
  {
  }

  lemma {:induction false} DropStep(cs: seq<string>, w: string)
    requires FirstInner(cs, w) < |cs|
    ensures var k := FirstInner(cs, w);
      DropInner(cs, w) == DropInner(cs[..k] + cs[k + 1..], w)
  {
    var k := FirstInner(cs, w);
    if k == 0 {
      assert cs[..0] + cs[1..] == cs[1..];
    } else {
      DropStep(cs[1..], w);
      var cs' := cs[..k] + cs[k + 1..];
      assert cs'[1..] == cs[1..][..k - 1] + cs[1..][k..];
    }
  }

  lemma {:induction false} NoneInner(cs: seq<string>, w: string)
    requires FirstInner(cs, w) == |cs|
    ensures DropInner(cs, w) == cs
  {
    if |cs| > 1 { NoneInner(cs[1..], w); }
  }

  lemma UpNone(cs: seq<string>)
    requires FirstInner(cs, "..") == |cs| && cs != []
    ensures Up([], cs) == cs
  {
    UpPrefix([], cs, |cs| - 1);
    assert [] + cs[..|cs| - 1] + cs[|cs| - 1..] == cs;
  }

  // ---------------------------------------------------------------- get_absfilename

  /** The absolute name as its components say: directories up, then "." and empty components out. */
  function AbsComponents(cs: seq<string>): seq<string> {
    DropInner(DropInner(Up([], cs), "."), "")
  }

  /** The component that a pattern at `idx` stands for. */
  lemma ReplaceInner(cs: seq<string>, k: nat, j: nat)
    requires AllPlain(cs) && j <= k && k + 1 < |cs|
    ensures var s, a, b := Join(cs), |Join(cs[..j])|, |Join(cs[..k + 1])|;
      a <= b < |s| && s[b] == SLASH
      && s[..a] + [SLASH] + s[b + 1..] == Join(cs[..j] + cs[k + 1..]) && AllPlain(cs[..j] + cs[k + 1..])
  {
    hide Join, AllPlain;
    JoinConcat(cs[..j], cs[j..]);
    JoinConcat(cs[..k + 1], cs[k + 1..]);
    JoinConcat(cs[..j], cs[k + 1..]);
    JoinConcat(cs[..j], cs[j..k + 1]);
    assert cs == cs[..j] + cs[j..] == cs[..k + 1] + cs[k + 1..] && cs[..k + 1] == cs[..j] + cs[j..k + 1];
    CutOut(Join(cs), Join(cs[..j]), Join(cs[j..]), Join(cs[..k + 1]), Join(cs[k + 1..]));
  }

  lemma CutOut(s: string, x: string, x': string, y: string, y': string)
    requires s == x + x' == y + y' && |x| <= |y| && y' != [] && y'[0] == SLASH
    ensures |y| < |s| && s[|y|] == SLASH && s[..|x|] + [SLASH] + s[|y| + 1..] == x + y'
  {
    assert s[..|x|] == x && s[|y|..] == y';
    assert y' == [SLASH] + s[|y| + 1..];
    assert x + [SLASH] + s[|y| + 1..] == x + ([SLASH] + s[|y| + 1..]);
  }

  /** The last slash at or before `pos`. */
  method RFindSlash(s: string, pos: nat) returns (r: nat)
    requires pos < |s| && s[0] == SLASH
    ensures r <= pos && s[r] == SLASH && forall i :: r < i <= pos ==> s[i] != SLASH
  {
    r := pos;
    while s[r] != SLASH
      invariant r <= pos && forall i :: r < i <= pos ==> s[i] != SLASH
      decreases r
    {
      r := r - 1;
    }
  }

  /** Before the component `k` the last slash is that of component `k - 1`. */
  lemma SlashBefore(cs: seq<string>, k: nat, r: nat)
    requires AllPlain(cs) && 0 < k < |cs|
    requires var s, idx := Join(cs), |Join(cs[..k])|;
      r < idx <= |s| && s[r] == SLASH && forall i :: r < i < idx ==> s[i] != SLASH
    ensures r == |Join(cs[..k - 1])|
  {
    hide Join, AllPlain;
    JoinTail(cs, k - 1);
    JoinOne(cs, k - 1);
    PlainAt(cs, k - 1);
    SlashStarts(Join(cs), |Join(cs[..k - 1])|, cs[k - 1], Join(cs[k..]), |Join(cs[..k])|, r);
  }

  lemma JoinTail(cs: seq<string>, k: nat)
    requires k < |cs|
    ensures |Join(cs[..k])| <= |Join(cs)|
    ensures Join(cs)[|Join(cs[..k])|..] == [SLASH] + cs[k] + Join(cs[k + 1..])
  {
    JoinConcat(cs[..k], cs[k..]);
    assert cs == cs[..k] + cs[k..] && cs[k..][1..] == cs[k + 1..];
  }

  lemma SlashStarts(s: string, a: nat, c: string, t: string, idx: nat, r: nat)
    requires a <= |s| && s[a..] == [SLASH] + c + t && Plain(c) && idx == a + 1 + |c|
    requires r < idx <= |s| && s[r] == SLASH && forall i :: r < i < idx ==> s[i] != SLASH
    ensures r == a
  {
    assert s[a] == s[a..][0] == SLASH;
    forall i | a < i < idx ensures s[i] != SLASH {
      assert s[i] == s[a..][i - a] == c[i - a - 1];
      assert c[i - a - 1] in c;
    }
  }

  lemma JoinOne(cs: seq<string>, k: nat)
    requires k < |cs|
    ensures |Join(cs[..k + 1])| == |Join(cs[..k])| + 1 + |cs[k]|
    ensures |Join(cs[..k])| == 0 <==> k == 0
  {
    JoinConcat(cs[..k], [cs[k]]);
    assert cs[..k + 1] == cs[..k] + [cs[k]];
    assert Join([cs[k]]) == [SLASH] + cs[k] + [];
  }

  lemma {:induction false} PlainAt(cs: seq<string>, k: nat)
    requires AllPlain(cs) && k < |cs|
    ensures Plain(cs[k])
  {
    if k > 0 { PlainAt(cs[1..], k - 1); }
  }

  lemma BetweenLength(w: string)
    ensures |Between(w)| == |w| + 2
  {
  }

  /** A found pattern is a component, and putting one slash for it takes the component out. */
  lemma Rewrite(cs: seq<string>, w: string, idx: nat)
    requires AllPlain(cs) && Plain(w) && cs != [] && Find(Join(cs), Between(w)) == idx
    ensures var k, file := FirstInner(cs, w), Join(cs);
      && k + 1 < |cs| && idx == |Join(cs[..k])| && (idx == 0 <==> k == 0) && idx + |w| + 2 <= |file|
      && AllPlain(cs[..k] + cs[k + 1..])
      && file[..idx] + [SLASH] + file[idx + |w| + 2..] == Join(cs[..k] + cs[k + 1..])
  {
    hide Find, Join, AllPlain, FirstInner, Plain;
    BetweenLength(w);
    FindJoin(cs, w);
    var k := FirstInner(cs, w);
    ReplaceInner(cs, k, k);
    JoinOne(cs, k);
  }

  lemma RewriteUp(cs: seq<string>, idx: nat, slash: nat)
    requires AllPlain(cs) && cs != [] && Find(Join(cs), Between("..")) == idx && idx > 0
    requires var s := Join(cs); slash < idx <= |s| && s[slash] == SLASH && forall i :: slash < i < idx ==> s[i] != SLASH
    ensures var k, file := FirstInner(cs, ".."), Join(cs);
      && 0 < k && k + 1 < |cs| && idx + 4 <= |file|
      && AllPlain(cs[..k - 1] + cs[k + 1..])
      && file[..slash] + [SLASH] + file[idx + 4..] == Join(cs[..k - 1] + cs[k + 1..])
  {
    hide Find, Join, AllPlain, FirstInner;
    FindJoin(cs, "..");
    var k := FirstInner(cs, "..");
    JoinOne(cs, k);
    SlashBefore(cs, k, slash);
    ReplaceInner(cs, k, k - 1);
  }

  /** The first loop: "/../" and the component before it become a slash. */
  method GoUp(file0: string, ghost cs0: seq<string>) returns (file: string, ghost cs: seq<string>)
    requires file0 == Join(cs0) && AllPlain(cs0) && cs0 != []
    ensures file == Join(Up([], cs0))
    ensures cs == Up([], cs0) && AllPlain(cs) && cs != []
  {
    hide Find, Join, AllPlain, Up;
    file, cs := file0, cs0;
    var idx := Find(file, "/../");
    assert Between("..") == "/../";
    while idx >= 0
      invariant file == Join(cs) && AllPlain(cs) && cs != [] && Up([], cs) == Up([], cs0)
      invariant idx == Find(file, Between(".."))
      decreases |file|
    {
      Rewrite(cs, "..", idx);
      UpStep(cs);
      if idx == 0 {
        assert file[..0] + [SLASH] + file[4..] == "/" + file[4..] && cs[..0] + cs[1..] == cs[1..] && [] + cs[1..] == cs[1..];
        file := "/" + file[4..];
        cs := cs[FirstInner(cs, "..") + 1..];
      } else {
        var slash := RFindSlash(file, idx - 1);
        RewriteUp(cs, idx, slash);
        file := file[..slash] + "/" + file[idx + 4..];
        cs := cs[..FirstInner(cs, "..") - 1] + cs[FirstInner(cs, "..") + 1..];
      }
      idx := Find(file, "/../");
    }
    FindJoin(cs, "..");
    UpNone(cs);
  }

  /** The other two loops: a component between slashes becomes a slash. */
  method TakeOut(file0: string, w: string, ghost cs0: seq<string>) returns (file: string, ghost cs: seq<string>)
    requires file0 == Join(cs0) && AllPlain(cs0) && cs0 != [] && Plain(w)
    ensures file == Join(DropInner(cs0, w))
    ensures cs == DropInner(cs0, w) && AllPlain(cs) && cs != []
  {
    hide Find, Join, AllPlain, DropInner;
    file, cs := file0, cs0;
    var idx := Find(file, Between(w));
    while idx >= 0
      invariant file == Join(cs) && AllPlain(cs) && cs != [] && DropInner(cs, w) == DropInner(cs0, w)
      invariant idx == Find(file, Between(w))
      decreases |file|
    {
      Rewrite(cs, w, idx);
      DropStep(cs, w);
      file := file[..idx] + "/" + file[idx + |w| + 2..];
      cs := cs[..FirstInner(cs, w)] + cs[FirstInner(cs, w) + 1..];
      idx := Find(file, Between(w));
    }
    FindJoin(cs, w);
    NoneInner(cs, w);
  }

  /** The absolute name; `cwd` is absolute, or empty if it is not known. */
  function AbsName(file: string, cwd: string): string {
    if file == [] then []
    else Join(AbsComponents(Pieces((if file[0] == SLASH then file else cwd + "/" + file)[1..])))
  }

  method GetAbsFilename(name: string, cwd: string) returns (file: string)
    requires cwd == [] || cwd[0] == SLASH
    ensures file == AbsName(name, cwd)
  {
    if name == [] {
      return name;
    }
    if name[0] != SLASH {
      file := cwd + "/" + name;
    } else {
      file := name;
    }
    ghost var cs := Pieces(file[1..]);
    JoinPieces(file[1..]);
    assert file == [SLASH] + file[1..];
    file, cs := GoUp(file, cs);
    file, cs := TakeOut(file, ".", cs);
    file, cs := TakeOut(file, "", cs);
  }

  // ---------------------------------------------------------------- what the absolute name looks like

  /** No component but the last equals `w`. */
  predicate NoInner(cs: seq<string>, w: string) {
    |cs| <= 1 || (cs[0] != w && NoInner(cs[1..], w))
  }

  lemma {:induction false} NoInnerFirst(cs: seq<string>, w: string)
    requires NoInner(cs, w)
    ensures FirstInner(cs, w) == |cs|
  {
    if |cs| > 1 { NoInnerFirst(cs[1..], w); }
  }

  lemma {:induction false} DropNone(cs: seq<string>, w: string)
    ensures NoInner(DropInner(cs, w), w) && (AllPlain(cs) ==> AllPlain(DropInner(cs, w)))
  {
    if |cs| > 1 {
      DropNone(cs[1..], w);
      var r := DropInner(cs[1..], w);
      assert ([cs[0]] + r)[1..] == r;
    }
  }

  lemma {:induction false} DropKeepsNone(cs: seq<string>, w: string, u: string)
    requires NoInner(cs, u)
    ensures NoInner(DropInner(cs, w), u)
  {
    if |cs| > 1 {
      DropKeepsNone(cs[1..], w, u);
      var r := DropInner(cs[1..], w);
      assert ([cs[0]] + r)[1..] == r;
    }
  }

  /** No component of a list equals `w`. */
  predicate Lacks(cs: seq<string>, w: string) {
    cs == [] || (cs[0] != w && Lacks(cs[1..], w))
  }

  lemma {:induction false} LacksConcat(a: seq<string>, b: seq<string>, w: string)
    ensures Lacks(a + b, w) <==> Lacks(a, w) && Lacks(b, w)
    ensures Lacks(a, w) && |b| == 1 ==> NoInner(a + b, w)
  {
    if a == [] {
      assert a + b == b;
    } else {
      LacksConcat(a[1..], b, w);
      assert (a + b)[1..] == a[1..] + b;
    }
  }

  lemma LacksInit(cs: seq<string>, w: string)
    requires cs != [] && Lacks(cs, w)
    ensures Lacks(cs[..|cs| - 1], w)
  {
    LacksConcat(cs[..|cs| - 1], [cs[|cs| - 1]], w);
    assert cs == cs[..|cs| - 1] + [cs[|cs| - 1]];
  }

  lemma PlainInit(cs: seq<string>)
    requires cs != [] && AllPlain(cs)
    ensures AllPlain(cs[..|cs| - 1])
  {
    JoinConcat(cs[..|cs| - 1], [cs[|cs| - 1]]);
    assert cs == cs[..|cs| - 1] + [cs[|cs| - 1]];
  }

  lemma {:induction false} UpNoneInner(done: seq<string>, cs: seq<string>)
    requires Lacks(done, "..") && AllPlain(done) && AllPlain(cs) && cs != []
    ensures NoInner(Up(done, cs), "..") && AllPlain(Up(done, cs))
    decreases |cs|
  {
    if |cs| == 1 {
      LacksConcat(done, cs, "..");
      JoinConcat(done, cs);
    } else if cs[0] == ".." {
      if done != [] {
        LacksInit(done, "..");
        PlainInit(done);
      }
      UpNoneInner(if done == [] then [] else done[..|done| - 1], cs[1..]);
    } else {
      LacksConcat(done, [cs[0]], "..");
      JoinConcat(done, [cs[0]]);
      UpNoneInner(done + [cs[0]], cs[1..]);
    }
  }

  /** A list without inner "..", "." and empty components is its own absolute form. */
  lemma Settled(cs: seq<string>)
    requires cs != [] && NoInner(cs, "..") && NoInner(cs, ".") && NoInner(cs, "")
    ensures AbsComponents(cs) == cs
  {
    NoInnerFirst(cs, "..");
    NoInnerFirst(cs, ".");
    NoInnerFirst(cs, "");
    UpNone(cs);
    NoneInner(cs, ".");
    NoneInner(cs, "");
  }

  lemma AbsShape(cs: seq<string>)
    requires AllPlain(cs) && cs != []
    ensures var r := AbsComponents(cs);
      r != [] && AllPlain(r) && NoInner(r, "..") && NoInner(r, ".") && NoInner(r, "")
  {
    UpNoneInner([], cs);
    var a := Up([], cs);
    var b := DropInner(a, ".");
    DropNone(a, ".");
    DropNone(b, "");
    DropKeepsNone(a, ".", "..");
    DropKeepsNone(b, "", "..");
    DropKeepsNone(b, "", ".");
  }

  /** The pieces of a joined list are that list. */
  lemma {:induction false} PiecesJoin(cs: seq<string>)
    requires AllPlain(cs) && cs != []
    ensures Pieces(Join(cs)[1..]) == cs
  {
    assert Join(cs)[1..] == cs[0] + Join(cs[1..]);
    if |cs| == 1 {
      PiecesPlain(cs[0], []);
      assert Pieces([])[0] == [];
      assert cs[0] + [] == cs[0] && cs == [cs[0]];
    } else {
      PiecesJoin(cs[1..]);
      var t := Join(cs[1..]);
      PiecesPlain(cs[0], t);
      assert t[0] == SLASH;
      assert Pieces(t) == [[]] + Pieces(t[1..]);
      assert Pieces(t)[1..] == cs[1..];
      assert cs[0] + [] == cs[0];
      assert cs == [cs[0]] + cs[1..];
    }
  }

  lemma {:induction false} PiecesPlain(c: string, t: string)
    requires Plain(c)
    ensures Pieces(c + t) == [c + Pieces(t)[0]] + Pieces(t)[1..]
  {
    if c == [] {
      assert c + t == t;
      assert [] + Pieces(t)[0] == Pieces(t)[0];
    } else {
      assert c[0] in c;
      PiecesPlain(c[1..], t);
      assert (c + t)[0] == c[0] && (c + t)[1..] == c[1..] + t;
      assert [c[0]] + (c[1..] + Pieces(t)[0]) == c + Pieces(t)[0];
    }
  }

  /** The absolute name of a non-empty name is absolute, holds none of "/../", "/./" and "//" (no later loop brings
      back what an earlier one removed), and is its own absolute name. */
  lemma AbsNameForm(file: string, cwd: string)
    requires file != [] && (cwd == [] || cwd[0] == SLASH)
    ensures var r := AbsName(file, cwd);
      && r != [] && r[0] == SLASH
      && Find(r, "/../") == -1 && Find(r, "/./") == -1 && Find(r, "//") == -1
      && AbsName(r, cwd) == r
  {
    hide Pieces, Find, Up, DropInner, AllPlain, NoInner, FirstInner, AbsComponents;
    var cs := Pieces((if file[0] == SLASH then file else cwd + "/" + file)[1..]);
    JoinPieces((if file[0] == SLASH then file else cwd + "/" + file)[1..]);
    AbsShape(cs);
    var r := AbsComponents(cs);
    assert Between("..") == "/../" && Between(".") == "/./" && Between("") == "//";
    FormFound(r, "..");
    FormFound(r, ".");
    FormFound(r, "");
    Settled(r);
    PiecesJoin(r);
  }

  lemma FormFound(cs: seq<string>, w: string)
    requires cs != [] && AllPlain(cs) && NoInner(cs, w) && Plain(w)
    ensures Find(Join(cs), Between(w)) == -1
  {
    NoInnerFirst(cs, w);
    FindJoin(cs, w);
  }

  // ---------------------------------------------------------------- file_util: splitting and canonical paths

  function NonEmpty(cs: seq<string>): seq<string> {
    if cs == [] then [] else (if cs[0] == [] then [] else [cs[0]]) + NonEmpty(cs[1..])
  }

  /** split at slashes, without empty elements. */
  method Split(s: string) returns (elems: seq<string>)
    ensures elems == NonEmpty(Pieces(s))
  {
    elems := [];
    var item: string := [];
    var pos := 0;
    SplitStart(s);
    while pos < |s|
      invariant pos <= |s|
      invariant NonEmpty(Pieces(s)) == elems + NonEmpty([item + Pieces(s[pos..])[0]] + Pieces(s[pos..])[1..])
    {
      SplitStep(s, pos, item, elems);
      if s[pos] == SLASH {
        if item != [] {
          elems := elems + [item];
        }
        item := [];
      } else {
        item := item + [s[pos]];
      }
      pos := pos + 1;
    }
    SplitEnd(s[pos..], item);
    if item != [] {
      elems := elems + [item];
    }
  }

  lemma SplitStart(s: string)
    ensures NonEmpty(Pieces(s)) == [] + NonEmpty([[] + Pieces(s[0..])[0]] + Pieces(s[0..])[1..])
  {
    assert s[0..] == s && [] + Pieces(s)[0] == Pieces(s)[0];
    assert [Pieces(s)[0]] + Pieces(s)[1..] == Pieces(s);
  }

  lemma SplitStep(s: string, pos: nat, item: string, elems: seq<string>)
    requires pos < |s|
    ensures var p, p' := Pieces(s[pos..]), Pieces(s[pos + 1..]);
      elems + NonEmpty([item + p[0]] + p[1..]) ==
        if s[pos] == SLASH then (if item == [] then elems else elems + [item]) + NonEmpty([[] + p'[0]] + p'[1..])
        else elems + NonEmpty([item + [s[pos]] + p'[0]] + p'[1..])
  {
    var p, p' := Pieces(s[pos..]), Pieces(s[pos + 1..]);
    assert s[pos..][1..] == s[pos + 1..] && s[pos..][0] == s[pos];
    assert [] + p'[0] == p'[0] && [p'[0]] + p'[1..] == p';
    if s[pos] == SLASH {
      assert p[0] == [] && p[1..] == p' && item + [] == item;
      assert ([item] + p')[1..] == p';
      assert elems + ([item] + NonEmpty(p')) == elems + [item] + NonEmpty(p');
    } else {
      assert p[1..] == p'[1..] && item + ([s[pos]] + p'[0]) == item + [s[pos]] + p'[0];
    }
  }

  lemma SplitEnd(s: string, item: string)
    requires s == []
    ensures NonEmpty([item + Pieces(s)[0]] + Pieces(s)[1..]) == if item == [] then [] else [item]
  {
    assert item + [] == item;
    var l: seq<string> := [item];
    assert [item] + Pieces(s)[1..] == l && l[1..] == [];
  }

  /** ".." takes a component off the stack if there is one, "." does nothing. */
  function Canon(done: seq<string>, parts: seq<string>): seq<string>
    decreases parts
  {
    if parts == [] then done
    else if parts[0] == ".." then Canon(if done == [] then [] else done[..|done| - 1], parts[1..])
    else if parts[0] == "." then Canon(done, parts[1..])
    else Canon(done + [parts[0]], parts[1..])
  }

  function Slashed(cs: seq<string>): string {
    if cs == [] then "/" else Join(cs)
  }

  function Canonical(path: string): string {
    if path == [] || path[0] != SLASH then path else Slashed(Canon([], NonEmpty(Pieces(path))))
  }

  /** Components with slashes between them. */
  function Separated(cs: seq<string>): string {
    if cs == [] then [] else if |cs| == 1 then cs[0] else cs[0] + "/" + Separated(cs[1..])
  }

  lemma {:induction false} SlashedBetween(cs: seq<string>)
    ensures "/" + Separated(cs) == Slashed(cs)
  {
    if |cs| == 1 {
      assert Join(cs[1..]) == [];
      assert [SLASH] + cs[0] + [] == "/" + cs[0];
    } else if |cs| > 1 {
      SlashedBetween(cs[1..]);
      assert "/" + (cs[0] + "/" + Separated(cs[1..])) == [SLASH] + cs[0] + ("/" + Separated(cs[1..]));
    }
  }

  method GetCanonicalizedPath(path: string) returns (output: string)
    ensures output == Canonical(path)
  {
    if path == [] || path[0] != SLASH {
      return path;
    }
    var parts := Split(path);
    var canonical: seq<string> := [];
    assert parts[0..] == parts;
    for i := 0 to |parts|
      invariant Canon([], parts) == Canon(canonical, parts[i..])
    {
      assert parts[i..][0] == parts[i] && parts[i..][1..] == parts[i + 1..];
      if parts[i] == ".." && canonical != [] {
        canonical := canonical[..|canonical| - 1];
      } else if parts[i] != "." && parts[i] != ".." {
        canonical := canonical + [parts[i]];
      }
    }
    assert parts[|parts|..] == [];
    var joined := JoinBetween(canonical);
    output := "/" + joined;
    SlashedBetween(canonical);
  }

  method JoinBetween(cs: seq<string>) returns (output: string)
    ensures output == Separated(cs)
  {
    output := [];
    assert cs[0..] == cs;
    for i := 0 to |cs|
      invariant Separated(cs) == output + Separated(cs[i..])
    {
      BetweenStep(cs, i, output);
      output := output + cs[i];
      if i + 1 != |cs| {
        output := output + "/";
      }
    }
    assert Separated(cs[|cs|..]) == [] && output + [] == output;
  }

  lemma BetweenStep(cs: seq<string>, i: nat, out: string)
    requires i < |cs|
    ensures out + Separated(cs[i..]) == if i + 1 == |cs| then out + cs[i] + Separated(cs[i + 1..])
                                       else out + cs[i] + "/" + Separated(cs[i + 1..])
  {
    assert cs[i..][0] == cs[i] && cs[i..][1..] == cs[i + 1..];
    if i + 1 == |cs| {
      assert out + cs[i] + [] == out + cs[i];
    } else {
      assert out + (cs[i] + "/" + Separated(cs[i + 1..])) == out + cs[i] + "/" + Separated(cs[i + 1..]);
    }
  }

  // ---------------------------------------------------------------- what canonical paths look like

  predicate ProperName(c: string) {
    c != "" && c != "." && c != ".." && Plain(c)
  }

  predicate Proper(cs: seq<string>) {
    cs == [] || (ProperName(cs[0]) && Proper(cs[1..]))
  }

  lemma {:induction false} ProperConcat(a: seq<string>, b: seq<string>)
    ensures Proper(a + b) <==> Proper(a) && Proper(b)
  {
    hide ProperName;
    if a == [] {
      assert a + b == b;
    } else {
      ProperConcat(a[1..], b);
      assert (a + b)[0] == a[0] && (a + b)[1..] == a[1..] + b;
    }
  }

  lemma {:induction false} NonEmptyConcat(a: seq<string>, b: seq<string>)
    ensures NonEmpty(a + b) == NonEmpty(a) + NonEmpty(b)
  {
    if a == [] {
      assert a + b == b && [] + NonEmpty(b) == NonEmpty(b);
    } else {
      NonEmptyConcat(a[1..], b);
      assert (a + b)[0] == a[0] && (a + b)[1..] == a[1..] + b;
      var r := NonEmpty(a[1..]);
      assert [] + (r + NonEmpty(b)) == r + NonEmpty(b) && [] + r == r;
      assert [a[0]] + (r + NonEmpty(b)) == [a[0]] + r + NonEmpty(b);
    }
  }

  lemma {:induction false} NonEmptyFacts(a: seq<string>)
    ensures AllPlain(a) ==> AllPlain(NonEmpty(a)) && Lacks(NonEmpty(a), "")
    ensures Proper(a) ==> NonEmpty(a) == a && AllPlain(a)
    ensures Lacks(a, "") ==> NonEmpty(a) == a
  {
    hide Plain;
    if a != [] {
      NonEmptyFacts(a[1..]);
      var r := NonEmpty(a[1..]);
      assert ([a[0]] + r)[1..] == r;
      assert [] + r == r && [a[0]] + a[1..] == a;
    }
  }

  lemma {:induction false} CanonProper(done: seq<string>, parts: seq<string>)
    requires Proper(done) && AllPlain(parts) && Lacks(parts, "")
    ensures Proper(Canon(done, parts))
    decreases parts
  {
    if parts != [] {
      if parts[0] == ".." {
        if done != [] {
          ProperConcat(done[..|done| - 1], [done[|done| - 1]]);
          assert done == done[..|done| - 1] + [done[|done| - 1]];
        }
        CanonProper(if done == [] then [] else done[..|done| - 1], parts[1..]);
      } else if parts[0] == "." {
        CanonProper(done, parts[1..]);
      } else {
        ProperConcat(done, [parts[0]]);
        CanonProper(done + [parts[0]], parts[1..]);
      }
    }
  }

  lemma {:induction false} CanonConcat(done: seq<string>, a: seq<string>, b: seq<string>)
    ensures Canon(done, a + b) == Canon(Canon(done, a), b)
    decreases a
  {
    if a == [] {
      assert a + b == b;
    } else {
      assert (a + b)[0] == a[0] && (a + b)[1..] == a[1..] + b;
      if a[0] == ".." {
        CanonConcat(if done == [] then [] else done[..|done| - 1], a[1..], b);
      } else if a[0] == "." {
        CanonConcat(done, a[1..], b);
      } else {
        CanonConcat(done + [a[0]], a[1..], b);
      }
    }
  }

  lemma {:induction false} CanonPush(done: seq<string>, cs: seq<string>)
    requires Proper(cs)
    ensures Canon(done, cs) == done + cs
    decreases cs
  {
    if cs == [] {
      assert done + cs == done;
    } else {
      CanonPush(done + [cs[0]], cs[1..]);
      assert done + [cs[0]] + cs[1..] == done + cs;
    }
  }

  lemma PiecesSlash(s: string)
    requires s != [] && s[0] == SLASH
    ensures Pieces(s) == [[]] + Pieces(s[1..]) && NonEmpty(Pieces(s)) == NonEmpty(Pieces(s[1..]))
  {
    var one: seq<string> := [[]];
    assert (one + Pieces(s[1..]))[1..] == Pieces(s[1..]);
    assert [] + NonEmpty(Pieces(s[1..])) == NonEmpty(Pieces(s[1..]));
  }

  /** The path with the given proper components has exactly those. */
  lemma SplitSlashed(cs: seq<string>)
    requires Proper(cs)
    ensures NonEmpty(Pieces(Slashed(cs))) == cs
  {
    hide Pieces, Proper, Join;
    PiecesSlash(Slashed(cs));
    NonEmptyFacts(cs);
    if cs == [] {
      PiecesNothing("/"[1..]);
    } else {
      PiecesJoin(cs);
    }
  }

  lemma PiecesNothing(s: string)
    requires s == []
    ensures Pieces(s) == [[]] && NonEmpty(Pieces(s)) == []
  {
    var one: seq<string> := [[]];
    assert one[1..] == [];
  }

  lemma SplitPlain(s: string)
    ensures AllPlain(NonEmpty(Pieces(s))) && Lacks(NonEmpty(Pieces(s)), "")
  {
    JoinPieces(s);
    NonEmptyFacts(Pieces(s));
  }

  /** The canonical form of an absolute path is absolute, its components are all proper names (not empty, "." or
      ".."), and it is its own canonical form. */
  lemma CanonicalForm(path: string)
    requires path != [] && path[0] == SLASH
    ensures var r := Canonical(path);
      r != [] && r[0] == SLASH && Canonical(r) == r && Proper(NonEmpty(Pieces(r))) && r == Slashed(NonEmpty(Pieces(r)))
  {
    hide Pieces, Proper, Join, Canon, AllPlain, Lacks, NonEmpty;
    SplitPlain(path);
    ProperNothing();
    CanonProper([], NonEmpty(Pieces(path)));
    var cs := Canon([], NonEmpty(Pieces(path)));
    SplitSlashed(cs);
    CanonPush([], cs);
    EmptyFront(cs);
  }

  lemma ProperNothing()
    ensures Proper([])
  {
  }

  // ---------------------------------------------------------------- relative paths

  /** How many components two lists share at the front. */
  function Shared(a: seq<string>, b: seq<string>): (k: nat)
    ensures k <= |a| && k <= |b| && a[..k] == b[..k]
  {
    if a == [] || b == [] || a[0] != b[0] then 0
    else
      var k := Shared(a[1..], b[1..]);
      assert a[..k + 1] == [a[0]] + a[1..][..k] && b[..k + 1] == [b[0]] + b[1..][..k];
      k + 1
  }

  function Ups(n: nat): string {
    if n == 0 then "" else "../" + Ups(n - 1)
  }

  function Relative(to: string, from: string): string {
    var t, f := NonEmpty(Pieces(to)), NonEmpty(Pieces(from));
    var k := Shared(t, f);
    Ups(|f| - k) + Separated(t[k..])
  }

  method GetRelativePath(to: string, from: string) returns (output: string)
    ensures output == Relative(to, from)
  {
    hide NonEmpty, Pieces;
    var toDirs := Split(to);
    var fromDirs := Split(from);
    output := [];
    var k := 0;
    assert toDirs[0..] == toDirs && fromDirs[0..] == fromDirs;
    while k < |toDirs| && k < |fromDirs| && toDirs[k] == fromDirs[k]
      invariant k <= |toDirs| && k <= |fromDirs|
      invariant Shared(toDirs, fromDirs) == k + Shared(toDirs[k..], fromDirs[k..])
    {
      assert toDirs[k..][1..] == toDirs[k + 1..] && fromDirs[k..][1..] == fromDirs[k + 1..];
      k := k + 1;
    }
    var i := k;
    while i < |fromDirs|
      invariant k <= i <= |fromDirs| && Ups(|fromDirs| - k) == output + Ups(|fromDirs| - i)
    {
      assert output + ("../" + Ups(|fromDirs| - i - 1)) == output + "../" + Ups(|fromDirs| - i - 1);
      output := output + "../";
      i := i + 1;
    }
    assert output + "" == output;
    var rest := JoinBetween(toDirs[k..]);
    output := output + rest;
  }

  lemma {:induction false} PiecesConcat(a: string, b: string)
    ensures Pieces(a + "/" + b) == Pieces(a) + Pieces(b)
  {
    if a == [] {
      PiecesNothing(a);
      PiecesSlash("/" + b);
      assert a + "/" + b == "/" + b && ("/" + b)[1..] == b;
    } else {
      PiecesConcat(a[1..], b);
      var s := a + "/" + b;
      assert s[0] == a[0] && s[1..] == a[1..] + "/" + b;
      PiecesCons(s);
      PiecesCons(a);
      ConsConcat(a[0], Pieces(a[1..]), Pieces(b));
    }
  }

  lemma PiecesCons(s: string)
    requires s != []
    ensures Pieces(s) == Consed(s[0], Pieces(s[1..]))
  {
  }

  lemma ConsConcat(x: char, p: seq<string>, q: seq<string>)
    requires p != []
    ensures Consed(x, p + q) == Consed(x, p) + q
  {
    assert (p + q)[0] == p[0] && (p + q)[1..] == p[1..] + q;
    assert [[x] + p[0]] + (p[1..] + q) == [[x] + p[0]] + p[1..] + q;
    var one: seq<string> := [[]];
    assert one + (p + q) == one + p + q;
  }

  function Dots(n: nat): (r: seq<string>) {
    if n == 0 then [] else [".."] + Dots(n - 1)
  }

  lemma {:induction false} PiecesUps(n: nat, s: string)
    ensures NonEmpty(Pieces(Ups(n) + s)) == Dots(n) + NonEmpty(Pieces(s))
  {
    hide Pieces, NonEmpty;
    if n == 0 {
      assert Ups(0) + s == s && Dots(0) + NonEmpty(Pieces(s)) == NonEmpty(Pieces(s));
    } else {
      PiecesUps(n - 1, s);
      assert Ups(n) + s == ".." + "/" + (Ups(n - 1) + s);
      PiecesConcat("..", Ups(n - 1) + s);
      DotsPieces();
      NonEmptyConcat([".."], Pieces(Ups(n - 1) + s));
      assert [".."] + (Dots(n - 1) + NonEmpty(Pieces(s))) == [".."] + Dots(n - 1) + NonEmpty(Pieces(s));
    }
  }

  lemma DotsPieces()
    ensures Pieces("..") == [".."] && NonEmpty([".."]) == [".."]
  {
    PiecesPlain("..", []);
    PiecesNothing([]);
    assert ".." + "" == "..";
    var one: seq<string> := [".."];
    assert one[1..] == [] && one + [] == one;
  }

  lemma PiecesBetween(cs: seq<string>)
    requires Proper(cs)
    ensures NonEmpty(Pieces(Separated(cs))) == cs
  {
    hide Pieces, Proper, NonEmpty, Separated;
    SplitSlashed(cs);
    SlashedBetween(cs);
    PiecesSlash("/" + Separated(cs));
    assert ("/" + Separated(cs))[1..] == Separated(cs);
  }

  lemma {:induction false} CanonDots(done: seq<string>, n: nat)
    requires n <= |done|
    ensures Canon(done, Dots(n)) == done[..|done| - n]
    decreases n
  {
    if n == 0 {
      assert done[..|done|] == done;
    } else {
      CanonDots(done[..|done| - 1], n - 1);
      assert done[..|done| - 1][..|done| - n] == done[..|done| - n];
      assert ([".."] + Dots(n - 1))[1..] == Dots(n - 1);
    }
  }

  /** Round trip: following the relative path between canonical paths leads from the one to the other. */
  lemma RelativeLeadsTo(to: string, from: string)
    requires to != [] && to[0] == SLASH && Canonical(to) == to
    requires from != [] && from[0] == SLASH && Canonical(from) == from
    ensures Canonical(from + "/" + Relative(to, from)) == to
  {
    hide Pieces, Proper, Canon, NonEmpty, Slashed, Separated, Ups, Shared;
    CanonicalForm(to);
    CanonicalForm(from);
    var t, f := NonEmpty(Pieces(to)), NonEmpty(Pieces(from));
    var k := Shared(t, f);
    var path := from + "/" + Relative(to, from);
    PartsOfRelative(to, from, t, f, k);
    CanonOfRelative(t, f, k);
    assert path[0] == SLASH;
  }

  lemma PartsOfRelative(to: string, from: string, t: seq<string>, f: seq<string>, k: nat)
    requires t == NonEmpty(Pieces(to)) && f == NonEmpty(Pieces(from)) && k == Shared(t, f) && Proper(t)
    ensures NonEmpty(Pieces(from + "/" + Relative(to, from))) == f + (Dots(|f| - k) + t[k..])
  {
    hide Pieces, Proper, NonEmpty, Separated, Ups, Shared;
    PiecesConcat(from, Relative(to, from));
    NonEmptyConcat(Pieces(from), Pieces(Relative(to, from)));
    PiecesUps(|f| - k, Separated(t[k..]));
    ProperConcat(t[..k], t[k..]);
    assert t == t[..k] + t[k..];
    PiecesBetween(t[k..]);
  }

  lemma CanonOfRelative(t: seq<string>, f: seq<string>, k: nat)
    requires Proper(t) && Proper(f) && k <= |t| && k <= |f| && t[..k] == f[..k]
    ensures Canon([], f + (Dots(|f| - k) + t[k..])) == t
  {
    hide Proper, Canon, Dots;
    ProperConcat(t[..k], t[k..]);
    assert t == t[..k] + t[k..];
    CanonConcat([], f, Dots(|f| - k) + t[k..]);
    CanonPush([], f);
    EmptyFront(f);
    CanonConcat(f, Dots(|f| - k), t[k..]);
    CanonDots(f, |f| - k);
    CanonPush(f[..k], t[k..]);
  }

  // ---------------------------------------------------------------- no path is shorter

  /** How many steps apart two directories are. */
  function Apart(a: seq<string>, b: seq<string>): nat {
    |a| - Shared(a, b) + (|b| - Shared(a, b))
  }

  lemma {:induction false} SharedGrows(a: seq<string>, c: string, b: seq<string>)
    ensures Shared(a, b) <= Shared(a + [c], b) <= Shared(a, b) + 1
  {
    if a == [] {
      assert ([] + [c])[1..] == [] && Shared([], if b == [] then [] else b[1..]) == 0;
    } else {
      assert (a + [c])[0] == a[0] && (a + [c])[1..] == a[1..] + [c];
      if b != [] { SharedGrows(a[1..], c, b[1..]); }
    }
  }

  lemma {:induction false} SharedSelf(a: seq<string>)
    ensures Shared(a, a) == |a|
  {
    if a != [] { SharedSelf(a[1..]); }
  }

  /** Every component takes a directory at most one step nearer. */
  lemma {:induction false} StepsNeeded(done: seq<string>, parts: seq<string>)
    ensures |parts| >= Apart(done, Canon(done, parts))
    decreases parts
  {
    hide Shared;
    var r := Canon(done, parts);
    if parts == [] {
      SharedSelf(done);
    } else if parts[0] == ".." {
      if done == [] {
        StepsNeeded([], parts[1..]);
      } else {
        var up := done[..|done| - 1];
        StepsNeeded(up, parts[1..]);
        SharedGrows(up, done[|done| - 1], r);
        assert done == up + [done[|done| - 1]];
      }
    } else if parts[0] == "." {
      StepsNeeded(done, parts[1..]);
    } else {
      StepsNeeded(done + [parts[0]], parts[1..]);
      SharedGrows(done, parts[0], r);
    }
  }

  lemma DotsLength(n: nat)
    ensures |Dots(n)| == n
  {
    if n > 0 { DotsLength(n - 1); }
  }

  /** The components of a path from a canonical directory, run on its stack. */
  lemma FollowedFrom(from: string, way: string)
    requires from != [] && from[0] == SLASH && Canonical(from) == from
    ensures NonEmpty(Pieces(Canonical(from + "/" + way))) == Canon(NonEmpty(Pieces(from)), NonEmpty(Pieces(way)))
  {
    hide Pieces, Proper, Canon, NonEmpty, Slashed, AllPlain, Lacks;
    CanonicalForm(from);
    var f, w := NonEmpty(Pieces(from)), NonEmpty(Pieces(way));
    PiecesConcat(from, way);
    NonEmptyConcat(Pieces(from), Pieces(way));
    CanonConcat([], f, w);
    CanonPush([], f);
    EmptyFront(f);
    SplitPlain(way);
    CanonProper(f, w);
    SplitSlashed(Canon(f, w));
    assert (from + "/" + way)[0] == SLASH;
  }

  /** No path that leads from the one canonical path to the other has fewer components than the relative path. */
  lemma RelativeShortest(to: string, from: string, way: string)
    requires to != [] && to[0] == SLASH && Canonical(to) == to
    requires from != [] && from[0] == SLASH && Canonical(from) == from
    requires Canonical(from + "/" + way) == to
    ensures |NonEmpty(Pieces(Relative(to, from)))| <= |NonEmpty(Pieces(way))|
  {
    hide Pieces, Proper, Canon, NonEmpty, Slashed, Separated, Ups, Shared, Canonical;
    CanonicalForm(to);
    var t, f := NonEmpty(Pieces(to)), NonEmpty(Pieces(from));
    var k := Shared(t, f);
    FollowedFrom(from, way);
    StepsNeeded(f, NonEmpty(Pieces(way)));
    SharedSwap(t, f);
    PiecesUps(|f| - k, Separated(t[k..]));
    ProperConcat(t[..k], t[k..]);
    assert t == t[..k] + t[k..];
    PiecesBetween(t[k..]);
    DotsLength(|f| - k);
  }

  lemma {:induction false} SharedSwap(a: seq<string>, b: seq<string>)
    ensures Shared(a, b) == Shared(b, a)
  {
    if a != [] && b != [] && a[0] == b[0] { SharedSwap(a[1..], b[1..]); }
  }
}
