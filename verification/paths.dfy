/** Lexical path algebra for Unix paths: cleaning, joining, and the check that
    keeps a received file inside the output directory. */
module Paths {
  import opened Bytes

  /** A path between slashes. */
  type Comp = string

  const DOT: Comp := "."
  const DOTDOT: Comp := ".."

  ghost predicate NoSlash(c: Comp) {
    forall i | 0 <= i < |c| :: c[i] != '/'
  }

  /** A component that names something: not empty, "." or "..". */
  ghost predicate Ordinary(c: Comp) {
    NoSlash(c) && c != "" && c != DOT && c != DOTDOT
  }

  ghost predicate AllOrdinary(cs: seq<Comp>) {
    forall i | 0 <= i < |cs| :: Ordinary(cs[i])
  }

  /** A path cut at its slashes, keeping empty pieces. */
  function Split(s: string): (cs: seq<Comp>)
    ensures |cs| > 0
  {
    if s == "" then [""]
    else
      var rest := Split(s[1..]);
      if s[0] == '/' then [""] + rest else [[s[0]] + rest[0]] + rest[1..]
  }

  function Glue(cs: seq<Comp>): string {
    if cs == [] then "" else if |cs| == 1 then cs[0] else cs[0] + "/" + Glue(cs[1..])
  }

  // ---------------------------------------------------------------- cleaning

  /** One component processed on top of those kept so far. */
  function Push(kept: seq<Comp>, c: Comp, abs: bool): seq<Comp> {
    if c == "" || c == DOT then kept
    else if c != DOTDOT then kept + [c]
    else if kept != [] && kept[|kept| - 1] != DOTDOT then kept[..|kept| - 1]
    else if abs then kept
    else kept + [DOTDOT]
  }

  function PushAll(kept: seq<Comp>, cs: seq<Comp>, abs: bool): seq<Comp>
    decreases |cs|
  {
    if cs == [] then kept else PushAll(Push(kept, cs[0], abs), cs[1..], abs)
  }

  /** A cleaned path: rooted or not, and what remains of its components. */
  datatype Cleaned = Cleaned(abs: bool, comps: seq<Comp>)

  predicate IsAbs(s: string) {
    s != "" && s[0] == '/'
  }

  function CleanParts(s: string): Cleaned {
    Cleaned(IsAbs(s), PushAll([], Split(s), IsAbs(s)))
  }

  function Render(c: Cleaned): string {
    if c.abs then "/" + Glue(c.comps)
    else if c.comps == [] then DOT
    else Glue(c.comps)
  }

  /** filepath.Clean. */
  function Clean(s: string): string {
    Render(CleanParts(s))
  }

  /** filepath.Join of two elements; empty elements are ignored. */
  function Join(a: string, b: string): string {
    if a == "" && b == "" then ""
    else if a == "" then Clean(b)
    else Clean(a + "/" + b)
  }

  // ---------------------------------------------------------------- safeJoin

  /** The receiver's check, on the cleaned text as the program makes it. */
  function SafeJoin(dir: string, name: string): Option<string> {
    var clean := Clean(name);
    if IsAbs(clean) || clean == ".." || "../" <= clean then None
    else Some(Join(dir, clean))
  }

  // ------------------------------------------------------------ normal forms

  /** What cleaning produces: ".." only at the front, and never under a root. */
  ghost predicate Normal(c: Cleaned) {
    exists n: nat :: Ups(c, n)
  }

  ghost predicate Ups(c: Cleaned, n: nat) {
    && n <= |c.comps| && (c.abs ==> n == 0)
    && (forall i | 0 <= i < n :: c.comps[i] == DOTDOT)
    && (forall i | n <= i < |c.comps| :: Ordinary(c.comps[i]))
  }

  lemma {:induction false} SplitHasNoSlash(s: string)
    ensures forall i | 0 <= i < |Split(s)| :: NoSlash(Split(s)[i])
  {
    if s != "" {
      SplitHasNoSlash(s[1..]);
      var rest := Split(s[1..]);
      forall i | 0 <= i < |Split(s)| ensures NoSlash(Split(s)[i]) {
        if s[0] == '/' {
          if i > 0 { assert Split(s)[i] == rest[i - 1]; }
        } else {
          assert Split(s)[i] == if i == 0 then [s[0]] + rest[0] else rest[i];
        }
      }
    }
  }

  lemma {:induction false} SplitPlain(c: Comp)
    requires NoSlash(c)
    ensures Split(c) == [c]
  {
    if c != "" {
      SplitPlain(c[1..]);
      assert [c[0]] + c[1..] == c;
    }
  }

  /** Splitting is compatible with joining by a slash. */
  lemma {:induction false} SplitJoin(a: string, b: string)
    ensures Split(a + "/" + b) == Split(a) + Split(b)
  {
    var s := a + "/" + b;
    if a == "" {
      assert s[1..] == b;
    } else {
      assert s[1..] == a[1..] + "/" + b;
      SplitJoin(a[1..], b);
    }
  }

  lemma {:induction false} SplitGlue(cs: seq<Comp>)
    requires cs != [] && forall i | 0 <= i < |cs| :: NoSlash(cs[i])
    ensures Split(Glue(cs)) == cs
  {
    SplitPlain(cs[0]);
    if |cs| > 1 {
      SplitGlue(cs[1..]);
      SplitJoin(cs[0], Glue(cs[1..]));
    }
  }

  lemma {:induction false} PushAllSplit(kept: seq<Comp>, a: seq<Comp>, b: seq<Comp>, abs: bool)
    ensures PushAll(kept, a + b, abs) == PushAll(PushAll(kept, a, abs), b, abs)
    decreases |a|
  {
    if a == [] {
      assert a + b == b;
    } else {
      assert (a + b)[1..] == a[1..] + b;
      PushAllSplit(Push(kept, a[0], abs), a[1..], b, abs);
    }
  }

  lemma {:induction false} PushOrdinary(kept: seq<Comp>, cs: seq<Comp>, abs: bool)
    requires AllOrdinary(cs)
    ensures PushAll(kept, cs, abs) == kept + cs
    decreases |cs|
  {
    if cs != [] {
      PushOrdinary(kept + [cs[0]], cs[1..], abs);
    }
  }

  lemma PushKeepsNormal(kept: seq<Comp>, c: Comp, abs: bool)
    requires Normal(Cleaned(abs, kept)) && NoSlash(c)
    ensures Normal(Cleaned(abs, Push(kept, c, abs)))
  {
    var n: nat :| Ups(Cleaned(abs, kept), n);
    var after := Cleaned(abs, Push(kept, c, abs));
    if c == DOTDOT && n == |kept| && !abs {
      assert Ups(after, n + 1);
    } else {
      assert Ups(after, n);
    }
  }

  lemma {:induction false} PushAllNormal(kept: seq<Comp>, cs: seq<Comp>, abs: bool)
    requires Normal(Cleaned(abs, kept)) && forall i | 0 <= i < |cs| :: NoSlash(cs[i])
    ensures Normal(Cleaned(abs, PushAll(kept, cs, abs)))
    decreases |cs|
  {
    if cs != [] {
      PushKeepsNormal(kept, cs[0], abs);
      PushAllNormal(Push(kept, cs[0], abs), cs[1..], abs);
    }
  }

  lemma CleanIsNormal(s: string)
    ensures Normal(CleanParts(s))
  {
    SplitHasNoSlash(s);
    assert Ups(Cleaned(IsAbs(s), []), 0);
    PushAllNormal([], Split(s), IsAbs(s));
  }

  lemma {:induction false} PushUps(k: nat, cs: seq<Comp>)
    requires forall i | 0 <= i < |cs| :: cs[i] == DOTDOT
    ensures PushAll(seq(k, _ => DOTDOT), cs, false) == seq(k, _ => DOTDOT) + cs
    decreases |cs|
  {
    if cs != [] {
      var kept := seq(k, _ => DOTDOT);
      assert Push(kept, DOTDOT, false) == kept + [DOTDOT] == seq(k + 1, _ => DOTDOT);
      PushUps(k + 1, cs[1..]);
    }
  }

  lemma NormalIsStable(c: Cleaned)
    requires Normal(c)
    ensures PushAll([], c.comps, c.abs) == c.comps
  {
    hide Push, PushAll;
    var n: nat :| Ups(c, n);
    var ups, rest := c.comps[..n], c.comps[n..];
    assert c.comps == ups + rest;
    PushAllSplit([], ups, rest, c.abs);
    if c.abs {
      assert ups == [] && PushAll([], [], true) == [] by { PushOrdinary([], [], true); }
    } else {
      PushUps(0, ups);
      assert seq(0, _ => DOTDOT) + ups == ups && seq(0, _ => DOTDOT) == [];
    }
    PushOrdinary(ups, rest, c.abs);
  }

  lemma PrefixNormal(c: Cleaned, k: nat)
    requires Normal(c) && k <= |c.comps|
    ensures Normal(Cleaned(c.abs, c.comps[..k]))
  {
    var n: nat :| Ups(c, n);
    assert Ups(Cleaned(c.abs, c.comps[..k]), if n < k then n else k);
  }

  lemma NormalComps(c: Cleaned)
    requires Normal(c)
    ensures forall i | 0 <= i < |c.comps| :: NoSlash(c.comps[i]) && c.comps[i] != ""
  {
    var n: nat :| Ups(c, n);
    forall i | 0 <= i < |c.comps| ensures NoSlash(c.comps[i]) && c.comps[i] != "" {
      if i < n { assert c.comps[i] == DOTDOT; }
    }
  }

  lemma SplitRoot(s: string)
    ensures Split("/" + s) == [""] + Split(s)
    ensures PushAll([], [""] + Split(s), true) == PushAll([], Split(s), true)
  {
    assert ("/" + s)[1..] == s;
    assert ([""] + Split(s))[1..] == Split(s);
  }

  lemma SplitRendered(c: Cleaned)
    requires Normal(c)
    ensures IsAbs(Render(c)) == c.abs
    ensures PushAll([], Split(Render(c)), c.abs) == PushAll([], c.comps, c.abs)
  {
    NormalComps(c);
    var text := Glue(c.comps);
    if c.comps != [] {
      SplitGlue(c.comps);
      assert text[0] == c.comps[0][0] != '/';
    } else {
      assert Split("") == [""];
      SplitPlain(DOT);
      assert PushAll([], [""], c.abs) == PushAll([], [], c.abs) == [];
      assert PushAll([], [DOT], c.abs) == PushAll([], [], c.abs) == [];
    }
    if c.abs { SplitRoot(text); }
  }

  /** Reading back the text of a normal form gives the normal form. */
  lemma RenderCleans(c: Cleaned)
    requires Normal(c)
    ensures CleanParts(Render(c)) == c
  {
    hide Render, PushAll, Normal, IsAbs;
    SplitRendered(c);
    NormalIsStable(c);
  }

  /** Cleaning is idempotent, on the text and on its components. */
  lemma CleanTwice(s: string)
    ensures CleanParts(Clean(s)) == CleanParts(s)
  {
    CleanIsNormal(s);
    RenderCleans(CleanParts(s));
  }

  // ------------------------------------------------------------- containment

  lemma SplitUnder(dir: string, name: string)
    requires !IsAbs(name)
    ensures CleanParts(dir + "/" + name).comps == PushAll(CleanParts(dir + "/").comps, Split(name), IsAbs(dir + "/"))
    ensures dir != "" ==> CleanParts(dir + "/") == CleanParts(dir)
  {
    hide Push;
    SplitJoin(dir, name);
    SplitJoin(dir, "");
    var abs := IsAbs(dir + "/");
    assert dir + "/" + "" == dir + "/";
    PushAllSplit([], Split(dir), Split(name), abs);
    PushAllSplit([], Split(dir), [""], abs);
    assert Split("") == [""];
    PushNothing(PushAll([], Split(dir), abs), abs);
  }

  lemma PushNothing(kept: seq<Comp>, abs: bool)
    ensures PushAll(kept, [""], abs) == kept && PushAll(kept, [DOT], abs) == kept
  {
    assert PushAll(kept, [], abs) == kept;
  }

  /** The text of a relative normal form climbs exactly when its first component
      is "..". */
  lemma ClimbingText(c: Cleaned)
    requires Normal(c) && !c.abs
    ensures var s := Render(c);
            s == ".." || "../" <= s <==> c.comps != [] && c.comps[0] == DOTDOT
  {
    NormalComps(c);
    if c.comps != [] {
      var s, first := Render(c), c.comps[0];
      assert first <= s && (|c.comps| == 1 ==> s == first) && (|c.comps| > 1 ==> s[|first|] == '/');
      assert |first| >= 2 ==> s[0] == first[0] && s[1] == first[1];
      assert |first| > 2 ==> s[2] == first[2];
    }
  }

  ghost predicate Escapes(c: Cleaned) {
    c.abs || (c.comps != [] && c.comps[0] == DOTDOT)
  }

  /** The check refuses exactly the names whose cleaned form is absolute or
      begins with a ".." component. */
  lemma RefusesExactly(dir: string, name: string)
    ensures SafeJoin(dir, name).None? <==> Escapes(CleanParts(name))
  {
    hide Render, PushAll;
    CleanIsNormal(name);
    var c := CleanParts(name);
    SplitRendered(c);
    if !c.abs { ClimbingText(c); }
  }

  lemma NotEscapingIsOrdinary(c: Cleaned)
    requires Normal(c) && !Escapes(c)
    ensures AllOrdinary(c.comps)
  {
    var n: nat :| Ups(c, n);
    assert c.comps != [] ==> c.comps[0] != DOTDOT;
  }

  /** Joining a cleaned relative name under a directory appends its components
      to the directory's, whatever the directory, even one that itself begins
      with "..". */
  lemma JoinAppends(dir: string, c: Cleaned)
    requires Normal(c) && !Escapes(c)
    ensures CleanParts(Join(dir, Render(c))) == Cleaned(CleanParts(dir).abs, CleanParts(dir).comps + c.comps)
  {
    hide Push, PushAll;
    var text := Render(c);
    NotEscapingIsOrdinary(c);
    SplitRendered(c);
    RenderCleans(c);
    NormalComps(c);
    assert text != "";
    if dir == "" {
      CleanTwice(text);
      EmptyIsDot();
    } else {
      CleanTwice(dir + "/" + text);
      SplitUnder(dir, text);
      var kept, abs := CleanParts(dir).comps, CleanParts(dir).abs;
      if c.comps == [] {
        SplitPlain(DOT);
        PushNothing(kept, abs);
      } else {
        SplitGlue(c.comps);
        PushOrdinary(kept, c.comps, abs);
      }
    }
  }

  lemma EmptyIsDot()
    ensures CleanParts("") == Cleaned(false, [])
  {
    assert Split("") == [""];
    PushNothing([], false);
  }

  /** An accepted name lands inside the directory: the result is the cleaned
      directory followed by the ordinary components of the cleaned name. */
  lemma Contained(dir: string, name: string)
    requires SafeJoin(dir, name).Some?
    ensures var d, n, p := CleanParts(dir), CleanParts(name), CleanParts(SafeJoin(dir, name).value);
            && p == Cleaned(d.abs, d.comps + n.comps)
            && AllOrdinary(n.comps)
  {
    hide Render, PushAll, Push, Normal, Join;
    RefusesExactly(dir, name);
    CleanIsNormal(name);
    NotEscapingIsOrdinary(CleanParts(name));
    JoinAppends(dir, CleanParts(name));
  }

  // ------------------------------------------------------- what cleaning does

  lemma {:induction false} PushSnoc(cs: seq<Comp>, c: Comp, abs: bool)
    ensures PushAll([], cs + [c], abs) == Push(PushAll([], cs, abs), c, abs)
  {
    PushAllSplit([], cs, [c], abs);
    var kept := PushAll([], cs, abs);
    assert [c][1..] == [];
    assert PushAll(kept, [c], abs) == PushAll(Push(kept, c, abs), [], abs);
  }

  /** A name and the ".." behind it can be left out. */
  lemma PiecesCancel(xs: seq<Comp>, c: Comp, ys: seq<Comp>, abs: bool)
    requires Ordinary(c)
    ensures PushAll([], xs + [c, DOTDOT] + ys, abs) == PushAll([], xs + ys, abs)
  {
    hide Push;
    var kept := PushAll([], xs, abs);
    PushSnoc(xs, c, abs);
    PushSnoc(xs + [c], DOTDOT, abs);
    assert xs + [c, DOTDOT] == xs + [c] + [DOTDOT];
    assert Push(Push(kept, c, abs), DOTDOT, abs) == kept by { PushPop(kept, c, abs); }
    PushAllSplit([], xs + [c, DOTDOT], ys, abs);
    PushAllSplit([], xs, ys, abs);
  }

  lemma PushPop(kept: seq<Comp>, c: Comp, abs: bool)
    requires Ordinary(c)
    ensures Push(Push(kept, c, abs), DOTDOT, abs) == kept
  {
    assert (kept + [c])[..|kept|] == kept;
  }

  /** Empty pieces and "." can be left out. */
  lemma PieceSkipped(xs: seq<Comp>, c: Comp, ys: seq<Comp>, abs: bool)
    requires c == "" || c == DOT
    ensures PushAll([], xs + [c] + ys, abs) == PushAll([], xs + ys, abs)
  {
    PushSnoc(xs, c, abs);
    PushAllSplit([], xs + [c], ys, abs);
    PushAllSplit([], xs, ys, abs);
  }

  /** The rules of lexical cleaning, anywhere after a first part: doubled slashes
      are one, "." goes, and a name goes with the ".." behind it. Since a cleaned
      path is left alone, they say what every path is cleaned to. */
  lemma CleaningRules(a: string, c: Comp, b: string)
    requires a != "" && Ordinary(c)
    ensures CleanParts(a + "/" + "/" + b) == CleanParts(a + "/" + b)
    ensures CleanParts(a + "/" + "." + "/" + b) == CleanParts(a + "/" + b)
    ensures CleanParts(a + "/" + c + "/" + ".." + "/" + b) == CleanParts(a + "/" + b)
  {
    hide Push, PushAll;
    var xs, ys := Split(a), Split(b);
    SplitJoin(a, b);
    SplitJoin(a + "/", b);
    SplitJoin(a, "");
    SplitPlain("");
    assert a + "/" + "" == a + "/";
    PieceSkipped(xs, "", ys, IsAbs(a));
    SplitJoin(a, ".");
    SplitJoin(a + "/" + ".", b);
    SplitPlain(".");
    PieceSkipped(xs, ".", ys, IsAbs(a));
    SplitJoin(a, c);
    SplitJoin(a + "/" + c, "..");
    SplitJoin(a + "/" + c + "/" + "..", b);
    SplitPlain(c);
    SplitPlain("..");
    assert xs + [c] + [DOTDOT] == xs + [c, DOTDOT];
    PiecesCancel(xs, c, ys, IsAbs(a));
  }

  /** Going into a directory and back out leads back. */
  lemma DownAndUp(a: string, c: Comp)
    requires a != "" && Ordinary(c)
    ensures CleanParts(a + "/" + c + "/" + "..") == CleanParts(a)
  {
    hide Push, PushAll;
    SplitJoin(a, c);
    SplitJoin(a + "/" + c, "..");
    SplitPlain(c);
    SplitPlain("..");
    assert Split(a) + [c] + [DOTDOT] == Split(a) + [c, DOTDOT] + [];
    assert Split(a) + [] == Split(a);
    PiecesCancel(Split(a), c, [], IsAbs(a));
  }

  /** An empty element is as good as none. */
  lemma JoinIgnoresEmpty(a: string)
    ensures Join("", "") == "" && (a != "" ==> Join(a, "") == Join("", a) == Clean(a))
  {
    if a != "" {
      hide Push, PushAll;
      SplitJoin(a, "");
      SplitPlain("");
      assert a + "/" + "" == a + "/";
      assert Split(a) + [""] + [] == Split(a) + [""] && Split(a) + [] == Split(a);
      PieceSkipped(Split(a), "", [], IsAbs(a));
    }
  }

  /** The same rules at the front of a path. */
  lemma CleaningFront(c: Comp, b: string)
    requires Ordinary(c) && !IsAbs(b)
    ensures CleanParts("." + "/" + b) == CleanParts(b)
    ensures CleanParts(c + "/" + ".." + "/" + b) == CleanParts(b)
  {
    hide Push, PushAll, Split;
    var ys := Split(b);
    assert [] + ys == ys;
    SplitJoin(".", b);
    SplitPlain(".");
    assert [] + ["."] + ys == ["."] + ys;
    PieceSkipped([], ".", ys, false);
    SplitJoin(c, "..");
    SplitJoin(c + "/" + "..", b);
    SplitPlain(c);
    SplitPlain("..");
    assert [] + [c, DOTDOT] + ys == [c] + [DOTDOT] + ys;
    PiecesCancel([], c, ys, false);
  }

  /** There is nothing above the root. */
  lemma CleaningRoot(b: string)
    ensures CleanParts("/" + (".." + "/" + b)) == CleanParts("/" + b)
  {
    hide Push, PushAll;
    SplitRoot(".." + "/" + b);
    SplitRoot(b);
    SplitJoin("..", b);
    SplitPlain("..");
    NothingAboveRoot(Split(b));
  }

  lemma NothingAboveRoot(ys: seq<Comp>)
    ensures PushAll([], [DOTDOT] + ys, true) == PushAll([], ys, true)
  {
    assert ([DOTDOT] + ys)[1..] == ys;
  }

  /** How far below its start a path is: names down, ".." up. */
  function Depth(cs: seq<Comp>): int {
    if cs == [] then 0
    else
      var c := cs[|cs| - 1];
      Depth(cs[..|cs| - 1]) + if c == "" || c == DOT then 0 else if c == DOTDOT then -1 else 1
  }

  /** Somewhere along the way it is above its start. */
  predicate Climbs(cs: seq<Comp>) {
    cs != [] && (Climbs(cs[..|cs| - 1]) || Depth(cs) < 0)
  }

  lemma {:induction false} KeptDepth(cs: seq<Comp>)
    requires forall i | 0 <= i < |cs| :: NoSlash(cs[i])
    ensures var kept := PushAll([], cs, false);
            if Climbs(cs) then kept != [] && kept[0] == DOTDOT else AllOrdinary(kept) && |kept| == Depth(cs)
  {
    if cs != [] {
      var n := |cs| - 1;
      KeptDepth(cs[..n]);
      assert cs == cs[..n] + [cs[n]];
      PushSnoc(cs[..n], cs[n], false);
    }
  }

  /** The check, told from the name as it was sent: it is refused exactly when it is
      absolute, or at some point has gone up more often than down. */
  lemma RefusedWhenClimbing(dir: string, name: string)
    ensures SafeJoin(dir, name).None? <==> IsAbs(name) || Climbs(Split(name))
  {
    hide SafeJoin, PushAll, Climbs;
    RefusesExactly(dir, name);
    SplitHasNoSlash(name);
    if !IsAbs(name) { KeptDepth(Split(name)); }
  }
}
