/** How the sender turns its arguments into a manifest, and why the names it
    chooses pass the receiver's check. */
module FileList {
  import opened Bytes
  import opened Paths
  import opened Manifest

  /** What the file system holds under a path, as Stat and Walk see it: a file,
      regular or a device or the like, that can be read to its end or not; a path
      that cannot be looked at; or a directory. */
  datatype Tree =
    | File(regular: bool, readable: bool, size: int, mode: nat, sha256: string)
    | Unreadable
    | Dir(entries: seq<Entry>)
  {
    predicate Regular() { File? && regular }
  }

  datatype Entry = Entry(name: Comp, tree: Tree)

  /** The order of names as Walk sorts them. */
  predicate Before(a: Comp, b: Comp) {
    b != "" && (a == "" || a[0] < b[0] || (a[0] == b[0] && Before(a[1..], b[1..])))
  }

  /** Directory entries have ordinary names, in the order in which they are walked. */
  ghost predicate WellFormed(t: Tree) {
    t.Dir? ==>
      && (forall i | 0 <= i < |t.entries| :: Ordinary(t.entries[i].name) && WellFormed(t.entries[i].tree))
      && (forall i, j | 0 <= i < j < |t.entries| :: Before(t.entries[i].name, t.entries[j].name))
  }

  // ------------------------------------------------- library path functions

  function LastNonEmpty(cs: seq<Comp>): Option<Comp> {
    if cs == [] then None
    else if cs[|cs| - 1] != "" then Some(cs[|cs| - 1])
    else LastNonEmpty(cs[..|cs| - 1])
  }

  /** filepath.Base. */
  function Base(p: string): string {
    if p == "" then "."
    else match LastNonEmpty(Split(p))
         case Some(c) => c
         case None => "/"
  }

  function CommonPrefix(a: seq<Comp>, b: seq<Comp>): (k: nat)
    ensures k <= |a| && k <= |b|
  {
    if a == [] || b == [] || a[0] != b[0] then 0 else 1 + CommonPrefix(a[1..], b[1..])
  }

  /** filepath.Rel. */
  function Rel(base: string, targ: string): Option<string> {
    var b, t := CleanParts(base), CleanParts(targ);
    var k := CommonPrefix(b.comps, t.comps);
    if b == t then Some(".")
    else if b.abs != t.abs || (k < |b.comps| && b.comps[k] == DOTDOT) then None
    else Some(Glue(seq(|b.comps| - k, _ => DOTDOT) + t.comps[k..]))
  }

  /** The path Walk reaches by descending through ext from root. */
  function PathAt(root: string, ext: seq<Comp>): string {
    if ext == [] then root else Join(PathAt(root, ext[..|ext| - 1]), ext[|ext| - 1])
  }

  // ------------------------------------------------------------ the listing

  datatype Outcome = Listed(entries: seq<(FileInfo, string)>) | Failed

  /** Everything below t that Walk calls back for, directories left out, each
      with the components leading to it. */
  function Leaves(t: Tree): seq<(seq<Comp>, Tree)>
    decreases t, 0
  {
    if t.Dir? then LeavesOf(t.entries) else [([], t)]
  }

  function LeavesOf(es: seq<Entry>): seq<(seq<Comp>, Tree)>
    decreases es, 1
  {
    if es == [] then []
    else
      var e := es[0];
      Prefixed(e.name, Leaves(e.tree)) + LeavesOf(es[1..])
  }

  function Prefixed(c: Comp, ls: seq<(seq<Comp>, Tree)>): (r: seq<(seq<Comp>, Tree)>)
    ensures |r| == |ls|
  {
    seq(|ls|, i requires 0 <= i < |ls| => ([c] + ls[i].0, ls[i].1))
  }

  function Describe(t: Tree, name: string): Option<FileInfo> {
    if t.File? && t.readable then Some(FileInfo(name, t.size, t.mode % 512, t.sha256)) else None
  }

  /** The manifest name of the file reached by ext below the argument p. */
  function NameUnder(p: string, ext: seq<Comp>): Option<string> {
    var root := Clean(p);
    match Rel(root, PathAt(root, ext))
    case None => None
    case Some(rel) => Some(Join(Base(root), rel))
  }

  /** What the walk callback adds for one leaf: nothing for files that are not
      regular. */
  function ForLeaf(p: string, leaf: (seq<Comp>, Tree)): Outcome {
    if leaf.1.Unreadable? then Failed
    else if !leaf.1.Regular() then Listed([])
    else match NameUnder(p, leaf.0)
         case None => Failed
         case Some(name) =>
           match Describe(leaf.1, name)
           case None => Failed
           case Some(info) => Listed([(info, PathAt(Clean(p), leaf.0))])
  }

  function Then(a: Outcome, b: Outcome): Outcome {
    if a.Listed? && b.Listed? then Listed(a.entries + b.entries) else Failed
  }

  function ForLeaves(p: string, ls: seq<(seq<Comp>, Tree)>): Outcome {
    if ls == [] then Listed([]) else Then(ForLeaves(p, ls[..|ls| - 1]), ForLeaf(p, ls[|ls| - 1]))
  }

  function ForArgument(p: string, t: Option<Tree>): Outcome {
    if t.None? || t.value.Unreadable? then Failed
    else if !t.value.Dir? then
      match Describe(t.value, Base(p))
      case None => Failed
      case Some(info) => Listed([(info, p)])
    else ForLeaves(p, Leaves(t.value))
  }

  function ForArguments(paths: seq<string>, stat: string -> Option<Tree>): Outcome {
    if paths == [] then Listed([])
    else Then(ForArguments(paths[..|paths| - 1], stat), ForArgument(paths[|paths| - 1], stat(paths[|paths| - 1])))
  }

  function Infos(es: seq<(FileInfo, string)>): (r: seq<FileInfo>)
    ensures |r| == |es|
  {
    seq(|es|, i requires 0 <= i < |es| => es[i].0)
  }

  function Sources(es: seq<(FileInfo, string)>): (r: seq<string>)
    ensures |r| == |es|
  {
    seq(|es|, i requires 0 <= i < |es| => es[i].1)
  }

  lemma NoneListed()
    ensures Infos([]) == [] && Sources([]) == []
  {}

  lemma MoreListed(a: seq<(FileInfo, string)>, b: seq<(FileInfo, string)>)
    ensures Infos(a + b) == Infos(a) + Infos(b) && Sources(a + b) == Sources(a) + Sources(b)
    ensures |b| == 1 ==> Infos(b) == [b[0].0] && Sources(b) == [b[0].1]
    ensures a + [] == a
  {}

  /** Builds the manifest and, in step with it, the list of source paths. */
  method BuildFileList(paths: seq<string>, stat: string -> Option<Tree>)
    returns (ok: bool, files: seq<FileInfo>, sources: seq<string>)
    ensures var all := ForArguments(paths, stat);
            && (ok <==> all.Listed? && all.entries != [])
            && (ok ==> files == Infos(all.entries) && sources == Sources(all.entries))
  {
    hide Base, Describe, Leaves, ForLeaves, Infos, Sources;
    files, sources, ok := [], [], false;
    NoneListed();
    if |paths| == 0 { return; }
    ghost var es: seq<(FileInfo, string)> := [];
    var i := 0;
    while i < |paths|
      invariant i <= |paths| && ForArguments(paths[..i], stat) == Listed(es)
      invariant files == Infos(es) && sources == Sources(es)
    {
      var p := paths[i];
      assert paths[..i + 1][..i] == paths[..i];
      var st := stat(p);
      if st.None? || st.value.Unreadable? { FailedStays(paths, stat, i + 1); return; }
      if !st.value.Dir? {
        var info := Describe(st.value, Base(p));
        if info.None? { FailedStays(paths, stat, i + 1); return; }
        files, sources := files + [info.value], sources + [p];
        MoreListed(es, [(info.value, p)]);
        es := es + [(info.value, p)];
      } else {
        var more, names, places := WalkRoot(p, Leaves(st.value));
        if !more { FailedStays(paths, stat, i + 1); return; }
        files, sources := files + names, sources + places;
        MoreListed(es, ForLeaves(p, Leaves(st.value)).entries);
        es := es + ForLeaves(p, Leaves(st.value)).entries;
      }
      i := i + 1;
    }
    assert paths[..|paths|] == paths;
    ok := files != [];
  }

  /** The walk over one root. */
  method WalkRoot(p: string, ls: seq<(seq<Comp>, Tree)>) returns (ok: bool, files: seq<FileInfo>, sources: seq<string>)
    ensures var all := ForLeaves(p, ls);
            && (ok <==> all.Listed?)
            && (ok ==> files == Infos(all.entries) && sources == Sources(all.entries))
  {
    hide Base, Describe, Clean, Rel, PathAt, Join, Infos, Sources;
    NoneListed();
    var root := Clean(p);
    var base := Base(root);
    files, sources, ok := [], [], false;
    ghost var es: seq<(FileInfo, string)> := [];
    var i := 0;
    while i < |ls|
      invariant i <= |ls| && ForLeaves(p, ls[..i]) == Listed(es)
      invariant files == Infos(es) && sources == Sources(es)
    {
      assert ls[..i + 1][..i] == ls[..i];
      var path := PathAt(root, ls[i].0);
      if ls[i].1.Unreadable? { FailedLeafStays(p, ls, i + 1); return; }
      if ls[i].1.Regular() {
        var rel := Rel(root, path);
        if rel.None? { FailedLeafStays(p, ls, i + 1); return; }
        var info := Describe(ls[i].1, Join(base, rel.value));
        if info.None? { FailedLeafStays(p, ls, i + 1); return; }
        files, sources := files + [info.value], sources + [path];
        MoreListed(es, [(info.value, path)]);
        es := es + [(info.value, path)];
      }
      i := i + 1;
    }
    assert ls[..|ls|] == ls;
    ok := true;
  }

  lemma {:induction false} FailedStays(paths: seq<string>, stat: string -> Option<Tree>, k: nat)
    requires k <= |paths| && ForArguments(paths[..k], stat).Failed?
    ensures ForArguments(paths, stat).Failed?
    decreases |paths|
  {
    if k == |paths| {
      assert paths[..k] == paths;
    } else {
      var shorter := paths[..|paths| - 1];
      assert shorter[..k] == paths[..k];
      FailedStays(shorter, stat, k);
    }
  }

  lemma {:induction false} FailedLeafStays(p: string, ls: seq<(seq<Comp>, Tree)>, k: nat)
    requires k <= |ls| && ForLeaves(p, ls[..k]).Failed?
    ensures ForLeaves(p, ls).Failed?
    decreases |ls|
  {
    if k == |ls| {
      assert ls[..k] == ls;
    } else {
      var shorter := ls[..|ls| - 1];
      assert shorter[..k] == ls[..k];
      FailedLeafStays(p, shorter, k);
    }
  }

  // ---------------------------------------------------------- path arithmetic

  lemma {:induction false} CommonWithExtension(a: seq<Comp>, ext: seq<Comp>)
    ensures CommonPrefix(a, a + ext) == |a|
  {
    if a != [] {
      assert (a + ext)[1..] == a[1..] + ext;
      CommonWithExtension(a[1..], ext);
    }
  }

  lemma RelativeText(ext: seq<Comp>)
    requires ext != [] && AllOrdinary(ext)
    ensures Normal(Cleaned(false, ext)) && !Escapes(Cleaned(false, ext))
    ensures Render(Cleaned(false, ext)) == Glue(ext)
  {
    assert Ups(Cleaned(false, ext), 0);
  }

  /** Descending through ext from a root adds exactly its components. */
  lemma {:induction false} PathAtAppends(root: string, ext: seq<Comp>)
    requires AllOrdinary(ext)
    ensures CleanParts(PathAt(root, ext)) == Cleaned(CleanParts(root).abs, CleanParts(root).comps + ext)
  {
    hide CleanParts, Join, Render, Normal, Escapes;
    if ext == [] {
      assert CleanParts(root).comps + ext == CleanParts(root).comps;
    } else {
      var n := |ext| - 1;
      PathAtAppends(root, ext[..n]);
      var step := [ext[n]];
      RelativeText(step);
      JoinAppends(PathAt(root, ext[..n]), Cleaned(false, step));
      assert ext == ext[..n] + step;
    }
  }

  lemma RelOfDescendant(root: string, path: string, ext: seq<Comp>)
    requires ext != []
    requires CleanParts(path) == Cleaned(CleanParts(root).abs, CleanParts(root).comps + ext)
    ensures Rel(root, path) == Some(Glue(ext))
  {
    hide CleanParts, Glue;
    var b := CleanParts(root).comps;
    CommonWithExtension(b, ext);
    assert seq(0, _ => DOTDOT) + (b + ext)[|b|..] == ext;
    assert |b + ext| > |b|;
  }

  /** The last component of a cleaned path, or what stands for it. */
  function BaseName(c: Cleaned): Comp {
    if c.comps != [] then c.comps[|c.comps| - 1] else if c.abs then "/" else "."
  }

  lemma NoneOfNone()
    ensures LastNonEmpty([]) == None
  {}

  lemma LastOf(pre: seq<Comp>, c: Comp)
    ensures c != "" ==> LastNonEmpty(pre + [c]) == Some(c)
    ensures c == "" ==> LastNonEmpty(pre + [c]) == LastNonEmpty(pre)
  {
    assert (pre + [c])[..|pre|] == pre;
  }

  lemma SplitOfText(c: Cleaned)
    requires Normal(c)
    ensures Split(Render(c)) ==
      (if c.abs then [""] else []) + (if c.comps != [] then c.comps else if c.abs then [""] else [DOT])
  {
    hide Normal;
    NormalComps(c);
    if c.comps != [] {
      SplitGlue(c.comps);
      if c.abs { SplitRoot(Glue(c.comps)); }
    } else {
      assert Split("") == [""];
      SplitRoot("");
      SplitPlain(DOT);
    }
  }

  lemma BaseOfClean(p: string)
    ensures Base(Clean(p)) == BaseName(CleanParts(p))
  {
    hide CleanParts, Normal, LastNonEmpty, Split;
    var c := CleanParts(p);
    CleanIsNormal(p);
    NormalComps(c);
    SplitOfText(c);
    var lead := if c.abs then [""] else [];
    if c.comps != [] {
      var n := |c.comps| - 1;
      LastOf(lead + c.comps[..n], c.comps[n]);
      assert lead + c.comps == lead + c.comps[..n] + [c.comps[n]];
      assert Render(c) != "";
    } else {
      LastOf([""], "");
      LastOf([], "");
      LastOf([], DOT);
      NoneOfNone();
      assert [] + [""] == [""] && [] + [DOT] == [DOT];
    }
  }

  /** A single component as a path of its own. */
  lemma SingleParts(b: Comp)
    requires NoSlash(b) && b != ""
    ensures CleanParts(b) == Cleaned(false, if b == DOT then [] else [b])
  {
    SplitPlain(b);
    assert PushAll([], [b], false) == PushAll(Push([], b, false), [], false) == Push([], b, false);
  }

  lemma RootParts()
    ensures CleanParts("/") == Cleaned(true, [])
  {
    assert Split("") == [""];
    SplitRoot("");
    PushNothing([], true);
  }

  lemma BaseParts(p: string)
    ensures var c, base := CleanParts(p), BaseName(CleanParts(p));
            CleanParts(base) == if base == "/" then Cleaned(true, []) else Cleaned(false, if base == DOT then [] else [base])
    ensures var base := BaseName(CleanParts(p));
            base in {"/", DOT, DOTDOT} || Ordinary(base)
  {
    CleanIsNormal(p);
    var c := CleanParts(p);
    NormalComps(c);
    var n: nat :| Ups(c, n);
    if c.comps == [] && c.abs {
      RootParts();
    } else {
      SingleParts(BaseName(c));
    }
  }

  /** filepath.Base: what follows the last slash, trailing slashes aside. */
  lemma BaseIsLast(a: string, c: Comp)
    requires NoSlash(c) && c != ""
    ensures Base(c) == c && Base(a + "/" + c) == c && Base("") == "." && Base("/") == "/"
  {
    SplitPlain(c);
    SplitJoin(a, c);
    LastOf([], c);
    LastOf(Split(a), c);
    assert [] + [c] == [c];
    SplitRoot("");
    assert Split("") == [""];
    LastOf([""], "");
    LastOf([], "");
    assert [""] + [""] == ["", ""] && [] + [""] == [""];
  }

  lemma BaseDropsSlash(p: string)
    ensures p != "" ==> Base(p + "/") == Base(p)
  {
    SplitJoin(p, "");
    assert p + "/" + "" == p + "/" && Split("") == [""];
    LastOf(Split(p), "");
  }

  /** filepath.Rel: from base, the result leads to targ. */
  lemma RelLeadsBack(base: string, targ: string)
    requires base != "" && Rel(base, targ).Some?
    ensures CleanParts(Join(base, Rel(base, targ).value)) == CleanParts(targ)
  {
    hide Push, PushAll, CommonPrefix;
    var b, t, rel := CleanParts(base), CleanParts(targ), Rel(base, targ).value;
    CleanIsNormal(base);
    CleanIsNormal(targ);
    CommonIs(b.comps, t.comps);
    var k := CommonPrefix(b.comps, t.comps);
    CleanTwice(base + "/" + rel);
    if b == t {
      SplitUnder(base, ".");
      SplitPlain(".");
      PushNothing(b.comps, b.abs);
    } else {
      var ups, rest := seq(|b.comps| - k, _ => DOTDOT), t.comps[k..];
      NormalComps(t);
      assert b.comps[..|b.comps|] == b.comps && t.comps[..k] + rest == t.comps;
      GlueRelative(ups + rest);
      SplitUnder(base, rel);
      BackAndForth(b, t, k);
    }
  }

  lemma GlueRelative(cs: seq<Comp>)
    requires cs != [] && forall i | 0 <= i < |cs| :: NoSlash(cs[i]) && cs[i] != ""
    ensures Split(Glue(cs)) == cs && !IsAbs(Glue(cs))
  {
    SplitGlue(cs);
    assert Glue(cs)[0] == cs[0][0];
  }

  lemma {:induction false} CommonIs(a: seq<Comp>, b: seq<Comp>)
    ensures var k := CommonPrefix(a, b);
            a[..k] == b[..k] && (k < |a| && k < |b| ==> a[k] != b[k])
  {
    if a != [] && b != [] && a[0] == b[0] { CommonIs(a[1..], b[1..]); }
  }

  /** Up from b to what it has in common with t, and down to t. */
  lemma BackAndForth(b: Cleaned, t: Cleaned, k: nat)
    requires Normal(b) && Normal(t) && b.abs == t.abs && k <= |b.comps| && k <= |t.comps|
    requires b.comps[..k] == t.comps[..k] && (k < |b.comps| ==> b.comps[k] != DOTDOT)
    ensures PushAll(b.comps, seq(|b.comps| - k, _ => DOTDOT) + t.comps[k..], b.abs) == t.comps
  {
    hide Push, PushAll;
    var ups, rest := seq(|b.comps| - k, _ => DOTDOT), t.comps[k..];
    var n: nat :| Ups(b, n);
    UpAgain(b.comps, k, b.abs);
    PushAllSplit(b.comps, ups, rest, b.abs);
    NormalIsStable(t);
    PrefixNormal(t, k);
    NormalIsStable(Cleaned(t.abs, t.comps[..k]));
    assert t.comps == t.comps[..k] + rest;
    PushAllSplit([], t.comps[..k], rest, t.abs);
  }

  lemma {:induction false} UpAgain(comps: seq<Comp>, k: nat, abs: bool)
    requires k <= |comps| && forall i | k <= i < |comps| :: comps[i] != DOTDOT
    ensures PushAll(comps, seq(|comps| - k, _ => DOTDOT), abs) == comps[..k]
    decreases |comps|
  {
    var ups := seq(|comps| - k, _ => DOTDOT);
    if k < |comps| {
      var n := |comps| - 1;
      assert ups[1..] == seq(n - k, _ => DOTDOT);
      assert Push(comps, DOTDOT, abs) == comps[..n];
      UpAgain(comps[..n], k, abs);
      assert comps[..n][..k] == comps[..k];
    } else {
      assert ups == [] && comps[..k] == comps;
    }
  }

  // ---------------------------------------------------------------- theorems

  /** The name of a single-file argument is refused by the receiver exactly when
      the argument's last element is ".." or it is the root; otherwise the file
      lands directly in the output directory under that name. */
  lemma FileArgumentFits(p: string, out: string)
    ensures var base := Base(p);
            && (SafeJoin(out, base).None? <==> base == "/" || base == DOTDOT)
            && (Ordinary(base) ==>
                  CleanParts(SafeJoin(out, base).value) == Cleaned(CleanParts(out).abs, CleanParts(out).comps + [base]))
  {
    hide SafeJoin;
    BaseHasNoSlash(p);
    var base := Base(p);
    RefusesExactly(out, base);
    if base == "/" { RootParts(); } else { SingleParts(base); }
    if Ordinary(base) { Contained(out, base); }
  }

  lemma BaseHasNoSlash(p: string)
    ensures Base(p) == "/" || (NoSlash(Base(p)) && Base(p) != "")
  {
    SplitHasNoSlash(p);
    LastIsMember(Split(p));
  }

  lemma {:induction false} LastIsMember(cs: seq<Comp>)
    ensures LastNonEmpty(cs).Some? ==> LastNonEmpty(cs).value in cs && LastNonEmpty(cs).value != ""
  {
    if cs != [] && cs[|cs| - 1] == "" { LastIsMember(cs[..|cs| - 1]); }
  }

  /** The name of a file reached by ext below a directory argument: its parts,
      and that the receiver refuses it exactly when the cleaned argument is the
      root or ends in "..". Otherwise it lands at out/base/ext. */
  lemma DirectoryNameFits(p: string, ext: seq<Comp>, out: string)
    requires ext != [] && AllOrdinary(ext)
    ensures NameUnder(p, ext).Some?
    ensures var base := BaseName(CleanParts(p));
            var name := NameUnder(p, ext).value;
            var under := if base == "/" || base == DOT then ext else [base] + ext;
            && CleanParts(name) == Cleaned(base == "/", under)
            && (SafeJoin(out, name).None? <==> base == "/" || base == DOTDOT)
            && (SafeJoin(out, name).Some? ==>
                  CleanParts(SafeJoin(out, name).value) == Cleaned(CleanParts(out).abs, CleanParts(out).comps + under))
  {
    hide SafeJoin, Rel, PathAt, Clean, Join, Base, CleanParts, BaseName;
    var root, base := Clean(p), BaseName(CleanParts(p));
    CleanTwice(p);
    PathAtAppends(root, ext);
    RelOfDescendant(root, PathAt(root, ext), ext);
    BaseOfClean(p);
    BaseParts(p);
    RelativeText(ext);
    JoinAppends(base, Cleaned(false, ext));
    var name := Join(base, Glue(ext));
    RefusesExactly(out, name);
    if SafeJoin(out, name).Some? { Contained(out, name); }
  }

  // ------------------------------------------------------ the whole manifest

  ghost predicate EntriesFine(es: seq<Entry>) {
    && (forall i | 0 <= i < |es| :: Ordinary(es[i].name) && WellFormed(es[i].tree))
    && (forall i, j | 0 <= i < j < |es| :: Before(es[i].name, es[j].name))
  }

  /** The order in which Walk comes by two paths. */
  predicate PathBefore(a: seq<Comp>, b: seq<Comp>) {
    b != [] && (a == [] || Before(a[0], b[0]) || (a[0] == b[0] && PathBefore(a[1..], b[1..])))
  }

  lemma {:induction false} NotBeforeItself(a: Comp)
    ensures !Before(a, a)
  {
    if a != "" { NotBeforeItself(a[1..]); }
  }

  lemma {:induction false} PathNotBeforeItself(a: seq<Comp>)
    ensures !PathBefore(a, a)
  {
    if a != [] {
      NotBeforeItself(a[0]);
      PathNotBeforeItself(a[1..]);
    }
  }

  /** Leaves of one directory: led to by ordinary components, in walking order. */
  ghost predicate LeavesFine(ls: seq<(seq<Comp>, Tree)>) {
    && (forall i | 0 <= i < |ls| :: AllOrdinary(ls[i].0))
    && (forall i, j | 0 <= i < j < |ls| :: PathBefore(ls[i].0, ls[j].0))
  }

  ghost predicate StartsIn(ext: seq<Comp>, es: seq<Entry>) {
    ext != [] && exists k :: 0 <= k < |es| && es[k].name == ext[0]
  }

  lemma {:induction false} TreeLeavesFine(t: Tree)
    requires WellFormed(t)
    ensures LeavesFine(Leaves(t))
    decreases t, 0
  {
    if t.Dir? {
      assert EntriesFine(t.entries);
      EntryLeavesFine(t.entries);
    }
  }

  lemma {:induction false} EntryLeavesFine(es: seq<Entry>)
    requires EntriesFine(es)
    ensures LeavesFine(LeavesOf(es))
    ensures forall i | 0 <= i < |LeavesOf(es)| :: StartsIn(LeavesOf(es)[i].0, es)
    decreases es, 1
  {
    if es != [] {
      var e, later := es[0], es[1..];
      assert EntriesFine(later);
      EntryLeavesFine(later);
      TreeLeavesFine(e.tree);
      JoinLeavesFine(es, Leaves(e.tree), LeavesOf(later));
    }
  }

  lemma JoinLeavesFine(es: seq<Entry>, sub: seq<(seq<Comp>, Tree)>, rest: seq<(seq<Comp>, Tree)>)
    requires es != [] && EntriesFine(es) && LeavesFine(sub) && LeavesFine(rest)
    requires forall i | 0 <= i < |rest| :: StartsIn(rest[i].0, es[1..])
    ensures var all := Prefixed(es[0].name, sub) + rest;
            LeavesFine(all) && forall i | 0 <= i < |all| :: StartsIn(all[i].0, es)
  {
    hide EntriesFine;
    var name := es[0].name;
    var all := Prefixed(name, sub) + rest;
    assert Ordinary(name) by { assert EntriesFine(es); FirstOrdinary(es); }
    forall i | 0 <= i < |all| ensures AllOrdinary(all[i].0) && StartsIn(all[i].0, es)
      && (if i < |sub| then all[i].0[0] == name else Before(name, all[i].0[0]))
    {
      if i >= |sub| {
        var k :| 0 <= k < |es[1..]| && es[1..][k].name == all[i].0[0];
        assert es[k + 1].name == all[i].0[0];
        NamesInOrder(es, k + 1);
      }
    }
    forall i, j | 0 <= i < j < |all| ensures PathBefore(all[i].0, all[j].0) {
      if j < |sub| {
        assert all[i].0[1..] == sub[i].0 && all[j].0[1..] == sub[j].0;
      } else if i >= |sub| {
        assert all[i] == rest[i - |sub|] && all[j] == rest[j - |sub|];
      }
    }
  }

  lemma FirstOrdinary(es: seq<Entry>)
    requires es != [] && EntriesFine(es)
    ensures Ordinary(es[0].name)
  {}

  lemma NamesInOrder(es: seq<Entry>, k: nat)
    requires EntriesFine(es) && 0 < k < |es|
    ensures Before(es[0].name, es[k].name)
  {}

  // ------------------------------------------------- what the walk comes by

  /** What an entry of that name is, if there is one. */
  function Find(es: seq<Entry>, name: Comp): Option<Tree> {
    if es == [] then None else if es[0].name == name then Some(es[0].tree) else Find(es[1..], name)
  }

  /** What following the given names leads to. */
  function Lookup(t: Tree, ext: seq<Comp>): Option<Tree>
    decreases |ext|
  {
    if ext == [] then Some(t)
    else if !t.Dir? then None
    else match Find(t.entries, ext[0])
         case None => None
         case Some(sub) => Lookup(sub, ext[1..])
  }

  lemma PrefixedIn(c: Comp, ls: seq<(seq<Comp>, Tree)>, ext: seq<Comp>, leaf: Tree)
    ensures (ext, leaf) in Prefixed(c, ls) <==> ext != [] && ext[0] == c && (ext[1..], leaf) in ls
  {
    var all := Prefixed(c, ls);
    if (ext, leaf) in all {
      var i :| 0 <= i < |all| && all[i] == (ext, leaf);
      assert ext[1..] == ls[i].0;
      assert ls[i] == (ext[1..], leaf);
    }
    if ext != [] && ext[0] == c && (ext[1..], leaf) in ls {
      var i :| 0 <= i < |ls| && ls[i] == (ext[1..], leaf);
      assert [c] + ext[1..] == ext;
      assert all[i] == (ext, leaf);
    }
  }

  lemma NotFound(es: seq<Entry>, name: Comp)
    requires forall i | 0 <= i < |es| :: es[i].name != name
    ensures Find(es, name) == None
  {}

  /** The walk comes by exactly what the tree holds, directories left out. */
  lemma {:induction false} LeavesAreHeld(t: Tree, ext: seq<Comp>, leaf: Tree)
    requires WellFormed(t)
    ensures (ext, leaf) in Leaves(t) <==> Lookup(t, ext) == Some(leaf) && !leaf.Dir?
    decreases t, 0
  {
    if t.Dir? {
      assert EntriesFine(t.entries);
      EntryLeavesHeld(t.entries, ext, leaf);
    }
  }

  lemma {:induction false} EntryLeavesHeld(es: seq<Entry>, ext: seq<Comp>, leaf: Tree)
    requires EntriesFine(es)
    ensures (ext, leaf) in LeavesOf(es) <==>
      ext != [] && !leaf.Dir? && Find(es, ext[0]).Some? && Lookup(Find(es, ext[0]).value, ext[1..]) == Some(leaf)
    decreases es, 1
  {
    if es != [] {
      var e, later := es[0], es[1..];
      assert EntriesFine(later);
      EntryLeavesHeld(later, ext, leaf);
      PrefixedIn(e.name, Leaves(e.tree), ext, leaf);
      if ext != [] && ext[0] == e.name {
        LeavesAreHeld(e.tree, ext[1..], leaf);
        forall i | 0 <= i < |later| ensures later[i].name != e.name {
          NamesInOrder(es, i + 1);
          NotBeforeItself(e.name);
        }
        NotFound(later, e.name);
      }
    }
  }

  /** The regular files among some leaves. */
  function Regulars(ls: seq<(seq<Comp>, Tree)>): seq<(seq<Comp>, Tree)> {
    if ls == [] then []
    else Regulars(ls[..|ls| - 1]) + if ls[|ls| - 1].1.Regular() then [ls[|ls| - 1]] else []
  }

  /** The components leading to them. */
  function FileExts(ls: seq<(seq<Comp>, Tree)>): (exts: seq<seq<Comp>>)
    ensures |exts| == |Regulars(ls)|
  {
    seq(|Regulars(ls)|, i requires 0 <= i < |Regulars(ls)| => Regulars(ls)[i].0)
  }

  lemma {:induction false} RegularsAre(ls: seq<(seq<Comp>, Tree)>, leaf: (seq<Comp>, Tree))
    ensures leaf in Regulars(ls) <==> leaf in ls && leaf.1.Regular()
  {
    if ls != [] {
      var n := |ls| - 1;
      RegularsAre(ls[..n], leaf);
      assert ls == ls[..n] + [ls[n]];
    }
  }

  lemma {:induction false} RegularsInOrder(ls: seq<(seq<Comp>, Tree)>)
    requires LeavesFine(ls)
    ensures LeavesFine(Regulars(ls))
  {
    if ls != [] {
      var n := |ls| - 1;
      var before := Regulars(ls[..n]);
      RegularsInOrder(ls[..n]);
      hide PathBefore, AllOrdinary;
      forall i | 0 <= i < |before| ensures PathBefore(before[i].0, ls[n].0) {
        RegularsAre(ls[..n], before[i]);
        var k :| 0 <= k < n && ls[..n][k] == before[i];
        assert ls[k] == before[i];
      }
    }
  }

  /** What the manifest says of a file, under some name. */
  ghost predicate Describes(info: FileInfo, f: Tree) {
    f.File? && f.readable && info.size == f.size && info.mode == f.mode % 512 && info.sha256 == f.sha256
  }

  /** The walk's entries, one per regular file, in step with it. */
  lemma {:induction false} EntriesFollowLeaves(p: string, ls: seq<(seq<Comp>, Tree)>)
    requires ForLeaves(p, ls).Listed?
    ensures var es, exts := ForLeaves(p, ls).entries, FileExts(ls);
            && |es| == |exts|
            && forall i | 0 <= i < |es| ::
                 && NameUnder(p, exts[i]) == Some(es[i].0.path)
                 && es[i].1 == PathAt(Clean(p), exts[i])
                 && Describes(es[i].0, Regulars(ls)[i].1)
  {
    hide NameUnder, PathAt, Clean;
    if ls != [] {
      EntriesFollowLeaves(p, ls[..|ls| - 1]);
    }
  }

  /** The walk of a directory argument lists exactly the regular files below it,
      each once, in walking order, with its size, permissions and hash, and the path
      from which it will be read. */
  lemma DirectoryArgumentListed(p: string, t: Tree)
    requires t.Dir? && WellFormed(t) && ForArgument(p, Some(t)).Listed?
    ensures var es, exts := ForArgument(p, Some(t)).entries, FileExts(Leaves(t));
            && |es| == |exts|
            && (forall ext :: ext in exts <==> Lookup(t, ext).Some? && Lookup(t, ext).value.Regular())
            && (forall i, j | 0 <= i < j < |exts| :: PathBefore(exts[i], exts[j]))
            && (forall i | 0 <= i < |es| ::
                  && Lookup(t, exts[i]).Some? && Describes(es[i].0, Lookup(t, exts[i]).value)
                  && es[i].1 == PathAt(Clean(p), exts[i]))
  {
    hide NameUnder, PathAt, Clean, Leaves, ForLeaves, Lookup, WellFormed, Describes, LeavesFine;
    var ls := Leaves(t);
    var es, exts, files := ForLeaves(p, ls).entries, FileExts(ls), Regulars(ls);
    EntriesFollowLeaves(p, ls);
    TreeLeavesFine(t);
    RegularsInOrder(ls);
    forall i, j | 0 <= i < j < |exts| ensures PathBefore(exts[i], exts[j]) { InOrder(files, i, j); }
    forall i | 0 <= i < |es| ensures Lookup(t, exts[i]) == Some(files[i].1) && files[i].1.Regular() {
      RegularsAre(ls, files[i]);
      LeavesAreHeld(t, exts[i], files[i].1);
    }
    forall ext | Lookup(t, ext).Some? && Lookup(t, ext).value.Regular() ensures ext in exts {
      var f := Lookup(t, ext).value;
      LeavesAreHeld(t, ext, f);
      RegularsAre(ls, (ext, f));
      var i :| 0 <= i < |files| && files[i] == (ext, f);
      assert exts[i] == ext;
    }
  }

  lemma InOrder(ls: seq<(seq<Comp>, Tree)>, i: nat, j: nat)
    requires LeavesFine(ls) && i < j < |ls|
    ensures PathBefore(ls[i].0, ls[j].0)
  {}

  /** A file argument is one entry: its own data, under its last element, read from
      the argument itself. */
  lemma FileArgumentListed(p: string, t: Tree)
    requires t.File?
    ensures ForArgument(p, Some(t)).Listed? <==> t.readable
    ensures t.readable ==> (
      var es := ForArgument(p, Some(t)).entries;
      |es| == 1 && es[0].0.path == Base(p) && Describes(es[0].0, t) && es[0].1 == p)
  {
    hide Base;
  }

  /** A directory argument whose cleaned form is neither the root nor ends in
      "..": every file the walk lists is accepted by the receiver, lands at
      out/base/rel where rel is its path below the argument, and no two files
      land in the same place. */
  lemma DirectoryArgumentFits(p: string, t: Tree, out: string)
    requires t.Dir? && WellFormed(t) && ForArgument(p, Some(t)).Listed?
    requires BaseName(CleanParts(p)) != "/" && BaseName(CleanParts(p)) != DOTDOT
    ensures var es, exts := ForArgument(p, Some(t)).entries, FileExts(Leaves(t));
            var base, o := BaseName(CleanParts(p)), CleanParts(out);
            && |es| == |exts|
            && (forall i | 0 <= i < |es| ::
                  && SafeJoin(out, es[i].0.path).Some?
                  && CleanParts(SafeJoin(out, es[i].0.path).value)
                     == Cleaned(o.abs, o.comps + (if base == DOT then [] else [base]) + exts[i])
                  && CleanParts(es[i].1) == Cleaned(CleanParts(p).abs, CleanParts(p).comps + exts[i]))
            && (forall i, j | 0 <= i < j < |es| ::
                  SafeJoin(out, es[i].0.path) != SafeJoin(out, es[j].0.path))
  {
    hide SafeJoin, CleanParts, BaseName, NameUnder, PathAt, Clean, Leaves, FileExts, ForLeaves, LeavesFine;
    var ls := Leaves(t);
    var exts, es := FileExts(ls), ForLeaves(p, ls).entries;
    EntriesFollowLeaves(p, ls);
    LeavesOfDirectory(t);
    var base, o := BaseName(CleanParts(p)), CleanParts(out);
    var lead := if base == DOT then [] else [base];
    CleanTwice(p);
    forall i | 0 <= i < |es|
      ensures SafeJoin(out, es[i].0.path).Some?
      ensures CleanParts(SafeJoin(out, es[i].0.path).value) == Cleaned(o.abs, o.comps + lead + exts[i])
      ensures CleanParts(es[i].1) == Cleaned(CleanParts(p).abs, CleanParts(p).comps + exts[i])
    {
      assert Place(exts[i]);
      DirectoryNameFits(p, exts[i], out);
      PathAtAppends(Clean(p), exts[i]);
      assert o.comps + lead + exts[i] == o.comps + (lead + exts[i]);
      assert [] + exts[i] == exts[i];
    }
    forall i, j | 0 <= i < j < |es| ensures SafeJoin(out, es[i].0.path) != SafeJoin(out, es[j].0.path) {
      var at := o.comps + lead;
      assert (at + exts[i])[|at|..] == exts[i] && (at + exts[j])[|at|..] == exts[j];
    }
  }

  /** Where files of a directory can be: below it, each at its own place. */
  ghost predicate Places(exts: seq<seq<Comp>>) {
    && (forall i | 0 <= i < |exts| :: Place(exts[i]))
    && (forall i, j | 0 <= i < j < |exts| :: exts[i] != exts[j])
  }

  ghost predicate Place(ext: seq<Comp>) {
    ext != [] && AllOrdinary(ext)
  }

  lemma LeavesOfDirectory(t: Tree)
    requires t.Dir? && WellFormed(t)
    ensures Places(FileExts(Leaves(t)))
  {
    hide AllOrdinary, LeavesFine;
    TreeLeavesFine(t);
    assert EntriesFine(t.entries);
    EntryLeavesFine(t.entries);
    var ls, files, exts := Leaves(t), Regulars(Leaves(t)), FileExts(Leaves(t));
    RegularsInOrder(ls);
    forall i | 0 <= i < |exts| ensures Place(exts[i]) {
      RegularsAre(ls, files[i]);
      var k :| 0 <= k < |ls| && ls[k] == files[i];
      assert StartsIn(LeavesOf(t.entries)[k].0, t.entries);
      LeafOrdinary(ls, k);
    }
    forall i, j | 0 <= i < j < |exts| ensures exts[i] != exts[j] {
      InOrder(files, i, j);
      PathNotBeforeItself(exts[i]);
    }
  }

  lemma LeafOrdinary(ls: seq<(seq<Comp>, Tree)>, k: nat)
    requires LeavesFine(ls) && k < |ls|
    ensures AllOrdinary(ls[k].0)
  {}

  // ------------------------------------------------------- the whole offer

  predicate Accepted(out: string, e: (FileInfo, string)) {
    SafeJoin(out, e.0.path).Some?
  }

  /** An argument under whose name files can be received: of a file, the last
      element is neither ".." nor the root; of a directory with files in it, its
      cleaned form does not end in ".." and is not the root. */
  predicate Offerable(p: string, t: Tree) {
    if t.Dir? then ForLeaves(p, Leaves(t)) == Listed([]) || BaseName(CleanParts(p)) !in {"/", DOTDOT}
    else Base(p) !in {"/", DOTDOT}
  }

  ghost predicate AllAccepted(out: string, es: seq<(FileInfo, string)>) {
    forall i | 0 <= i < |es| :: Accepted(out, es[i])
  }

  lemma ArgumentAccepted(p: string, t: Tree, out: string)
    requires WellFormed(t) && ForArgument(p, Some(t)).Listed?
    ensures AllAccepted(out, ForArgument(p, Some(t)).entries) <==> Offerable(p, t)
  {
    hide SafeJoin, CleanParts, BaseName, NameUnder, Base, Leaves, FileExts, ForLeaves;
    var es := ForArgument(p, Some(t)).entries;
    if t.Dir? {
      var ls := Leaves(t);
      EntriesFollowLeaves(p, ls);
      LeavesOfDirectory(t);
      forall i | 0 <= i < |es| ensures Accepted(out, es[i]) <==> BaseName(CleanParts(p)) !in {"/", DOTDOT} {
        assert Place(FileExts(ls)[i]);
        DirectoryNameFits(p, FileExts(ls)[i], out);
      }
      if es != [] { assert Accepted(out, es[0]) <==> BaseName(CleanParts(p)) !in {"/", DOTDOT}; }
    } else {
      FileArgumentFits(p, out);
      assert es[0].0.path == Base(p);
    }
  }

  lemma AcceptedAppend(out: string, a: seq<(FileInfo, string)>, b: seq<(FileInfo, string)>)
    ensures AllAccepted(out, a + b) <==> AllAccepted(out, a) && AllAccepted(out, b)
  {
    hide Accepted;
    if AllAccepted(out, a + b) {
      forall i | 0 <= i < |a| ensures Accepted(out, a[i]) { assert a[i] == (a + b)[i]; }
      forall i | 0 <= i < |b| ensures Accepted(out, b[i]) { assert b[i] == (a + b)[|a| + i]; }
    }
  }

  /** Every entry of an offer passes the receiver's check exactly when every
      argument is one under whose name files can be received. */
  lemma {:induction false} ManifestFits(paths: seq<string>, stat: string -> Option<Tree>, out: string)
    requires ForArguments(paths, stat).Listed?
    requires forall i | 0 <= i < |paths| :: stat(paths[i]).Some? ==> WellFormed(stat(paths[i]).value)
    ensures forall i | 0 <= i < |paths| :: stat(paths[i]).Some?
    ensures AllAccepted(out, ForArguments(paths, stat).entries)
      <==> forall i | 0 <= i < |paths| :: Offerable(paths[i], stat(paths[i]).value)
    decreases |paths|
  {
    hide ForArgument, Offerable, WellFormed, Accepted;
    if paths != [] {
      var n := |paths| - 1;
      var shorter, p := paths[..n], paths[n];
      ManifestFits(shorter, stat, out);
      ListedIsThere(p, stat(p));
      ArgumentAccepted(p, stat(p).value, out);
      AcceptedAppend(out, ForArguments(shorter, stat).entries, ForArgument(p, stat(p)).entries);
      forall i | 0 <= i < n
        ensures stat(paths[i]).Some? && (Offerable(paths[i], stat(paths[i]).value) <==> Offerable(shorter[i], stat(shorter[i]).value))
      {
        assert shorter[i] == paths[i];
      }
    }
  }

  lemma ListedIsThere(p: string, t: Option<Tree>)
    ensures ForArgument(p, t).Listed? ==> t.Some?
  {}

  /** In particular, nothing below "/" or ".." can be received. */
  lemma RootAndParentRefused(p: string, ext: seq<Comp>, out: string)
    requires p == "/" || p == DOTDOT
    requires ext != [] && AllOrdinary(ext)
    ensures NameUnder(p, ext).Some? && SafeJoin(out, NameUnder(p, ext).value).None?
  {
    hide SafeJoin, NameUnder;
    DirectoryNameFits(p, ext, out);
    if p == "/" { RootParts(); } else { SingleParts(p); }
  }
}
