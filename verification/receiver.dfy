/** The receiving program: frames into a temporary file, checks, and an atomic
    publish. */
module Receiver {
  import opened Bytes
  import opened Manifest
  import opened Files
  import opened Session
  import opened Paths
  import opened Net
  import Comm

  /** A session's ends as one program sees them: packets still to arrive, until
      the connection closes, and packets sent. What has failed to send once sends
      nothing more. */
  class Link {
    var inbox: seq<Packet>
    var outbox: seq<Packet>
    /** A send has failed, for reasons of the connection's own. */
    var broken: bool

    constructor (inbox: seq<Packet>)
      ensures this.inbox == inbox && outbox == [] && !broken
    {
      this.inbox, outbox, broken := inbox, [], false;
    }

    /** Receive, where something not sealed is expected. */
    method ReceivePlain() returns (data: Option<bytes>)
      modifies this`inbox
      ensures data == if old(inbox) != [] && old(inbox)[0].Plain? then Some(old(inbox)[0].data) else None
      ensures inbox == if old(inbox) == [] then [] else old(inbox)[1..]
    {
      if inbox == [] { return None; }
      data := if inbox[0].Plain? then Some(inbox[0].data) else None;
      inbox := inbox[1..];
    }

    /** receiveEncrypted. */
    method ReceiveSealed(key: Key) returns (text: Option<bytes>)
      modifies this`inbox
      ensures text == if old(inbox) == [] then None else Open(key, old(inbox)[0])
      ensures inbox == if old(inbox) == [] then [] else old(inbox)[1..]
    {
      if inbox == [] { return None; }
      text := Open(key, inbox[0]);
      inbox := inbox[1..];
    }

    /** Send. What is too long for a message is refused; a send that fails may
        still have got its packet out. */
    method Send(p: Packet) returns (ok: bool)
      modifies this`outbox, this`broken
      ensures outbox == old(outbox) || (Fits(p) && outbox == old(outbox) + [p])
      ensures if ok then outbox == old(outbox) + [p] && broken == old(broken) else !Fits(p) || broken
      ensures old(broken) ==> broken && outbox == old(outbox)
      ensures !Fits(p) ==> broken == old(broken)
    {
      var long := match p case Plain(data) => |data| > Comm.MAX_MESSAGE
                          case Sealed(_, text) => |text| + OVERHEAD > Comm.MAX_MESSAGE;
      if long || broken { return false; }
      var fails: bool := *;
      var leaves: bool := *;
      if !fails || leaves { outbox := outbox + [p]; }
      broken, ok := fails, !fails;
    }

    /** sendEncrypted. */
    method SendSealed(key: Key, text: bytes) returns (ok: bool)
      modifies this`outbox, this`broken
      ensures outbox == old(outbox) || (Fits(Sealed(key, text)) && outbox == old(outbox) + [Sealed(key, text)])
      ensures if ok then outbox == old(outbox) + [Sealed(key, text)] && broken == old(broken)
              else !Fits(Sealed(key, text)) || broken
      ensures old(broken) ==> broken && outbox == old(outbox)
      ensures !Fits(Sealed(key, text)) ==> broken == old(broken)
    {
      ok := Send(Sealed(key, text));
    }
  }

  /** The frames a receiver gets to see: those in front of the first packet that
      does not open. */
  function Opened(key: Key, inbox: seq<Packet>): seq<bytes> {
    if inbox == [] || Open(key, inbox[0]).None? then []
    else [Open(key, inbox[0]).value] + Opened(key, inbox[1..])
  }

  /** Progress reports, in order. */
  class Meter {
    var reports: seq<(int, int)>

    constructor ()
      ensures reports == []
    {
      reports := [];
    }

    method Report(received: int, total: int)
      modifies this
      ensures reports == old(reports) + [(received, total)]
    {
      reports := reports + [(received, total)];
    }
  }

  /** The reports made for one file never go down and stay in bounds. */
  ghost predicate Steady(reports: seq<(int, int)>, low: int, high: int, total: int) {
    && (forall i | 0 <= i < |reports| :: low <= reports[i].0 <= high && reports[i].1 == total)
    && (forall i, j | 0 <= i < j < |reports| :: reports[i].0 <= reports[j].0)
  }

  datatype Options = Options(outDir: string, force: bool, sha: Hash)

  datatype Failure = Unsafe | Exists | FileSystem | Closed | BadFrame | WrongContent

  function Max0(n: int): nat {
    if n < 0 then 0 else n
  }

  ghost predicate ChunksFit(inbox: seq<Packet>) {
    forall i | 0 <= i < |inbox| :: inbox[i].Sealed? ==> |inbox[i].text| <= CHUNK_SIZE + 1
  }

  /** Only the temporary file has been touched. */
  ghost predicate OnlyTemp(before: Tree, after: Tree, tmp: string) {
    after - {tmp} == before - {tmp} && tmp in after && after[tmp].File?
  }

  lemma OnlyTempDirs(before: Tree, after: Tree, tmp: string)
    requires OnlyTemp(before, after, tmp) && tmp !in DirsOf(before)
    ensures DirsOf(after) == DirsOf(before)
  {
    forall p ensures p in DirsOf(after) <==> p in DirsOf(before) {
      if p != tmp { assert p in after - {tmp} <==> p in before - {tmp}; }
    }
  }

  lemma NothingOpened(key: Key)
    ensures Opened(key, []) == []
  {}

  lemma OpenedStep(key: Key, inbox: seq<Packet>)
    requires inbox != []
    ensures Open(key, inbox[0]).Some? ==> Opened(key, inbox) == [Open(key, inbox[0]).value] + Opened(key, inbox[1..])
    ensures Open(key, inbox[0]).None? ==> Opened(key, inbox) == []
  {}

  lemma ChunkFits(inbox: seq<Packet>, i: nat)
    requires i < |inbox|
    ensures ChunksFit(inbox) && inbox[i].Sealed? ==> |inbox[i].text| <= CHUNK_SIZE + 1
  {}

  lemma DataWithin(content: bytes, size: int)
    ensures |content| <= size ==> |content| <= Max0(size)
  {}

  lemma SteadyNone(low: int, total: int)
    ensures Steady([], low, low, total)
  {}

  lemma SteadyWider(reports: seq<(int, int)>, low: int, high: int, more: int, total: int)
    requires Steady(reports, low, high, total) && high <= more
    ensures Steady(reports, low, more, total)
  {}

  /** One round of the receive loop: a frame received, recognised and, if it is
      data, appended to the temporary file before the size is checked. */
  method TakeFrame(link: Link, key: Key, fs: FileSystem, tmp: string, info: FileInfo, content: bytes)
    returns (chunk: bytes, end: bool, err: Option<Failure>)
    requires tmp in fs.nodes && fs.nodes[tmp].File? && fs.nodes[tmp].data == content && tmp in fs.handles
    modifies link`inbox, fs`nodes, fs`failed
    ensures link.inbox == if old(link.inbox) == [] then [] else old(link.inbox)[1..]
    ensures OnlyTemp(old(fs.nodes), fs.nodes, tmp)
    ensures err.None? ==> old(link.inbox) != [] && fs.nodes[tmp].data == content + chunk && (end ==> chunk == [])
    ensures err.None? ==> (
      var frame := Open(key, old(link.inbox)[0]);
      && frame.Some?
      && OnFrame(content, frame.value, info.size) == if end then End else More(content + chunk))
    ensures err == Some(Closed) ==> old(link.inbox) == [] || Open(key, old(link.inbox)[0]).None?
    ensures err.None? && !end ==> |content + chunk| <= info.size
    ensures err == Some(BadFrame) ==> (
      && old(link.inbox) != []
      && var frame := Open(key, old(link.inbox)[0]);
      && frame.Some? && OnFrame(content, frame.value, info.size) == Broken)
    ensures err.Some? ==> err.value in {Closed, BadFrame, FileSystem}
    ensures if err == Some(FileSystem) then fs.failed else fs.failed == old(fs.failed)
    ensures chunk != [] ==> old(link.inbox) != [] && old(link.inbox)[0].Sealed? && |chunk| + 1 == |old(link.inbox)[0].text|
  {
    chunk, end := [], false;
    var payload := link.ReceiveSealed(key);
    if payload.None? { return [], false, Some(Closed); }
    var frame := payload.value;
    if |frame| == 0 { return [], false, Some(BadFrame); }
    if frame[0] == FRAME_END { return [], true, None; }
    if frame[0] != FRAME_DATA { return [], false, Some(BadFrame); }
    var ok := fs.Write(tmp, frame[1..]);
    if !ok { return [], false, Some(FileSystem); }
    chunk := frame[1..];
    err := if |content| + |chunk| > info.size then Some(BadFrame) else None;
  }

  lemma JudgeStep(frames: seq<bytes>, info: FileInfo, sha: Hash, got: bytes)
    ensures Judge([], info, sha, got) == Refused
    ensures frames != [] ==> (
      Judge(frames, info, sha, got)
        == match OnFrame(got, frames[0], info.size)
           case Broken => Refused
           case More(more) => Judge(frames[1..], info, sha, more)
           case End => if Matches(got, info, sha) then Taken(got, frames[1..]) else Refused)
  {}

  /** The progress reports made over some frames: one for each frame of data, of all
      there is by then. */
  function Told(frames: seq<bytes>, got: bytes, size: int, at: int, total: int): seq<(int, int)>
    decreases |frames|
  {
    if frames == [] then []
    else match OnFrame(got, frames[0], size)
         case More(more) => [(at + |more|, total)] + Told(frames[1..], more, size, at, total)
         case End => []
         case Broken => []
  }

  lemma ToldStep(frames: seq<bytes>, got: bytes, size: int, at: int, total: int)
    ensures Told([], got, size, at, total) == []
    ensures frames != [] ==> (
      Told(frames, got, size, at, total) ==
        match OnFrame(got, frames[0], size)
        case More(more) => [(at + |more|, total)] + Told(frames[1..], more, size, at, total)
        case End => []
        case Broken => [])
  {}

  /** Those reports never go down, and stay within the announced size. */
  lemma {:induction false} ToldSteady(frames: seq<bytes>, got: bytes, size: int, at: int, total: int)
    requires |got| <= Max0(size)
    ensures Steady(Told(frames, got, size, at, total), at + |got|, at + Max0(size), total)
    decreases |frames|
  {
    if frames != [] {
      match OnFrame(got, frames[0], size)
      case More(more) => ToldSteady(frames[1..], more, size, at, total);
      case End =>
      case Broken =>
    }
  }

  lemma SteadyPrefix(said: seq<(int, int)>, now: seq<(int, int)>, told: seq<(int, int)>, low: int, high: int, total: int)
    requires said <= now <= said + told && Steady(told, low, high, total)
    ensures Steady(now[|said|..], low, high, total)
  {
    assert forall i | 0 <= i < |now| - |said| :: now[|said|..][i] == told[i];
  }

  /** The receive loop of one file: fills the temporary file up to an end frame,
      or to the first frame that is missing, malformed or beyond the size. */
  method Collect(link: Link, key: Key, fs: FileSystem, tmp: string, info: FileInfo, sha: Hash,
                 gotSoFar: int, total: int, meter: Meter)
    returns (content: bytes, err: Option<Failure>)
    requires tmp in fs.nodes && fs.nodes[tmp] == File([], 0x180) && tmp in fs.handles
    modifies link`inbox, fs`nodes, fs`failed, meter
    ensures OnlyTemp(old(fs.nodes), fs.nodes, tmp)
    ensures err.None? ==> fs.nodes[tmp].data == content
    ensures err.None? ==> (
      Judge(Opened(key, old(link.inbox)), info, sha, [])
        == if Matches(content, info, sha) then Taken(content, Opened(key, link.inbox)) else Refused)
    ensures err.Some? ==> err.value in {Closed, BadFrame, FileSystem}
    ensures err.Some? && err.value != FileSystem ==> Judge(Opened(key, old(link.inbox)), info, sha, []) == Refused
    ensures if err == Some(FileSystem) then fs.failed else fs.failed == old(fs.failed)
    ensures ChunksFit(old(link.inbox)) ==> |content| <= Max0(info.size) + CHUNK_SIZE
    ensures old(meter.reports) <= meter.reports
    ensures var told := Told(Opened(key, old(link.inbox)), [], info.size, gotSoFar, total);
            && meter.reports <= old(meter.reports) + told
            && (err != Some(FileSystem) ==> meter.reports == old(meter.reports) + told)
  {
    hide ChunksFit, Opened, Matches, Judge, OnFrame, Told;
    content, err := [], None;
    ghost var all := Opened(key, link.inbox);
    ghost var told, taken := Told(all, [], info.size, gotSoFar, total), 0;
    while true
      invariant OnlyTemp(old(fs.nodes), fs.nodes, tmp) && fs.nodes[tmp].data == content && err.None?
      invariant Judge(all, info, sha, []) == Judge(Opened(key, link.inbox), info, sha, content)
      invariant fs.failed == old(fs.failed)
      invariant meter.reports + Told(Opened(key, link.inbox), content, info.size, gotSoFar, total) == old(meter.reports) + told
      invariant old(meter.reports) <= meter.reports
      invariant |content| <= Max0(info.size)
      invariant taken <= |old(link.inbox)| && link.inbox == old(link.inbox)[taken..]
      decreases |link.inbox|
    {
      JudgeStep(Opened(key, link.inbox), info, sha, content);
      ToldStep(Opened(key, link.inbox), content, info.size, gotSoFar, total);
      if link.inbox == [] { NothingOpened(key); } else { OpenedStep(key, link.inbox); ChunkFits(old(link.inbox), taken); }
      var chunk, end;
      chunk, end, err := TakeFrame(link, key, fs, tmp, info, content);
      assert err.None? && end ==> content + chunk == content;
      content := content + chunk;
      if err.Some? || end { return; }
      taken := taken + 1;
      DataWithin(content, info.size);
      meter.Report(gotSoFar + |content|, total);
    }
  }

  /** The checks and the publish: all that happens between the end frame and the
      deferred removal of the temporary file. */
  method Finish(fs: FileSystem, tmp: string, dest: string, content: bytes, info: FileInfo, sha: Hash)
    returns (err: Option<Failure>)
    requires tmp in fs.nodes && fs.nodes[tmp].File? && fs.nodes[tmp].data == content && tmp != dest && tmp in fs.handles
    modifies fs
    ensures fs.handles == old(fs.handles) - {tmp} || (err.Some? && fs.handles == old(fs.handles))
    ensures err.None? ==> Matches(content, info, sha) && dest !in DirsOf(old(fs.nodes)) && !Standing(dest)
    ensures fs.nodes - {tmp} ==
      if err.None? then (old(fs.nodes) - {tmp})[dest := File(content, Perm(info.mode))] else old(fs.nodes) - {tmp}
    ensures err == Some(WrongContent) ==> !Matches(content, info, sha)
    ensures err.Some? ==> err.value == WrongContent || err.value == FileSystem
    ensures err == Some(FileSystem) ==> fs.failed || dest in DirsOf(old(fs.nodes)) || Standing(dest)
    ensures if err != Some(FileSystem) then fs.failed == old(fs.failed) else old(fs.failed) ==> fs.failed
  {
    if |content| != info.size { return Some(WrongContent); }
    if sha(content) != info.sha256 { return Some(WrongContent); }
    var mode := info.mode % 512;
    if mode == 0 { mode := 0x1A4; }
    var ok := fs.Chmod(tmp, mode);
    if !ok { return Some(FileSystem); }
    ok := fs.CloseFile(tmp);
    if !ok { return Some(FileSystem); }
    ok := fs.Rename(tmp, dest);
    return if ok then None else Some(FileSystem);
  }

  /** When a file can be received: the frames carry what was announced, no file is
      above the destination, no directory is there, and, unless files may be
      overwritten, nothing is. */
  ghost predicate Receivable(frames: seq<bytes>, info: FileInfo, opts: Options, nodes: Tree, dest: string) {
    && Judge(frames, info, opts.sha, []).Taken?
    && Parents(dest) !! FilesOf(nodes).Keys
    && dest !in DirsOf(nodes) + Parents(dest) && !Standing(dest)
    && (opts.force || dest !in nodes)
  }

  /** One file, all or nothing: on success the destination holds the content the
      frames carry, of the announced size and hash, and the directories above it
      exist; on failure every file is what it was. Either way no temporary file
      remains, and none is left open. */
  method ReceiveFile(link: Link, key: Key, fs: FileSystem, dest: string, info: FileInfo,
                     gotSoFar: int, total: int, opts: Options, meter: Meter)
    returns (n: int, err: Option<Failure>)
    modifies link`inbox, fs, meter
    ensures err.Some? ==> FilesOf(fs.nodes) == FilesOf(old(fs.nodes))
    ensures err.None? ==> (
      var j := Judge(Opened(key, old(link.inbox)), info, opts.sha, []);
      && j.Taken? && n == |j.content| == info.size && Opened(key, link.inbox) == j.rest
      && FilesOf(fs.nodes) == FilesOf(old(fs.nodes))[dest := File(j.content, Perm(info.mode))])
    ensures err.None? && !opts.force ==> dest !in old(fs.nodes)
    ensures DirsOf(old(fs.nodes)) <= DirsOf(fs.nodes) <= DirsOf(old(fs.nodes)) + Parents(dest)
    ensures err.None? ==> (
      && DirsOf(fs.nodes) == DirsOf(old(fs.nodes)) + Parents(dest)
      && Parents(dest) !! FilesOf(old(fs.nodes)).Keys
      && dest !in DirsOf(fs.nodes) && !Standing(dest))
    ensures fs.handles == old(fs.handles)
    ensures err == Some(Exists) <==> !opts.force && (dest in old(fs.nodes) || Standing(dest))
    ensures err == Some(Exists) ==> fs.nodes == old(fs.nodes) && link.inbox == old(link.inbox) && fs.failed == old(fs.failed)
    ensures if err.None? then fs.failed == old(fs.failed) else old(fs.failed) ==> fs.failed
    ensures !fs.failed ==> (err.None? <==> Receivable(Opened(key, old(link.inbox)), info, opts, old(fs.nodes), dest))
    ensures var told := Told(Opened(key, old(link.inbox)), [], info.size, gotSoFar, total);
            && meter.reports <= old(meter.reports) + told
            && (err.None? || err.value in {Closed, BadFrame, WrongContent} ==> meter.reports == old(meter.reports) + told)
    ensures err != Some(Unsafe)
    ensures err.Some? && err.value in {Closed, BadFrame, WrongContent} ==>
      Judge(Opened(key, old(link.inbox)), info, opts.sha, []) == Refused
    ensures ChunksFit(old(link.inbox)) ==> n <= Max0(info.size) + CHUNK_SIZE
    ensures old(meter.reports) <= meter.reports
    ensures Steady(meter.reports[|old(meter.reports)|..], gotSoFar, gotSoFar + Max0(info.size), total)
  {
    hide Judge, Opened, Steady, ChunksFit, Matches, Perm, Parents, Standing, DirsOf, FilesOf, Told;
    ToldSteady(Opened(key, link.inbox), [], info.size, gotSoFar, total);
    SteadyPrefix(meter.reports, meter.reports, Told(Opened(key, link.inbox), [], info.size, gotSoFar, total),
                 gotSoFar, gotSoFar + Max0(info.size), total);
    if !opts.force && fs.Exists(dest) { return 0, Some(Exists); }
    var ok := fs.MakeParents(dest);
    if !ok { return 0, Some(FileSystem); }
    ghost var base := fs.nodes;
    var tmp;
    ok, tmp := fs.CreateTemp(dest);
    if !ok { return 0, Some(FileSystem); }
    assert fs.nodes - {tmp} == base;
    ghost var begun := fs.nodes;
    var content;
    content, err := Collect(link, key, fs, tmp, info, opts.sha, gotSoFar, total, meter);
    SteadyPrefix(old(meter.reports), meter.reports, Told(Opened(key, old(link.inbox)), [], info.size, gotSoFar, total),
                 gotSoFar, gotSoFar + Max0(info.size), total);
    n := |content|;
    WithTemp(base, begun, fs.nodes, tmp);
    if err.None? {
      err := Finish(fs, tmp, dest, content, info, opts.sha);
      assert err.None? ==> n == info.size by { MatchesSize(content, info, opts.sha); }
    }
    ok := fs.CloseFile(tmp);
    fs.Remove(tmp);
    assert fs.nodes == if err.None? then base[dest := File(content, Perm(info.mode))] else base;
    if err.None? { NewFile(base, dest, content, Perm(info.mode)); }
  }

  /** A temporary file beside the others changes no directory. */
  lemma WithTemp(base: Tree, begun: Tree, now: Tree, tmp: string)
    requires tmp !in base && begun == base[tmp := File([], 0x180)] && OnlyTemp(begun, now, tmp)
    ensures DirsOf(now) == DirsOf(base)
  {
    OnlyTempDirs(begun, now, tmp);
  }

  lemma MatchesSize(content: bytes, info: FileInfo, sha: Hash)
    ensures Matches(content, info, sha) ==> |content| == info.size
  {}

  // -------------------------------------------------------- the whole receive

  /** Where each manifest entry is to be written. */
  function Dests(outDir: string, files: seq<FileInfo>): (ds: seq<string>)
    ensures |ds| == |files|
  {
    seq(|files|, i requires 0 <= i < |files| =>
      match SafeJoin(outDir, files[i].path) case Some(p) => p case None => "")
  }

  /** The files that the given contents become. */
  function Nodes(contents: seq<bytes>, files: seq<FileInfo>): (ns: seq<Node>)
    requires |contents| <= |files|
    ensures |ns| == |contents|
  {
    seq(|contents|, i requires 0 <= i < |contents| => File(contents[i], Perm(files[i].mode)))
  }

  ghost predicate NonNegative(files: seq<FileInfo>) {
    forall i | 0 <= i < |files| :: files[i].size >= 0
  }

  lemma {:induction false} PublishPrefix(base: map<string, Node>, ds: seq<string>, ns: seq<Node>, more: seq<Node>, k: nat)
    requires k <= |ds| && k <= |ns| && ns <= more
    ensures Publish(base, ds, ns, k) == Publish(base, ds, more, k)
    decreases k
  {
    if k > 0 { PublishPrefix(base, ds, ns, more, k - 1); }
  }

  lemma NoOverwriteMore(base: map<string, Node>, ds: seq<string>, ns: seq<Node>, node: Node)
    requires |ns| < |ds| && NoOverwrite(base, ds, ns, |ns|) && ds[|ns|] !in Publish(base, ds, ns, |ns|)
    ensures NoOverwrite(base, ds, ns + [node], |ns| + 1)
  {
    forall j | 0 <= j < |ns| + 1 ensures ds[j] !in Publish(base, ds, ns + [node], j) {
      PublishPrefix(base, ds, ns, ns + [node], j);
    }
  }

  lemma {:induction false} SumPrefix(files: seq<FileInfo>, i: nat)
    requires NonNegative(files) && i <= |files|
    ensures 0 <= SumSizes(files[..i]) <= SumSizes(files)
    decreases |files|
  {
    if i == |files| {
      assert files[..i] == files;
      if i > 0 { SumPrefix(files[..i - 1], i - 1); assert files[..i - 1][..i - 1] == files[..i - 1]; }
    } else {
      var shorter := files[..|files| - 1];
      SumPrefix(shorter, i);
      assert shorter[..i] == files[..i];
    }
  }

  lemma SteadyJoin(a: seq<(int, int)>, b: seq<(int, int)>, low: int, mid: int, high: int, total: int)
    requires Steady(a, low, mid, total) && Steady(b, mid, high, total) && low <= mid <= high
    ensures Steady(a + b, low, high, total)
  {
    forall i, j | 0 <= i < j < |a + b| ensures (a + b)[i].0 <= (a + b)[j].0 {
      if i < |a| <= j { assert (a + b)[i] == a[i] && (a + b)[j] == b[j - |a|]; }
    }
  }

  /** The contents taken so far are those the frames carry, in order. */
  ghost predicate Judged(all: seq<bytes>, left: seq<bytes>, files: seq<FileInfo>, sha: Hash, contents: seq<bytes>) {
    && |contents| <= |files|
    && JudgeAll(all, files, sha) == contents + JudgeAll(left, files[|contents|..], sha)
  }

  /** The files are those before, with the contents published in order. */
  ghost predicate Stored(base: map<string, Node>, now: map<string, Node>, files: seq<FileInfo>, opts: Options, contents: seq<bytes>) {
    && |contents| <= |files|
    && var ds, ns := Dests(opts.outDir, files), Nodes(contents, files);
    && now == Publish(base, ds, ns, |contents|)
    && (!opts.force ==> NoOverwrite(base, ds, ns, |contents|))
    && (forall i | 0 <= i < |contents| :: SafeJoin(opts.outDir, files[i].path).Some?)
  }

  lemma JudgedStart(all: seq<bytes>, files: seq<FileInfo>, sha: Hash)
    ensures Judged(all, all, files, sha, [])
  {
    assert files[0..] == files;
  }

  lemma JudgedMore(all: seq<bytes>, left: seq<bytes>, rest: seq<bytes>, files: seq<FileInfo>, sha: Hash,
                   contents: seq<bytes>, content: bytes)
    requires Judged(all, left, files, sha, contents) && |contents| < |files|
    requires Judge(left, files[|contents|], sha, []) == Taken(content, rest)
    ensures Judged(all, rest, files, sha, contents + [content])
  {
    hide Judge;
    var i := |contents|;
    var later := JudgeAll(rest, files[i + 1..], sha);
    assert files[i..][1..] == files[i + 1..] && files[i..][0] == files[i];
    assert JudgeAll(left, files[i..], sha) == [content] + later;
    assert contents + [content] + later == contents + ([content] + later);
  }

  lemma JudgedLast(all: seq<bytes>, left: seq<bytes>, files: seq<FileInfo>, sha: Hash, contents: seq<bytes>)
    requires Judged(all, left, files, sha, contents)
    requires |contents| < |files| ==> Judge(left, files[|contents|], sha, []) == Refused
    ensures JudgeAll(all, files, sha) == contents
  {
    hide Judge;
    assert |contents| < |files| ==> files[|contents|..][0] == files[|contents|];
    assert contents + [] == contents;
  }

  lemma StoredMore(base: map<string, Node>, now: map<string, Node>, files: seq<FileInfo>, opts: Options,
                   contents: seq<bytes>, content: bytes, dest: string)
    requires Stored(base, now, files, opts, contents) && |contents| < |files|
    requires SafeJoin(opts.outDir, files[|contents|].path) == Some(dest)
    requires !opts.force ==> dest !in now
    ensures Stored(base, now[dest := File(content, Perm(files[|contents|].mode))], files, opts, contents + [content])
  {
    hide SafeJoin, Perm, NoOverwrite, Publish, Nodes, Dests;
    var i := |contents|;
    var ds, ns := Dests(opts.outDir, files), Nodes(contents, files);
    var node := File(content, Perm(files[i].mode));
    NodesSnoc(contents, content, files);
    DestIs(opts.outDir, files, i, dest);
    PublishMore(base, ds, ns, node);
    if !opts.force { NoOverwriteMore(base, ds, ns, node); }
  }

  lemma NodesSnoc(contents: seq<bytes>, content: bytes, files: seq<FileInfo>)
    requires |contents| < |files|
    ensures Nodes(contents + [content], files) == Nodes(contents, files) + [File(content, Perm(files[|contents|].mode))]
  {}

  lemma DestIs(outDir: string, files: seq<FileInfo>, i: nat, dest: string)
    requires i < |files| && SafeJoin(outDir, files[i].path) == Some(dest)
    ensures Dests(outDir, files)[i] == dest
  {
    hide SafeJoin;
  }

  lemma PublishMore(base: map<string, Node>, ds: seq<string>, ns: seq<Node>, node: Node)
    requires |ns| < |ds|
    ensures Publish(base, ds, ns + [node], |ns| + 1) == Publish(base, ds, ns, |ns|)[ds[|ns|] := node]
  {
    PublishPrefix(base, ds, ns, ns + [node], |ns|);
  }

  lemma StepAccounting(files: seq<FileInfo>, i: nat)
    requires i < |files|
    ensures SumSizes(files[..i + 1]) == SumSizes(files[..i]) + files[i].size
    ensures NonNegative(files) ==> 0 <= SumSizes(files[..i]) <= SumSizes(files[..i + 1]) <= SumSizes(files)
  {
    assert files[..i + 1][..i] == files[..i];
    if NonNegative(files) {
      SumPrefix(files, i + 1);
      SumPrefix(files, i);
    }
  }

  lemma StoredStart(base: map<string, Node>, files: seq<FileInfo>, opts: Options)
    ensures Stored(base, base, files, opts, [])
  {}

  /** Every published file had room, and exactly the directories above those exist
      in addition to the earlier ones. */
  ghost predicate Settled(base: map<string, Node>, dirs: set<string>, now: set<string>, files: seq<FileInfo>,
                          opts: Options, contents: seq<bytes>)
  {
    && |contents| <= |files|
    && AllRoom(base, dirs, Dests(opts.outDir, files), Nodes(contents, files), |contents|)
    && now == DirsAfter(dirs, Dests(opts.outDir, files), |contents|)
  }

  /** The same, with some of the directories above the next file as well. */
  ghost predicate Placed(base: map<string, Node>, dirs: set<string>, now: set<string>, files: seq<FileInfo>,
                         opts: Options, contents: seq<bytes>)
  {
    && |contents| <= |files|
    && AllRoom(base, dirs, Dests(opts.outDir, files), Nodes(contents, files), |contents|)
    && DirsAfter(dirs, Dests(opts.outDir, files), |contents|) <= now
    && now <= DirsAfter(dirs, Dests(opts.outDir, files), Min(|contents| + 1, |files|))
  }

  lemma SettledStart(base: map<string, Node>, dirs: set<string>, files: seq<FileInfo>, opts: Options)
    ensures Settled(base, dirs, dirs, files, opts, [])
  {}

  lemma SettledPart(base: map<string, Node>, dirs: set<string>, now: set<string>, later: set<string>,
                    files: seq<FileInfo>, opts: Options, contents: seq<bytes>)
    requires Settled(base, dirs, now, files, opts, contents)
    requires |contents| < |files| ==> now <= later <= now + Parents(Dests(opts.outDir, files)[|contents|])
    requires |contents| == |files| ==> later == now
    ensures Placed(base, dirs, later, files, opts, contents)
  {
    hide Parents, Dests, Nodes, AllRoom;
  }

  lemma SettledMore(base: map<string, Node>, dirs: set<string>, mid: map<string, Node>, now: set<string>,
                    files: seq<FileInfo>, opts: Options, contents: seq<bytes>, content: bytes, dest: string)
    requires Settled(base, dirs, now, files, opts, contents) && Stored(base, mid, files, opts, contents)
    requires |contents| < |files| && Dests(opts.outDir, files)[|contents|] == dest
    requires Parents(dest) !! mid.Keys && dest !in now + Parents(dest) && !Standing(dest)
    ensures Settled(base, dirs, now + Parents(dest), files, opts, contents + [content])
  {
    hide Parents, Standing, Dests, Nodes, Publish, NoOverwrite, SafeJoin;
    var ds, ns, more := Dests(opts.outDir, files), Nodes(contents, files), Nodes(contents + [content], files);
    NodesSnoc(contents, content, files);
    forall j | 0 <= j < |contents| + 1 ensures HadRoom(base, dirs, ds, more, j) {
      PublishPrefix(base, ds, ns, more, j);
      if j < |contents| { assert HadRoom(base, dirs, ds, ns, j); }
    }
  }

  /** Why the file whose turn it is cannot be received: its name is refused, something
      is in its way, or the frames carry no more files as announced. */
  ghost predicate Hindered(base: map<string, Node>, dirs: set<string>, frames: seq<bytes>, files: seq<FileInfo>,
                           opts: Options, contents: seq<bytes>)
    requires |contents| < |files|
  {
    var i, ds, ns := |contents|, Dests(opts.outDir, files), Nodes(contents, files);
    || SafeJoin(opts.outDir, files[i].path).None?
    || !HadRoom(base, dirs, ds, ns, i)
    || (!opts.force && ds[i] in Publish(base, ds, ns, i))
    || contents == JudgeAll(frames, files, opts.sha)
  }

  lemma NotReceivable(base: map<string, Node>, dirs: set<string>, frames: seq<bytes>, left: seq<bytes>, files: seq<FileInfo>,
                      opts: Options, contents: seq<bytes>, mid: Tree, dest: string)
    requires |contents| < |files| && SafeJoin(opts.outDir, files[|contents|].path) == Some(dest)
    requires Judged(frames, left, files, opts.sha, contents)
    requires Stored(base, FilesOf(mid), files, opts, contents)
    requires Settled(base, dirs, DirsOf(mid), files, opts, contents)
    requires !Receivable(left, files[|contents|], opts, mid, dest)
    ensures Hindered(base, dirs, frames, files, opts, contents)
  {
    hide Judge, JudgeAll, Judged, Publish, Nodes, Dests, Parents, Standing, NoOverwrite, AllRoom;
    var i := |contents|;
    DestIs(opts.outDir, files, i, dest);
    if !Judge(left, files[i], opts.sha, []).Taken? {
      JudgedLast(frames, left, files, opts.sha, contents);
    } else if !opts.force && dest in mid {
      assert dest in FilesOf(mid) || dest in DirsOf(mid);
    }
  }

  /** All files in manifest order. `contents` are those published: at any exit
      exactly these are in place, the files before the failing one, and nothing
      else has changed. */
  method ReceiveFiles(link: Link, key: Key, fs: FileSystem, files: seq<FileInfo>, total: int, opts: Options, meter: Meter)
    returns (got: int, err: Option<Failure>, ghost contents: seq<bytes>)
    modifies link`inbox, fs, meter
    ensures Stored(FilesOf(old(fs.nodes)), FilesOf(fs.nodes), files, opts, contents)
    ensures Placed(FilesOf(old(fs.nodes)), DirsOf(old(fs.nodes)), DirsOf(fs.nodes), files, opts, contents)
    ensures contents <= JudgeAll(Opened(key, old(link.inbox)), files, opts.sha)
    ensures |contents| <= |files| && got == SumSizes(files[..|contents|])
    ensures err.None? ==> |contents| == |files| && got == SumSizes(files)
    ensures err.Some? ==> |contents| < |files|
    ensures err.Some? ==> (err == Some(Unsafe) <==> SafeJoin(opts.outDir, files[|contents|].path).None?)
    ensures fs.handles == old(fs.handles)
    ensures err.Some? && err.value in {Closed, BadFrame, WrongContent} ==>
      contents == JudgeAll(Opened(key, old(link.inbox)), files, opts.sha)
    ensures err.Some? && !fs.failed ==> (
      Hindered(FilesOf(old(fs.nodes)), DirsOf(old(fs.nodes)), Opened(key, old(link.inbox)), files, opts, contents))
    ensures err == Some(Unsafe) || err.None? ==> fs.failed == old(fs.failed)
    ensures old(fs.failed) ==> fs.failed
    ensures old(meter.reports) <= meter.reports
    ensures NonNegative(files) ==> Steady(meter.reports[|old(meter.reports)|..], 0, SumSizes(files), total)
  {
    hide Hindered, Receivable;
    hide Judge, JudgeAll, Opened, Steady, NonNegative, Stored, Judged, SafeJoin, SumSizes, Dests;
    hide Settled, Placed, Parents, Standing, DirsOf, FilesOf;
    ghost var all, log := Opened(key, link.inbox), |meter.reports|;
    ghost var base, dirs := FilesOf(fs.nodes), DirsOf(fs.nodes);
    SettledStart(base, dirs, files, opts);
    contents := [];
    got, err := 0, None;
    var i := 0;
    JudgedStart(all, files, opts.sha);
    StoredStart(base, files, opts);
    SteadyNone(0, total);
    assert meter.reports[log..] == [];
    SumNone(files);
    while i < |files|
      invariant i == |contents| <= |files| && err.None? && got == SumSizes(files[..i])
      invariant fs.failed == old(fs.failed) && fs.handles == old(fs.handles)
      invariant Judged(all, Opened(key, link.inbox), files, opts.sha, contents)
      invariant Stored(base, FilesOf(fs.nodes), files, opts, contents)
      invariant Settled(base, dirs, DirsOf(fs.nodes), files, opts, contents)
      invariant old(meter.reports) <= meter.reports
      invariant NonNegative(files) ==> 0 <= got && Steady(meter.reports[log..], 0, got, total)
    {
      StepAccounting(files, i);
      JudgedPrefix(all, Opened(key, link.inbox), files, opts.sha, contents);
      if NonNegative(files) { SteadyWider(meter.reports[log..], 0, got, SumSizes(files), total); }
      var dest := SafeJoin(opts.outDir, files[i].path);
      if dest.None? {
        SettledPart(base, dirs, DirsOf(fs.nodes), DirsOf(fs.nodes), files, opts, contents);
        RefusedHinders(base, dirs, all, files, opts, contents);
        return got, Some(Unsafe), contents;
      }
      ghost var left, mid, said := Opened(key, link.inbox), fs.nodes, meter.reports;
      var n;
      n, err := ReceiveFile(link, key, fs, dest.value, files[i], got, total, opts, meter);
      DestIs(opts.outDir, files, i, dest.value);
      if NonNegative(files) { FileReported(said, meter.reports, log, got, files, i, total); }
      if err.Some? {
        if err.value in {Closed, BadFrame, WrongContent} { JudgedLast(all, left, files, opts.sha, contents); }
        SettledPart(base, dirs, DirsOf(mid), DirsOf(fs.nodes), files, opts, contents);
        if !fs.failed { NotReceivable(base, dirs, all, left, files, opts, contents, mid, dest.value); }
        return;
      }
      ghost var content := Judge(left, files[i], opts.sha, []).content;
      JudgedMore(all, left, Opened(key, link.inbox), files, opts.sha, contents, content);
      SettledMore(base, dirs, FilesOf(mid), DirsOf(mid), files, opts, contents, content, dest.value);
      NotThere(mid, dest.value);
      StoredMore(base, FilesOf(mid), files, opts, contents, content, dest.value);
      contents := contents + [content];
      got := got + n;
      i := i + 1;
    }
    JudgedLast(all, Opened(key, link.inbox), files, opts.sha, contents);
    SettledPart(base, dirs, DirsOf(fs.nodes), DirsOf(fs.nodes), files, opts, contents);
    assert files[..|files|] == files;
  }

  lemma RefusedHinders(base: map<string, Node>, dirs: set<string>, frames: seq<bytes>, files: seq<FileInfo>,
                       opts: Options, contents: seq<bytes>)
    requires |contents| < |files| && SafeJoin(opts.outDir, files[|contents|].path).None?
    ensures Hindered(base, dirs, frames, files, opts, contents)
  {
    hide SafeJoin;
  }

  lemma NotThere(t: Tree, p: string)
    ensures p !in t ==> p !in FilesOf(t)
  {}

  /** The reports of one more file after those so far. */
  lemma ReportsJoin(said: seq<(int, int)>, now: seq<(int, int)>, log: nat, at: int, to: int, high: int, total: int)
    requires log <= |said| && said <= now && 0 <= at <= to <= high
    requires Steady(said[log..], 0, at, total) && Steady(now[|said|..], at, to, total)
    ensures Steady(now[log..], 0, to, total) && Steady(now[log..], 0, high, total)
  {
    hide Steady;
    assert now[log..] == said[log..] + now[|said|..];
    SteadyJoin(said[log..], now[|said|..], 0, at, to, total);
    SteadyWider(now[log..], 0, to, high, total);
  }

  lemma FileReported(said: seq<(int, int)>, now: seq<(int, int)>, log: nat, got: int, files: seq<FileInfo>, i: nat, total: int)
    requires i < |files| && NonNegative(files) && got == SumSizes(files[..i])
    requires log <= |said| && said <= now
    requires Steady(said[log..], 0, got, total)
    requires Steady(now[|said|..], got, got + Max0(files[i].size), total)
    ensures Steady(now[log..], 0, got + files[i].size, total) && Steady(now[log..], 0, SumSizes(files), total)
  {
    hide Steady;
    StepAccounting(files, i);
    ReportsJoin(said, now, log, got, got + files[i].size, SumSizes(files), total);
  }

  lemma SumNone(files: seq<FileInfo>)
    ensures SumSizes(files[..0]) == 0
  {}

  lemma JudgedPrefix(all: seq<bytes>, left: seq<bytes>, files: seq<FileInfo>, sha: Hash, contents: seq<bytes>)
    requires Judged(all, left, files, sha, contents)
    ensures contents <= JudgeAll(all, files, sha)
  {}

  /** What the receiver sent after the keys were confirmed. */
  datatype Replies = Silent | Declined | Accepted | AcceptedThen(text: bytes)

  function RepliesAs(r: Replies, key: Key): seq<Packet> {
    match r
    case Silent => []
    case Declined => [Sealed(key, REJECT)]
    case Accepted => [Sealed(key, ACCEPT)]
    case AcceptedThen(text) => [Sealed(key, ACCEPT), Sealed(key, text)]
  }

  /** What a run of the receiving program comes to: an offer that opened, was
      decoded and, if it was answered, confirmed or declined; the leading files of
      it that the frames carry, published, each with room for it, and nothing else
      changed; and the second "accept", which the sender takes as success, sent only
      when every entry of the offer is published. */
  ghost predicate Received(inbox: seq<Packet>, key: Key, decode: bytes -> Option<seq<FileInfo>>,
                           confirm: seq<FileInfo> -> bool, opts: Options,
                           base: map<string, Node>, dirs: set<string>, now: map<string, Node>, nowDirs: set<string>,
                           files: seq<FileInfo>, contents: seq<bytes>, replies: Replies, ok: bool)
  {
    && Stored(base, now, files, opts, contents)
    && Placed(base, dirs, nowDirs, files, opts, contents)
    && (files != [] ==>
          && inbox != []
          && Open(key, inbox[0]).Some? && decode(Open(key, inbox[0]).value) == Some(files)
          && contents <= JudgeAll(Opened(key, inbox[1..]), files, opts.sha))
    && (!replies.Silent? ==> files != [] && (replies.Declined? <==> !confirm(files)))
    && (replies.Silent? || replies.Declined? ==> contents == [] && now == base && nowDirs == dirs)
    && (replies.AcceptedThen? ==>
          && Fits(Sealed(key, replies.text))
          && (replies.text == ACCEPT <==> |contents| == |files|))
    && (ok ==> replies == AcceptedThen(ACCEPT))
  }

  /** If nothing failed by itself, whatever fell short of a full success has its
      cause in what was sent, offered, or there before. */
  ghost predicate Excused(inbox: seq<Packet>, key: Key, decode: bytes -> Option<seq<FileInfo>>,
                          confirm: seq<FileInfo> -> bool, opts: Options, base: map<string, Node>, dirs: set<string>,
                          files: seq<FileInfo>, contents: seq<bytes>, replies: Replies, ok: bool)
  {
    && (files == [] ==>
          inbox == [] || Open(key, inbox[0]).None? || decode(Open(key, inbox[0]).value) in {None, Some([])})
    && (replies.Silent? ==> files == [])
    && (files != [] && |contents| < |files| && confirm(files) ==>
          inbox != [] && Hindered(base, dirs, Opened(key, inbox[1..]), files, opts, contents))
    && (files != [] && |contents| == |files| ==> ok)
  }

  lemma NothingReceived(base: Tree, files: seq<FileInfo>, opts: Options)
    ensures Stored(FilesOf(base), FilesOf(base), files, opts, [])
    ensures Placed(FilesOf(base), DirsOf(base), DirsOf(base), files, opts, [])
  {
    hide Settled, Placed, DirsOf, FilesOf;
    StoredStart(FilesOf(base), files, opts);
    SettledStart(FilesOf(base), DirsOf(base), files, opts);
    SettledPart(FilesOf(base), DirsOf(base), DirsOf(base), DirsOf(base), files, opts, []);
  }

  /** The receiving program from the manifest on. An error text never reads
      "accept". An error of its own making is told, unless it is too long, and a
      refused name is not. Progress reports never go down, and at any exit have stayed within
      what the offer announces. */
  method Receive(link: Link, key: Key, fs: FileSystem, decode: bytes -> Option<seq<FileInfo>>,
                 confirm: seq<FileInfo> -> bool, explain: Failure -> bytes, opts: Options, meter: Meter)
    returns (ok: bool, ghost files: seq<FileInfo>, ghost contents: seq<bytes>, ghost replies: Replies)
    requires forall f :: explain(f) != ACCEPT
    modifies link, fs, meter
    ensures Received(old(link.inbox), key, decode, confirm, opts, FilesOf(old(fs.nodes)), DirsOf(old(fs.nodes)),
                     FilesOf(fs.nodes), DirsOf(fs.nodes), files, contents, replies, ok)
    ensures !fs.failed && !link.broken ==>
      Excused(old(link.inbox), key, decode, confirm, opts, FilesOf(old(fs.nodes)), DirsOf(old(fs.nodes)), files, contents, replies, ok)
    ensures !link.broken && replies.Accepted? ==> (
      || (|contents| < |files| && SafeJoin(opts.outDir, files[|contents|].path).None?)
      || exists f :: !Fits(Sealed(key, explain(f))))
    ensures replies.AcceptedThen? ==> |contents| == |files| || SafeJoin(opts.outDir, files[|contents|].path).Some?
    ensures fs.handles == old(fs.handles)
    ensures old(fs.failed) ==> fs.failed
    ensures old(link.broken) ==> link.broken
    ensures replies.Silent? || replies.Declined? ==> fs.nodes == old(fs.nodes)
    ensures link.outbox == old(link.outbox) + RepliesAs(replies, key)
    ensures old(meter.reports) <= meter.reports
    ensures NonNegative(files) ==>
      Steady(meter.reports[|old(meter.reports)|..], 0, SumSizes(files), Wrap64(SumSizes(files)))
  {
    hide JudgeAll, Opened, Steady, NonNegative, Stored, SumSizes, Wrap64, Dests, Placed, Hindered, SafeJoin;
    AnswersFit(key);
    ok, files, contents, replies := false, [], [], Silent;
    NothingReceived(fs.nodes, [], opts);
    NothingReported([]);
    assert meter.reports[|meter.reports|..] == [];
    var offer := link.ReceiveSealed(key);
    if offer.None? { return; }
    var decoded := decode(offer.value);
    if decoded.None? || |decoded.value| == 0 { return; }
    files := decoded.value;
    NothingReceived(fs.nodes, files, opts);
    NothingReported(files);
    ghost var sent := link.outbox;
    if !confirm(decoded.value) {
      var told := link.SendSealed(key, REJECT);
      replies := if link.outbox == sent then Silent else Declined;
      return;
    }
    var told := link.SendSealed(key, ACCEPT);
    replies := if link.outbox == sent then Silent else Accepted;
    if !told { return; }
    var total := TotalSize(decoded.value);
    var got, err;
    got, err, contents := ReceiveFiles(link, key, fs, decoded.value, total, opts, meter);
    if err == Some(Unsafe) { return; }
    ghost var text := if err.Some? then explain(err.value) else ACCEPT;
    told := link.SendSealed(key, if err.Some? then explain(err.value) else ACCEPT);
    if link.outbox != sent + [Sealed(key, ACCEPT)] { replies := AcceptedThen(text); }
    ok := told && err.None?;
  }

  lemma AnswersFit(key: Key)
    ensures Fits(Sealed(key, ACCEPT)) && Fits(Sealed(key, REJECT))
  {}

  lemma NothingReported(files: seq<FileInfo>)
    ensures NonNegative(files) ==> Steady([], 0, SumSizes(files), Wrap64(SumSizes(files)))
  {}

  /** What it means that the whole manifest is stored. */
  lemma AllStored(base: map<string, Node>, now: map<string, Node>, files: seq<FileInfo>, opts: Options, contents: seq<bytes>)
    requires |contents| == |files| && Stored(base, now, files, opts, contents)
    ensures forall j | 0 <= j < |files| :: SafeJoin(opts.outDir, files[j].path).Some?
    ensures LastWins(base, now, Dests(opts.outDir, files), Nodes(contents, files))
    ensures !opts.force ==> EachFresh(base, now, Dests(opts.outDir, files), Nodes(contents, files))
  {
    hide SafeJoin, Dests, Nodes, Publish, NoOverwrite, LastWins, EachFresh;
    AllPublished(base, Dests(opts.outDir, files), Nodes(contents, files));
    if !opts.force { AllPublishedFresh(base, Dests(opts.outDir, files), Nodes(contents, files)); }
  }

  /** A path in a directory: the directory's components, then ordinary ones. */
  ghost predicate Inside(dir: string, path: string) {
    var d, p := CleanParts(dir), CleanParts(path);
    p.abs == d.abs && d.comps <= p.comps && AllOrdinary(p.comps[|d.comps|..])
  }

  /** Whatever names a manifest carries and whenever the receiving stops, a file
      that appeared, changed or vanished is inside the output directory. */
  lemma NothingOutside(base: map<string, Node>, now: map<string, Node>, files: seq<FileInfo>, opts: Options,
                       contents: seq<bytes>, p: string)
    requires Stored(base, now, files, opts, contents)
    requires (p in base) != (p in now) || (p in base && p in now && base[p] != now[p])
    ensures Inside(opts.outDir, p)
  {
    hide SafeJoin, Publish, NoOverwrite, CleanParts, AllOrdinary, Nodes;
    var ds, ns, k := Dests(opts.outDir, files), Nodes(contents, files), |contents|;
    if p !in ds[..k] { PublishedElsewhere(base, ds, ns, k, p); }
    var j :| 0 <= j < k && ds[j] == p;
    assert SafeJoin(opts.outDir, files[j].path) == Some(p);
    Contained(opts.outDir, files[j].path);
    var d, n := CleanParts(opts.outDir).comps, CleanParts(files[j].path).comps;
    assert (d + n)[|d|..] == n;
  }

  /** And a directory that appeared is inside the output directory, or is the
      output directory, or leads to it. */
  lemma NoDirectoryOutside(base: map<string, Node>, dirs: set<string>, now: set<string>, files: seq<FileInfo>,
                           opts: Options, contents: seq<bytes>, p: string)
    requires Placed(base, dirs, now, files, opts, contents) && p in now && p !in dirs
    ensures Inside(opts.outDir, p) || p in Parents(opts.outDir)
  {
    hide SafeJoin, CleanParts, AllOrdinary, Normal, Render, DirsAfter, AllRoom, Nodes;
    var ds := Dests(opts.outDir, files);
    DirsAdded(dirs, ds, Min(|contents| + 1, |files|), p);
    var j :| 0 <= j < |ds| && p in Parents(ds[j]);
    AboveInside(opts.outDir, files[j].path, ds[j], p);
  }

  lemma AboveInside(outDir: string, name: string, dest: string, p: string)
    requires p in Parents(dest) && dest == match SafeJoin(outDir, name) case Some(d) => d case None => ""
    ensures Inside(outDir, p) || p in Parents(outDir)
  {
    hide SafeJoin, CleanParts, AllOrdinary, Normal, Render;
    var k :| 1 <= k < |CleanParts(dest).comps| && p == Above(dest, k);
    NothingAboveEmpty();
    Contained(outDir, name);
    var d, n, whole := CleanParts(outDir).comps, CleanParts(name).comps, CleanParts(dest);
    if k < |d| {
      assert whole.comps[..k] == d[..k];
      assert p == Above(outDir, k);
    } else {
      CleanIsNormal(dest);
      PrefixNormal(whole, k);
      RenderCleans(Cleaned(whole.abs, whole.comps[..k]));
      assert whole.comps[..k] == d + n[..k - |d|];
      assert (d + n[..k - |d|])[|d|..] == n[..k - |d|];
      OrdinaryPrefix(n, k - |d|);
    }
  }

  lemma OrdinaryPrefix(cs: seq<Comp>, k: nat)
    requires AllOrdinary(cs) && k <= |cs|
    ensures AllOrdinary(cs[..k])
  {}

  lemma NothingAboveEmpty()
    ensures CleanParts("").comps == []
  {
    EmptyIsDot();
  }
}
