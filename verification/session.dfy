/** What travels over an established session: sealed packets, the frames of a
    file stream, and how a receiver judges them. */
module Session {
  import opened Bytes
  import opened Manifest
  import opened Files
  import Comm

  type Key = bytes

  /** Authenticated encryption, idealised: a sealed packet opens under its own
      key and no other, and nothing else opens at all. */
  datatype Packet = Plain(data: bytes) | Sealed(key: Key, text: bytes)

  function Open(key: Key, p: Packet): Option<bytes> {
    if p.Sealed? && p.key == key then Some(p.text) else None
  }

  const CHUNK_SIZE: nat := 64 * 1024
  const FRAME_DATA: byte := 0
  const FRAME_END: byte := 1

  /** Bytes that sealing adds: a 12-byte nonce and a 16-byte tag. */
  const OVERHEAD: nat := 28

  /** What a message can hold: the transport refuses anything longer. */
  predicate Fits(p: Packet) {
    match p
    case Plain(data) => |data| <= Comm.MAX_MESSAGE
    case Sealed(_, text) => |text| + OVERHEAD <= Comm.MAX_MESSAGE
  }

  const SENDER_READY: bytes := Text("fsi sender ready")
  const RECEIVER_READY: bytes := Text("fsi receiver ready")

  const ACCEPT: bytes := Text("accept")
  const REJECT: bytes := Text("reject")

  type Hash = bytes -> string

  /** Accepted content has the announced size and hash. */
  ghost predicate Matches(content: bytes, info: FileInfo, sha: Hash) {
    |content| == info.size && sha(content) == info.sha256
  }

  /** Permission bits a published file gets. */
  function Perm(mode: nat): nat {
    if mode % 512 == 0 then 0x1A4 else mode % 512
  }

  /** The nine permission bits are kept as they are, unless none is set: then the
      file gets 0644. */
  lemma PermBits(mode: nat)
    ensures if exists i :: 0 <= i < 9 && Bit(mode, i) == 1
            then Perm(mode) < 512 && forall i | 0 <= i < 9 :: Bit(Perm(mode), i) == Bit(mode, i)
            else Perm(mode) == 6 * 64 + 4 * 8 + 4
  {
    assert Pow2(9) == 512 by { assert Pow2(9) == 8 * Pow2(6) && Pow2(6) == 8 * Pow2(3); }
    forall i | 0 <= i < 9 ensures Bit(mode % 512, i) == Bit(mode, i) {
      LowBits(mode, 9, i);
      ZeroBits(i);
    }
    if i :| 0 <= i < 9 && Bit(mode, i) == 1 {
      ZeroBits(i);
    } else {
      NoLowBits(mode, 9);
    }
  }

  // -------------------------------------------------------- judging a stream

  datatype Progress = More(got: bytes) | End | Broken

  /** One opened frame, with `got` received so far of a file announced as `size`. */
  function OnFrame(got: bytes, frame: bytes, size: int): Progress {
    if frame == [] then Broken
    else if frame[0] == FRAME_END then End
    else if frame[0] != FRAME_DATA || |got| + |frame| - 1 > size then Broken
    else More(got + frame[1..])
  }

  datatype Verdict = Taken(content: bytes, rest: seq<bytes>) | Refused

  /** What becomes of one file, given the frames that open. */
  ghost function Judge(frames: seq<bytes>, info: FileInfo, sha: Hash, got: bytes): Verdict {
    if frames == [] then Refused
    else match OnFrame(got, frames[0], info.size)
         case Broken => Refused
         case More(more) => Judge(frames[1..], info, sha, more)
         case End => if Matches(got, info, sha) then Taken(got, frames[1..]) else Refused
  }

  /** The contents taken for the leading files of a manifest. */
  ghost function JudgeAll(frames: seq<bytes>, files: seq<FileInfo>, sha: Hash): seq<bytes>
    decreases |files|
  {
    if files == [] then []
    else match Judge(frames, files[0], sha, [])
         case Refused => []
         case Taken(content, rest) => [content] + JudgeAll(rest, files[1..], sha)
  }

  // ------------------------------------------------------- the sender's side

  function DataFrame(chunk: bytes): bytes {
    [FRAME_DATA] + chunk
  }

  /** The frames of one file cut into chunks. */
  function FileFrames(chunks: seq<bytes>): seq<bytes> {
    if chunks == [] then [[FRAME_END]] else [DataFrame(chunks[0])] + FileFrames(chunks[1..])
  }

  ghost predicate GoodChunks(chunks: seq<bytes>) {
    forall i | 0 <= i < |chunks| :: 0 < |chunks[i]| <= CHUNK_SIZE
  }

  /** However the sender cut the file, the receiver takes it exactly when its
      whole content has the announced size and hash, and then takes exactly that
      content, leaving the following frames untouched. */
  lemma {:induction false} JudgeReassembles(chunks: seq<bytes>, tail: seq<bytes>, info: FileInfo, sha: Hash, got: bytes)
    requires |got| <= info.size || got == []
    ensures var content := got + Concat(chunks);
            Judge(FileFrames(chunks) + tail, info, sha, got)
              == if Matches(content, info, sha) then Taken(content, tail) else Refused
    decreases |chunks|
  {
    var frames := FileFrames(chunks) + tail;
    if chunks == [] {
      assert frames[1..] == tail && got + [] == got;
    } else {
      assert frames[0] == DataFrame(chunks[0]) && frames[1..] == FileFrames(chunks[1..]) + tail;
      assert frames[0][1..] == chunks[0];
      Assoc(got, chunks[0], Concat(chunks[1..]));
      if |got| + |chunks[0]| <= info.size {
        JudgeReassembles(chunks[1..], tail, info, sha, got + chunks[0]);
      }
    }
  }

  /** A sealed chunk always fits a message. */
  lemma FrameFits(key: Key, chunk: bytes)
    requires |chunk| <= CHUNK_SIZE
    ensures Fits(Sealed(key, DataFrame(chunk))) && |DataFrame(chunk)| + OVERHEAD < Comm.MAX_MESSAGE
  {}

  // ------------------------------------------------------------- publication

  /** The files after the first k of a list have been written over base. */
  ghost function Publish(base: map<string, Node>, dests: seq<string>, nodes: seq<Node>, k: nat): map<string, Node>
    requires k <= |dests| && k <= |nodes|
  {
    if k == 0 then base else Publish(base, dests, nodes, k - 1)[dests[k - 1] := nodes[k - 1]]
  }

  /** No destination was in use when its file was written. */
  ghost predicate NoOverwrite(base: map<string, Node>, dests: seq<string>, nodes: seq<Node>, k: nat)
    requires k <= |dests| && k <= |nodes|
  {
    forall j | 0 <= j < k :: dests[j] !in Publish(base, dests, nodes, j)
  }

  /** j is the last of the first k entries to name its destination. */
  ghost predicate Final(dests: seq<string>, j: nat, k: nat)
    requires j < k <= |dests|
  {
    forall i | j < i < k :: dests[i] != dests[j]
  }

  /** A destination holds what was last written there. */
  lemma {:induction false} PublishedLast(base: map<string, Node>, dests: seq<string>, nodes: seq<Node>, k: nat, j: nat)
    requires j < k <= |dests| && k <= |nodes| && Final(dests, j, k)
    ensures var now := Publish(base, dests, nodes, k); dests[j] in now && now[dests[j]] == nodes[j]
    decreases k
  {
    if j < k - 1 { PublishedLast(base, dests, nodes, k - 1, j); }
  }

  /** What no entry names is as before. */
  lemma {:induction false} PublishedElsewhere(base: map<string, Node>, dests: seq<string>, nodes: seq<Node>, k: nat, p: string)
    requires k <= |dests| && k <= |nodes| && p !in dests[..k]
    ensures var now := Publish(base, dests, nodes, k); (p in now <==> p in base) && (p in base ==> now[p] == base[p])
    decreases k
  {
    if k > 0 {
      assert dests[..k] == dests[..k - 1] + [dests[k - 1]];
      PublishedElsewhere(base, dests, nodes, k - 1, p);
    }
  }

  lemma {:induction false} PublishGrows(base: map<string, Node>, dests: seq<string>, nodes: seq<Node>, j: nat, k: nat)
    requires j <= k <= |dests| && k <= |nodes|
    ensures Publish(base, dests, nodes, j).Keys <= Publish(base, dests, nodes, k).Keys
    ensures forall i | j <= i < k :: dests[i] in Publish(base, dests, nodes, k)
    decreases k
  {
    if j < k { PublishGrows(base, dests, nodes, j, k - 1); }
  }

  /** Without overwriting, destinations are pairwise different, were not in use
      before, hold exactly their own file, and every earlier file is intact. */
  lemma PublishedFresh(base: map<string, Node>, dests: seq<string>, nodes: seq<Node>, k: nat)
    requires k <= |dests| && k <= |nodes| && NoOverwrite(base, dests, nodes, k)
    ensures forall i, j | 0 <= i < j < k :: dests[i] != dests[j]
    ensures forall j | 0 <= j < k ::
      && dests[j] !in base && dests[j] in Publish(base, dests, nodes, k)
      && Publish(base, dests, nodes, k)[dests[j]] == nodes[j]
    ensures forall p | p in base :: p in Publish(base, dests, nodes, k) && Publish(base, dests, nodes, k)[p] == base[p]
  {
    forall i, j | 0 <= i < j < k ensures dests[i] != dests[j] { PublishGrows(base, dests, nodes, i, j); }
    forall j | 0 <= j < k ensures dests[j] !in base { PublishGrows(base, dests, nodes, 0, j); }
    forall j | 0 <= j < k
      ensures dests[j] in Publish(base, dests, nodes, k) && Publish(base, dests, nodes, k)[dests[j]] == nodes[j]
    {
      assert Final(dests, j, k);
      PublishedLast(base, dests, nodes, k, j);
    }
    forall p | p in base
      ensures p in Publish(base, dests, nodes, k) && Publish(base, dests, nodes, k)[p] == base[p]
    {
      PublishedElsewhere(base, dests, nodes, k, p);
    }
  }

  /** The directories once the first k files of a list are in place. */
  ghost function DirsAfter(dirs: set<string>, dests: seq<string>, k: nat): set<string>
    requires k <= |dests|
  {
    if k == 0 then dirs else DirsAfter(dirs, dests, k - 1) + Parents(dests[k - 1])
  }

  /** File j could be put in place when its turn came: no file was where it needed
      a directory, and no directory where it was to go itself. */
  ghost predicate HadRoom(base: map<string, Node>, dirs: set<string>, dests: seq<string>, nodes: seq<Node>, j: nat)
    requires j < |dests| && j <= |nodes|
  {
    && Parents(dests[j]) !! Publish(base, dests, nodes, j).Keys
    && dests[j] !in DirsAfter(dirs, dests, j + 1) && !Standing(dests[j])
  }

  ghost predicate AllRoom(base: map<string, Node>, dirs: set<string>, dests: seq<string>, nodes: seq<Node>, k: nat)
    requires k <= |dests| && k <= |nodes|
  {
    forall j | 0 <= j < k :: HadRoom(base, dirs, dests, nodes, j)
  }

  /** Known beforehand: no destination is above one, no file is, and none is a
      directory already. */
  ghost predicate Apart(base: map<string, Node>, dirs: set<string>, dests: seq<string>) {
    && (forall i, j | 0 <= i < |dests| && 0 <= j < |dests| :: dests[i] !in Parents(dests[j]))
    && (forall j | 0 <= j < |dests| ::
          Parents(dests[j]) !! base.Keys && dests[j] !in dirs && !Standing(dests[j]))
  }

  lemma {:induction false} PublishedKeys(base: map<string, Node>, dests: seq<string>, nodes: seq<Node>, k: nat, p: string)
    requires k <= |dests| && k <= |nodes|
    ensures p in Publish(base, dests, nodes, k) <==> p in base || exists i :: 0 <= i < k && dests[i] == p
    decreases k
  {
    if k > 0 { PublishedKeys(base, dests, nodes, k - 1, p); }
  }

  lemma {:induction false} DirsAdded(dirs: set<string>, dests: seq<string>, k: nat, p: string)
    requires k <= |dests|
    ensures p in DirsAfter(dirs, dests, k) <==> p in dirs || exists i :: 0 <= i < k && p in Parents(dests[i])
    decreases k
  {
    hide Parents;
    if k > 0 { DirsAdded(dirs, dests, k - 1, p); }
  }

  /** Every file finds room in its turn exactly when the destinations are apart. */
  lemma RoomExactlyWhenApart(base: map<string, Node>, dirs: set<string>, dests: seq<string>, nodes: seq<Node>)
    requires |dests| == |nodes|
    ensures AllRoom(base, dirs, dests, nodes, |dests|) <==> Apart(base, dirs, dests)
  {
    hide Parents, Standing, Publish, DirsAfter;
    if Apart(base, dirs, dests) {
      forall j | 0 <= j < |dests| ensures HadRoom(base, dirs, dests, nodes, j) {
        DirsAdded(dirs, dests, j + 1, dests[j]);
        forall p | p in Parents(dests[j]) ensures p !in Publish(base, dests, nodes, j) {
          PublishedKeys(base, dests, nodes, j, p);
        }
      }
    }
    if AllRoom(base, dirs, dests, nodes, |dests|) {
      forall i, j | 0 <= i < |dests| && 0 <= j < |dests| ensures dests[i] !in Parents(dests[j]) {
        assert HadRoom(base, dirs, dests, nodes, i) && HadRoom(base, dirs, dests, nodes, j);
        DirsAdded(dirs, dests, i + 1, dests[i]);
        PublishedKeys(base, dests, nodes, j, dests[i]);
      }
      forall j | 0 <= j < |dests|
        ensures Parents(dests[j]) !! base.Keys && dests[j] !in dirs && !Standing(dests[j])
      {
        assert HadRoom(base, dirs, dests, nodes, j);
        DirsAdded(dirs, dests, j + 1, dests[j]);
        forall p | p in Parents(dests[j]) ensures p !in base { PublishedKeys(base, dests, nodes, j, p); }
      }
    }
  }

  /** Every destination holds the last file written to it; every other path is
      as before. */
  ghost predicate LastWins(base: map<string, Node>, now: map<string, Node>, dests: seq<string>, nodes: seq<Node>)
    requires |dests| == |nodes|
  {
    && (forall j | 0 <= j < |dests| && Final(dests, j, |dests|) :: dests[j] in now && now[dests[j]] == nodes[j])
    && (forall p | p !in dests :: (p in now <==> p in base) && (p in base ==> now[p] == base[p]))
  }

  /** All destinations are different, were free before and hold their own file;
      every earlier file is intact. */
  ghost predicate EachFresh(base: map<string, Node>, now: map<string, Node>, dests: seq<string>, nodes: seq<Node>)
    requires |dests| == |nodes|
  {
    && (forall i, j | 0 <= i < j < |dests| :: dests[i] != dests[j])
    && (forall j | 0 <= j < |dests| :: dests[j] !in base && dests[j] in now && now[dests[j]] == nodes[j])
    && (forall p | p in base :: p in now && now[p] == base[p])
  }

  lemma AllPublished(base: map<string, Node>, dests: seq<string>, nodes: seq<Node>)
    requires |dests| == |nodes|
    ensures LastWins(base, Publish(base, dests, nodes, |dests|), dests, nodes)
  {
    hide Publish;
    assert dests[..|dests|] == dests;
    var now := Publish(base, dests, nodes, |dests|);
    forall j | 0 <= j < |dests| && Final(dests, j, |dests|) ensures dests[j] in now && now[dests[j]] == nodes[j] {
      PublishedLast(base, dests, nodes, |dests|, j);
    }
    forall p | p !in dests ensures (p in now <==> p in base) && (p in base ==> now[p] == base[p]) {
      PublishedElsewhere(base, dests, nodes, |dests|, p);
    }
  }

  lemma AllPublishedFresh(base: map<string, Node>, dests: seq<string>, nodes: seq<Node>)
    requires |dests| == |nodes| && NoOverwrite(base, dests, nodes, |dests|)
    ensures EachFresh(base, Publish(base, dests, nodes, |dests|), dests, nodes)
  {
    hide Publish, NoOverwrite;
    PublishedFresh(base, dests, nodes, |dests|);
  }
}
