/** Sender and receiver as two programs on a pair of FIFO channels, in every
    interleaving and with every way of stopping early. */
module Protocol {
  import opened Bytes
  import opened Manifest
  import opened Files
  import opened Session
  import opened Paths
  import opened Receiver
  import opened Sender

  /** One exchange: the offer and its encoding, the receiver's options, what
      each side sends before there is a key, the keys they derive, what the receiver
      says to an offer, and the files and directories it starts from. The receiver's
      key depends on the salt it is sent. */
  datatype Setup = Setup(
    files: seq<FileInfo>,
    encode: seq<FileInfo> -> bytes,
    decode: bytes -> Option<seq<FileInfo>>,
    opts: Options,
    shareS: bytes, shareR: bytes, salt: bytes,
    keyS: Key, keyR: bytes -> Key,
    confirm: seq<FileInfo> -> bool,
    base: map<string, Node>, dirs: set<string>)

  /** An offer of something, in an encoding that can be undone. */
  ghost predicate Proper(c: Setup) {
    c.files != [] && c.decode(c.encode(c.files)) == Some(c.files)
  }

  datatype SPc =
    | SShareOut | SShareIn | SSaltOut | SConfirmOut | SConfirmIn | SOfferOut | SAnswerIn
    | SFile(i: nat) | SFinalIn | SDone(ok: bool)

  datatype RPc =
    | RShareOut | RShareIn | RSaltIn | RConfirmOut | RConfirmIn | ROfferIn | RAnswerOut
    | RNext(i: nat) | RFile(i: nat, tmp: string, got: bytes) | RFailOut | RFinalOut | RDone(ok: bool)

  /** Channels are kept as everything ever sent and how much has been taken.
      `frames` is the plaintext of the file stream so far, `loaded` what the sender
      has read of each file, `contents` what the receiver has published. */
  datatype State = State(
    s: SPc, r: RPc,
    sent: seq<Packet>, taken: nat,
    rsent: seq<Packet>, rtaken: nat,
    rkey: Key, rfiles: seq<FileInfo>,
    frames: seq<bytes>, loaded: seq<bytes>,
    fs: map<string, Node>, dirs: set<string>, contents: seq<bytes>)

  datatype Step =
    | SSend
    | SReceive
    | SChunk(chunk: bytes)
    | SEof
    | SQuit
    | RSend(leaves: bool, text: bytes)
    | RDecline
    | RReceive
    | RStart(dest: string, tmp: string)
    | RRefuse(made: set<string>)
    | RFrame(works: bool)
    | RQuit

  function Start(c: Setup): State {
    State(SShareOut, RShareOut, [], 0, [], 0, [], [], [], [], c.base, c.dirs, [])
  }

  ghost predicate SReceiving(s: State) {
    s.s in {SShareIn, SConfirmIn, SAnswerIn, SFinalIn}
  }

  ghost predicate RReceiving(s: State) {
    s.r in {RShareIn, RSaltIn, RConfirmIn, ROfferIn} || s.r.RFile?
  }

  /** What the sender sends next. */
  function SPacket(c: Setup, pc: SPc): Packet {
    match pc
    case SShareOut => Plain(c.shareS)
    case SSaltOut => Plain(c.salt)
    case SConfirmOut => Sealed(c.keyS, SENDER_READY)
    case _ => Sealed(c.keyS, c.encode(c.files))
  }

  /** What the receiver sends next, the text being that of an error. */
  function RPacket(c: Setup, s: State, text: bytes): Packet {
    match s.r
    case RShareOut => Plain(c.shareR)
    case RConfirmOut => Sealed(s.rkey, RECEIVER_READY)
    case RFailOut => Sealed(s.rkey, text)
    case _ => Sealed(s.rkey, ACCEPT)
  }

  /** The directories that the file whose turn it is needs. */
  function Needed(c: Setup, s: State): set<string> {
    if s.r.RNext? && s.r.i < |s.rfiles| then Parents(Dests(c.opts.outDir, s.rfiles)[s.r.i]) else {}
  }

  /** A directory is where the file is to go. */
  predicate Blocked(s: State, dest: string) {
    dest in s.dirs || Standing(dest)
  }

  /** Packets too long for a message cannot be sent. A file can be begun when no
      file is where it needs a directory, and, unless files may be overwritten,
      nothing is at its destination. */
  ghost predicate Enabled(c: Setup, s: State, a: Step) {
    match a
    case SSend => s.s in {SShareOut, SSaltOut, SConfirmOut, SOfferOut} && Fits(SPacket(c, s.s))
    case SReceive => SReceiving(s) && s.rtaken < |s.rsent|
    case SChunk(chunk) => s.s.SFile? && s.loaded != [] && 0 < |chunk| <= CHUNK_SIZE
    case SEof => s.s.SFile?
    case SQuit => !s.s.SDone?
    case RSend(_, text) =>
      && (s.r in {RShareOut, RConfirmOut, RAnswerOut, RFinalOut} || (s.r.RFailOut? && text != ACCEPT))
      && (s.r.RAnswerOut? ==> c.confirm(s.rfiles))
      && Fits(RPacket(c, s, text))
    case RDecline => s.r.RAnswerOut? && !c.confirm(s.rfiles)
    case RReceive => RReceiving(s) && !s.r.RFile? && s.taken < |s.sent|
    case RStart(dest, tmp) =>
      && s.r.RNext? && s.r.i < |s.rfiles|
      && SafeJoin(c.opts.outDir, s.rfiles[s.r.i].path) == Some(dest)
      && (!c.opts.force ==> dest !in s.fs && !Blocked(s, dest))
      && Parents(dest) !! s.fs.Keys
      && tmp !in s.fs && tmp !in s.dirs + Parents(dest) && tmp != dest
    case RRefuse(made) => s.r.RNext? && made <= Needed(c, s)
    case RFrame(_) => s.r.RFile? && s.r.i < |s.rfiles| && s.taken < |s.sent|
    case RQuit => !s.r.RDone?
  }

  // ---------------------------------------------------------- sender's steps

  function SPut(s: State, p: Packet, pc: SPc): State {
    s.(sent := s.sent + [p], s := pc)
  }

  ghost function ApplyS(c: Setup, s: State, a: Step): State
    requires Enabled(c, s, a)
  {
    match a
    case SSend =>
      SPut(s, SPacket(c, s.s),
        match s.s
        case SShareOut => SShareIn
        case SSaltOut => SConfirmOut
        case SConfirmOut => SConfirmIn
        case _ => SAnswerIn)
    case SReceive =>
      var text := Open(c.keyS, s.rsent[s.rtaken]);
      var t := s.(rtaken := s.rtaken + 1);
      (match s.s
       case SShareIn => t.(s := SSaltOut)
       case SConfirmIn => t.(s := if text == Some(RECEIVER_READY) then SOfferOut else SDone(false))
       case SAnswerIn =>
         if text != Some(ACCEPT) then t.(s := SDone(false)) else t.(s := SFile(0), loaded := [[]])
       case _ => t.(s := SDone(text == Some(ACCEPT))))
    case SChunk(chunk) =>
      var last := |s.loaded| - 1;
      SPut(s, Sealed(c.keyS, DataFrame(chunk)), s.s).(
        frames := s.frames + [DataFrame(chunk)],
        loaded := s.loaded[last := s.loaded[last] + chunk])
    case SEof =>
      var more := s.s.i + 1 < |c.files|;
      SPut(s, Sealed(c.keyS, [FRAME_END]), if more then SFile(s.s.i + 1) else SFinalIn).(
        frames := s.frames + [[FRAME_END]],
        loaded := if more then s.loaded + [[]] else s.loaded)
    case _ => s.(s := SDone(false))
  }

  // -------------------------------------------------------- receiver's steps

  /** Stopping: the connection closes and a temporary file is removed. */
  function RStop(s: State, pc: RPc): State {
    if s.r.RFile? then s.(r := pc, fs := s.fs - {s.r.tmp}) else s.(r := pc)
  }

  /** A packet that leaves, or is lost as the send fails; a failed send ends the
      program, and so does a send that fails after the packet has left. */
  function RPut(s: State, p: Packet, leaves: bool, pc: RPc): State {
    if leaves then s.(rsent := s.rsent + [p], r := pc) else s.(r := RDone(false))
  }

  /** The offer, if it opened and decoded; an empty one is refused. */
  function OnOffer(s: State, offer: Option<seq<FileInfo>>): State {
    if offer.None? || offer.value == [] then s.(r := RDone(false))
    else s.(rfiles := offer.value, r := RAnswerOut)
  }

  ghost function ApplyFrame(c: Setup, s: State, works: bool): State
    requires Enabled(c, s, RFrame(works))
  {
    var i, got, info := s.r.i, s.r.got, s.rfiles[s.r.i];
    var frame := Open(s.rkey, s.sent[s.taken]);
    var t := s.(taken := s.taken + 1);
    if frame.None? || !works then RStop(t, RFailOut)
    else match OnFrame(got, frame.value, info.size)
         case Broken => RStop(t, RFailOut)
         case More(more) => t.(r := RFile(i, s.r.tmp, more), fs := s.fs[s.r.tmp := File(more, 0x180)])
         case End =>
           var dest := Dests(c.opts.outDir, s.rfiles)[i];
           if !Matches(got, info, c.opts.sha) || Blocked(s, dest) then RStop(t, RFailOut)
           else
             t.(r := if i + 1 < |s.rfiles| then RNext(i + 1) else RFinalOut,
                fs := (s.fs - {s.r.tmp})[dest := File(got, Perm(info.mode))],
                contents := s.contents + [got])
  }

  ghost function ApplyR(c: Setup, s: State, a: Step): State
    requires Enabled(c, s, a)
  {
    match a
    case RSend(leaves, text) =>
      RPut(s, RPacket(c, s, text), leaves,
        match s.r
        case RShareOut => RShareIn
        case RConfirmOut => RConfirmIn
        case RAnswerOut => RNext(0)
        case RFinalOut => RDone(true)
        case _ => RDone(false))
    case RDecline => RPut(s, Sealed(s.rkey, REJECT), true, RDone(false))
    case RReceive =>
      var p := s.sent[s.taken];
      var text := Open(s.rkey, p);
      var t := s.(taken := s.taken + 1);
      if s.r == RShareIn then t.(r := RSaltIn)
      else if s.r == RSaltIn then
        if p.Plain? then t.(rkey := c.keyR(p.data), r := RConfirmOut) else t.(r := RDone(false))
      else if s.r == RConfirmIn then t.(r := if text == Some(SENDER_READY) then ROfferIn else RDone(false))
      else OnOffer(t, if text.Some? then c.decode(text.value) else None)
    case RStart(dest, tmp) =>
      s.(r := RFile(s.r.i, tmp, []), fs := s.fs[tmp := File([], 0x180)], dirs := s.dirs + Parents(dest))
    case RRefuse(made) => s.(r := RFailOut, dirs := s.dirs + made)
    case RFrame(works) => ApplyFrame(c, s, works)
    case _ => RStop(s, RDone(false))
  }

  ghost predicate BySender(a: Step) {
    a.SSend? || a.SReceive? || a.SChunk? || a.SEof? || a.SQuit?
  }

  ghost function Apply(c: Setup, s: State, a: Step): State
    requires Enabled(c, s, a)
  {
    if BySender(a) then ApplyS(c, s, a) else ApplyR(c, s, a)
  }

  ghost predicate Runs(c: Setup, s: State, steps: seq<Step>, t: State)
    decreases |steps|
  {
    if steps == [] then s == t
    else Enabled(c, s, steps[0]) && Runs(c, Apply(c, s, steps[0]), steps[1..], t)
  }

  ghost predicate Reachable(c: Setup, t: State) {
    exists steps :: Runs(c, Start(c), steps, t)
  }

  // ----------------------------------------------------- the stream's meaning

  /** The complete files in a stream of frames, and the part of the next one. */
  ghost function Replay(frames: seq<bytes>): (seq<bytes>, bytes) {
    if frames == [] then ([], [])
    else
      var (done, part) := Replay(frames[..|frames| - 1]);
      var frame := frames[|frames| - 1];
      if frame == [FRAME_END] then (done + [part], []) else if frame == [] then (done, part) else (done, part + frame[1..])
  }

  lemma ReplaySnoc(frames: seq<bytes>, frame: bytes)
    ensures var (done, part) := Replay(frames);
            Replay(frames + [frame]) == if frame == [FRAME_END] then (done + [part], [])
              else if frame == [] then (done, part) else (done, part + frame[1..])
  {
    assert (frames + [frame])[..|frames|] == frames;
  }

  lemma {:induction false} ReplayGrows(frames: seq<bytes>, t: nat)
    requires t <= |frames|
    ensures Replay(frames[..t]).0 <= Replay(frames).0
    decreases |frames|
  {
    if t == |frames| {
      assert frames[..t] == frames;
    } else {
      var shorter := frames[..|frames| - 1];
      assert shorter[..t] == frames[..t];
      ReplayGrows(shorter, t);
    }
  }

  // -------------------------------------------------------------- invariants

  function Prologue(c: Setup): seq<Packet> {
    [Plain(c.shareS), Plain(c.salt), Sealed(c.keyS, SENDER_READY), Sealed(c.keyS, c.encode(c.files))]
  }

  /** What the sender has put on its channel: the prologue up to some point, or
      all of it and then the file stream. */
  ghost predicate SentInv(c: Setup, s: State) {
    && s.rtaken <= |s.rsent|
    && (if |s.sent| < 4 then s.sent == Prologue(c)[..|s.sent|] && s.frames == []
        else s.sent == Prologue(c) + SealAll(c.keyS, s.frames))
    && (match s.s
        case SShareOut => |s.sent| == 0 && s.rtaken == 0
        case SShareIn => |s.sent| == 1 && s.rtaken == 0
        case SSaltOut => |s.sent| == 1 && s.rtaken == 1
        case SConfirmOut => |s.sent| == 2 && s.rtaken == 1
        case SConfirmIn => |s.sent| == 3 && s.rtaken == 1
        case SOfferOut => |s.sent| == 3 && s.rtaken == 2
        case SAnswerIn => |s.sent| == 4 && s.rtaken == 2
        case SFile(i) => |s.sent| >= 4 && s.rtaken == 3 && i < |c.files|
        case SFinalIn => |s.sent| >= 4 && s.rtaken == 3
        case SDone(ok) => ok ==> |s.sent| >= 4 && s.rtaken == 4 && s.rsent[3] == Sealed(c.keyS, ACCEPT))
  }

  /** Frames are well-formed and say what the sender has read. */
  ghost predicate ReadInv(c: Setup, s: State) {
    && (forall i | 0 <= i < |s.frames| :: s.frames[i] == [FRAME_END] || (|s.frames[i]| > 1 && s.frames[i][0] == FRAME_DATA))
    && var (done, part) := Replay(s.frames);
    && (match s.s
        case SFile(i) => |done| == i < |c.files| && s.loaded == done + [part]
        case SFinalIn => |done| == |c.files| && s.loaded == done && part == []
        case SDone(ok) => ok ==> |done| == |c.files| && s.loaded == done
        case _ => s.frames == [] && s.loaded == [])
  }

  /** What the receiver has put on its channel. A final "accept" vouches for every
      file of the offer. */
  ghost predicate ReplyInv(c: Setup, s: State) {
    && |s.rsent| <= 4
    && (|s.rsent| >= 2 ==> s.rsent[1] == Sealed(s.rkey, RECEIVER_READY) && s.taken >= 2)
    && (|s.rsent| >= 3 ==> s.rsent[2] == Sealed(s.rkey, ACCEPT) || s.rsent[2] == Sealed(s.rkey, REJECT))
    && (|s.rsent| == 4 ==> s.rsent[3].Sealed? && (s.rsent[3].text == ACCEPT ==> s.rfiles == c.files && |s.contents| == |c.files|))
    && (|s.rsent| == 4 ==> s.r.RDone?)
    && (match s.r
        case RShareOut => |s.rsent| == 0
        case RShareIn => |s.rsent| == 1
        case RSaltIn => |s.rsent| == 1
        case RConfirmOut => |s.rsent| == 1
        case RConfirmIn => |s.rsent| == 2
        case ROfferIn => |s.rsent| == 2
        case RAnswerOut => |s.rsent| == 2
        case RDone(ok) => ok ==> |s.rsent| == 4 && s.rsent[3] == Sealed(s.rkey, ACCEPT)
        case _ => |s.rsent| == 3)
  }

  /** How much the receiver has taken, and what it knows by then. */
  ghost predicate TakeInv(c: Setup, s: State) {
    && s.taken <= |s.sent|
    && (s.taken >= 2 ==> s.rkey == c.keyR(c.salt))
    && (match s.r
        case RShareOut => s.taken == 0
        case RShareIn => s.taken == 0
        case RSaltIn => s.taken == 1
        case RConfirmOut => s.taken == 2
        case RConfirmIn => s.taken == 2
        case ROfferIn => s.taken == 3 && s.rkey == c.keyS
        case RAnswerOut => s.taken == 4 && s.rkey == c.keyS && s.rfiles == c.files
        case RDone(_) => true
        case _ => s.taken >= 4 && s.rkey == c.keyS && s.rfiles == c.files)
    && (s.contents != [] ==> c.keyR(c.salt) == c.keyS)
  }

  /** Where file i of the offer goes. */
  ghost predicate Bound(c: Setup, i: nat, dest: string)
    requires i < |c.files|
  {
    SafeJoin(c.opts.outDir, c.files[i].path) == Some(dest)
  }

  /** The file being received is the one the sender's stream is at, the part
      received is that part, and no file but the temporary one is in progress. */
  ghost predicate Receiving(c: Setup, s: State, i: nat, got: bytes) {
    && 4 <= s.taken <= 4 + |s.frames|
    && i == |s.contents| < |c.files|
    && Replay(s.frames[..s.taken - 4]) == (s.contents, got)
  }

  ghost predicate FileInv(c: Setup, s: State) {
    && |s.contents| <= |c.files|
    && s.contents <= Replay(s.frames).0
    && (forall j | 0 <= j < |s.contents| :: Matches(s.contents[j], c.files[j], c.opts.sha))
    && match s.r
       case RNext(i) => Receiving(c, s, i, []) && Stored(c.base, s.fs, c.files, c.opts, s.contents)
       case RFile(i, tmp, got) =>
         && Receiving(c, s, i, got)
         && Stored(c.base, s.fs - {tmp}, c.files, c.opts, s.contents)
         && var dest := Dests(c.opts.outDir, c.files)[i];
         && Bound(c, i, dest) && tmp != dest
         && (!c.opts.force ==> dest !in s.fs)
       case RFailOut => Stored(c.base, s.fs, c.files, c.opts, s.contents)
       case RFinalOut => |s.contents| == |c.files| && Stored(c.base, s.fs, c.files, c.opts, s.contents)
       case RDone(_) => Stored(c.base, s.fs, c.files, c.opts, s.contents)
       case _ => s.contents == [] && s.fs == c.base
  }

  /** The offer leaves only after the receiver proved it holds the same key. */
  ghost predicate GateInv(c: Setup, s: State) {
    s.s.SOfferOut? || |s.sent| >= 4 ==> |s.rsent| >= 2 && s.rkey == c.keyS
  }

  /** The directories while file i is being received: those above it exist, and no
      file is in the place of one. */
  ghost predicate Making(c: Setup, others: map<string, Node>, dirs: set<string>, i: nat, contents: seq<bytes>)
    requires i < |c.files|
  {
    var ds := Dests(c.opts.outDir, c.files);
    && Settled(c.base, c.dirs, DirsAfter(c.dirs, ds, i), c.files, c.opts, contents)
    && dirs == DirsAfter(c.dirs, ds, i) + Parents(ds[i])
    && Parents(ds[i]) !! others.Keys
  }

  /** Directories exist above the files published and the one in hand, and no
      others were made; they are made only for an offer that was confirmed. */
  ghost predicate DirsInv(c: Setup, s: State) {
    && (s.dirs != c.dirs || s.contents != [] ==> c.keyR(c.salt) == c.keyS && c.confirm(c.files))
    && match s.r
       case RNext(i) => i == |s.contents| && c.confirm(c.files) && Settled(c.base, c.dirs, s.dirs, c.files, c.opts, s.contents)
       case RFile(i, tmp, _) => i == |s.contents| < |c.files| && c.confirm(c.files) && Making(c, s.fs - {tmp}, s.dirs, i, s.contents)
       case RFinalOut => |s.contents| == |c.files| && Settled(c.base, c.dirs, s.dirs, c.files, c.opts, s.contents)
       case RFailOut => Placed(c.base, c.dirs, s.dirs, c.files, c.opts, s.contents)
       case RDone(_) => Placed(c.base, c.dirs, s.dirs, c.files, c.opts, s.contents)
       case _ => s.contents == [] && s.dirs == c.dirs
  }

  /** Everything sent fits a message. */
  ghost predicate FitInv(c: Setup, s: State) {
    && (forall k | 0 <= k < |s.sent| :: Fits(s.sent[k]))
    && (forall k | 0 <= k < |s.rsent| :: Fits(s.rsent[k]))
    && (|s.rsent| >= 1 ==> s.rsent[0] == Plain(c.shareR))
  }

  ghost predicate Inv(c: Setup, s: State) {
    SentInv(c, s) && ReadInv(c, s) && ReplyInv(c, s) && TakeInv(c, s) && FileInv(c, s) && GateInv(c, s)
  }

  lemma InvStarts(c: Setup)
    ensures Inv(c, Start(c)) && DirsInv(c, Start(c)) && FitInv(c, Start(c))
  {
    NoSealed(c.keyS);
    ReplayNone();
  }

  // ------------------------------------------------------------ preservation

  lemma FitKept(c: Setup, s: State, a: Step)
    requires Proper(c) && Inv(c, s) && FitInv(c, s) && Enabled(c, s, a)
    ensures FitInv(c, Apply(c, s, a))
  {
    hide Inv, FitInv, Apply, Enabled;
    if BySender(a) { SenderFits(c, s, a); } else { ReceiverFits(c, s, a); }
  }

  lemma SenderFits(c: Setup, s: State, a: Step)
    requires FitInv(c, s) && Enabled(c, s, a) && BySender(a)
    ensures FitInv(c, Apply(c, s, a))
  {
    hide Fits, SPacket;
    if a.SChunk? { FrameFits(c.keyS, a.chunk); }
    assert a.SEof? ==> Fits(Sealed(c.keyS, [FRAME_END])) by { EndFits(c.keyS); }
  }

  lemma EndFits(key: Key)
    ensures Fits(Sealed(key, [FRAME_END])) && Fits(Sealed(key, REJECT))
  {}

  lemma ReceiverFits(c: Setup, s: State, a: Step)
    requires Inv(c, s) && FitInv(c, s) && Enabled(c, s, a) && !BySender(a)
    ensures FitInv(c, Apply(c, s, a))
  {
    hide SentInv, ReadInv, TakeInv, FileInv, GateInv, ReplyInv, ApplyFrame, Fits, Needed, Blocked, SafeJoin, Parents;
    ReceiverAppends(c, s, a);
    EndFits(s.rkey);
    if a.RFrame? {
      FrameFacts(c, s, a.works);
    } else if a.RSend? && s.r.RShareOut? {
      NothingReplied(c, s);
    } else if a.RSend? || a.RDecline? {
      SomethingReplied(c, s);
    }
  }

  lemma NothingReplied(c: Setup, s: State)
    requires ReplyInv(c, s) && s.r.RShareOut?
    ensures s.rsent == []
  {}

  lemma SomethingReplied(c: Setup, s: State)
    requires ReplyInv(c, s) && !s.r.RShareOut? && !s.r.RDone?
    ensures s.rsent != []
  {}

  lemma DirsKept(c: Setup, s: State, a: Step)
    requires Proper(c) && Inv(c, s) && DirsInv(c, s) && Enabled(c, s, a)
    ensures DirsInv(c, Apply(c, s, a))
  {
    hide SentInv, ReadInv, ReplyInv, GateInv, FileInv, TakeInv, Replay, ApplyFrame, Settled, Placed, Making;
    if BySender(a) {
      SenderAppends(c, s, a);
    } else if a.RStart? {
      StartMakes(c, s, a.dest, a.tmp);
    } else if a.RRefuse? {
      RefusePlaces(c, s, a.made);
    } else if a.RFrame? {
      FrameKeepsDirs(c, s, a.works);
    } else if a.RSend? {
      SendKeepsDirs(c, s, a);
    } else {
      QuitPlaces(c, s);
    }
  }

  /** Wherever the receiver stops, what directories there are is accounted for. */
  lemma QuitPlaces(c: Setup, s: State)
    requires DirsInv(c, s) && FileInv(c, s)
    ensures Placed(c.base, c.dirs, s.dirs, c.files, c.opts, s.contents)
  {
    hide Settled, Placed, AllRoom, Dests, Nodes, Parents, FileInv, DirsAfter;
    SettledStart(c.base, c.dirs, c.files, c.opts);
    assert |s.contents| <= |c.files| by { FinishedFiles(c, s); }
    if s.r.RFile? {
      SettledPart(c.base, c.dirs, DirsAfter(c.dirs, Dests(c.opts.outDir, c.files), s.r.i), s.dirs, c.files, c.opts, s.contents);
    } else if !s.r.RFailOut? && !s.r.RDone? {
      SettledPart(c.base, c.dirs, s.dirs, s.dirs, c.files, c.opts, s.contents);
    }
  }

  lemma SealedAt(c: Setup, s: State, k: nat)
    requires SentInv(c, s) && k < |s.sent|
    ensures k < 4 ==> s.sent[k] == Prologue(c)[k]
    ensures k >= 4 ==> k - 4 < |s.frames| && s.sent[k] == Sealed(c.keyS, s.frames[k - 4])
  {}

  lemma ReplayNone()
    ensures Replay([]) == ([], [])
  {}

  lemma SenderKeepsSent(c: Setup, s: State, a: Step)
    requires Proper(c) && Inv(c, s) && Enabled(c, s, a) && BySender(a)
    ensures SentInv(c, Apply(c, s, a))
  {
    hide ReadInv, FileInv, TakeInv, ReplyInv, GateInv, Replay, SealAll;
    if a.SChunk? { SealSnoc(c.keyS, s.frames, DataFrame(a.chunk)); }
    if a.SEof? { SealSnoc(c.keyS, s.frames, [FRAME_END]); }
    if a.SSend? {
      NoSealed(c.keyS);
      assert s.sent + [Prologue(c)[|s.sent|]] == Prologue(c)[..|s.sent| + 1];
    }
  }

  lemma NoSealed(key: Key)
    ensures SealAll(key, []) == []
  {}

  lemma SenderKeepsRead(c: Setup, s: State, a: Step)
    requires Proper(c) && Inv(c, s) && Enabled(c, s, a) && BySender(a)
    ensures ReadInv(c, Apply(c, s, a))
  {
    hide SentInv, FileInv, TakeInv, ReplyInv, Replay;
    ReplayNone();
    if a.SChunk? {
      ReplaySnoc(s.frames, DataFrame(a.chunk));
      assert DataFrame(a.chunk)[1..] == a.chunk;
    }
    if a.SEof? { ReplaySnoc(s.frames, [FRAME_END]); }
  }

  /** The sender only appends to its channel. */
  lemma SenderAppends(c: Setup, s: State, a: Step)
    requires Enabled(c, s, a) && BySender(a)
    ensures var t := Apply(c, s, a);
            && t.r == s.r && t.taken == s.taken && t.rsent == s.rsent && t.rkey == s.rkey && t.rfiles == s.rfiles
            && t.fs == s.fs && t.dirs == s.dirs && t.contents == s.contents
            && s.sent <= t.sent && s.frames <= t.frames
  {}

  lemma SenderKeepsRest(c: Setup, s: State, a: Step)
    requires Proper(c) && Inv(c, s) && Enabled(c, s, a) && BySender(a)
    ensures ReplyInv(c, Apply(c, s, a)) && TakeInv(c, Apply(c, s, a)) && FileInv(c, Apply(c, s, a))
  {
    hide Apply, ReadInv, SentInv, Replay, Stored, Matches;
    SenderAppends(c, s, a);
    var t := Apply(c, s, a);
    assert t.frames[..|s.frames|] == s.frames;
    ReplayGrows(t.frames, |s.frames|);
    if 4 <= s.taken <= 4 + |s.frames| {
      assert t.frames[..s.taken - 4] == s.frames[..s.taken - 4];
    }
  }

  lemma ReceiverKeepsSent(c: Setup, s: State, a: Step)
    requires Proper(c) && Inv(c, s) && Enabled(c, s, a) && !BySender(a)
    ensures SentInv(c, Apply(c, s, a)) && ReadInv(c, Apply(c, s, a))
  {
    hide FileInv, TakeInv, Replay, SealAll, Apply, Prologue;
    ReceiverAppends(c, s, a);
  }

  /** The receiver only appends to its channel. */
  lemma ReceiverAppends(c: Setup, s: State, a: Step)
    requires Enabled(c, s, a) && !BySender(a)
    ensures var t := Apply(c, s, a);
            && t.s == s.s && t.rtaken == s.rtaken && t.sent == s.sent && t.frames == s.frames && t.loaded == s.loaded
            && s.rsent <= t.rsent && s.contents <= t.contents
  {}

  /** Taking a frame touches neither the receiver's channel nor what it knows. */
  lemma FrameFacts(c: Setup, s: State, works: bool)
    requires Enabled(c, s, RFrame(works))
    ensures var t := ApplyFrame(c, s, works);
            && t.rsent == s.rsent && t.rkey == s.rkey && t.rfiles == s.rfiles && t.taken == s.taken + 1
            && (t.r.RNext? || t.r.RFile? || t.r.RFailOut? || t.r.RFinalOut?)
  {
    hide OnFrame, Matches, Perm, Dests;
  }

  lemma ReceiverKeepsReply(c: Setup, s: State, a: Step)
    requires Proper(c) && Inv(c, s) && Enabled(c, s, a) && !BySender(a)
    ensures ReplyInv(c, Apply(c, s, a))
  {
    hide Apply, Inv, ReplyInv;
    if a.RFrame? {
      FrameKeepsReply(c, s, a.works);
    } else if a.RReceive? {
      ReceiveKeepsReply(c, s);
    } else if a.RSend? {
      RepliesKept(c, s, a);
    } else {
      OthersKeepReply(c, s, a);
    }
  }

  lemma FrameKeepsReply(c: Setup, s: State, works: bool)
    requires Inv(c, s) && Enabled(c, s, RFrame(works))
    ensures ReplyInv(c, Apply(c, s, RFrame(works)))
  {
    hide SentInv, ReadInv, TakeInv, GateInv, FileInv, ApplyFrame;
    FrameFacts(c, s, works);
  }

  lemma OthersKeepReply(c: Setup, s: State, a: Step)
    requires Inv(c, s) && Enabled(c, s, a) && !BySender(a) && !a.RFrame? && !a.RReceive? && !a.RSend?
    ensures ReplyInv(c, Apply(c, s, a))
  {
    hide SentInv, ReadInv, TakeInv, GateInv, FileInv, ApplyFrame, Fits, RPacket, Needed, Blocked, SafeJoin, Parents;
  }

  lemma ReceiveKeepsReply(c: Setup, s: State)
    requires Inv(c, s) && Enabled(c, s, RReceive)
    ensures ReplyInv(c, Apply(c, s, RReceive))
  {
    hide SentInv, ReadInv, GateInv, FileInv, Open;
  }

  lemma RepliesKept(c: Setup, s: State, a: Step)
    requires Proper(c) && Inv(c, s) && Enabled(c, s, a) && a.RSend?
    ensures ReplyInv(c, Apply(c, s, a))
  {
    hide SentInv, ReadInv, Replay, Stored, Matches, Receiving, ApplyFrame;
    FinishedFiles(c, s);
    hide FileInv;
  }

  lemma FinishedFiles(c: Setup, s: State)
    requires FileInv(c, s)
    ensures |s.contents| <= |c.files| && (s.r.RFinalOut? ==> |s.contents| == |c.files|)
  {}

  lemma ReceiverKeepsTake(c: Setup, s: State, a: Step)
    requires Proper(c) && Inv(c, s) && Enabled(c, s, a) && !BySender(a)
    ensures TakeInv(c, Apply(c, s, a))
  {
    hide SentInv, ReadInv, ReplyInv, FileInv, Replay, Stored, Matches, ApplyFrame;
    if a.RFrame? {
      FrameKeepsTake(c, s, a.works);
    } else if a.RReceive? {
      TakenKept(c, s);
    } else {
      OthersKeepTake(c, s, a);
    }
  }

  lemma FrameKeepsTake(c: Setup, s: State, works: bool)
    requires Inv(c, s) && Enabled(c, s, RFrame(works))
    ensures TakeInv(c, Apply(c, s, RFrame(works)))
  {
    hide SentInv, ReadInv, ReplyInv, FileInv, ApplyFrame;
    FrameFacts(c, s, works);
    assert Apply(c, s, RFrame(works)) == ApplyFrame(c, s, works);
    assert Apply(c, s, RFrame(works)).sent == s.sent by { ReceiverAppends(c, s, RFrame(works)); }
  }

  lemma OthersKeepTake(c: Setup, s: State, a: Step)
    requires Inv(c, s) && Enabled(c, s, a) && !BySender(a) && !a.RFrame? && !a.RReceive?
    ensures TakeInv(c, Apply(c, s, a))
  {
    hide SentInv, ReadInv, ReplyInv, FileInv, GateInv, ApplyFrame, Fits, RPacket, SPacket, Needed, Blocked, SafeJoin, Parents;
  }

  lemma TakenKept(c: Setup, s: State)
    requires Proper(c) && Inv(c, s) && Enabled(c, s, RReceive)
    ensures TakeInv(c, Apply(c, s, RReceive))
  {
    hide SentInv, ReadInv, ReplyInv, FileInv, Replay, Stored, Matches, ApplyFrame;
    SealedAt(c, s, s.taken);
  }

  /** The frame the receiver takes next is the one the sender's stream has there. */
  lemma NextFrame(c: Setup, s: State)
    requires Inv(c, s) && s.r.RFile? && s.taken < |s.sent|
    ensures var t := s.taken - 4;
            && 0 <= t < |s.frames| && s.rkey == c.keyS && s.sent[s.taken] == Sealed(c.keyS, s.frames[t])
            && (s.frames[t] == [FRAME_END] || (|s.frames[t]| > 1 && s.frames[t][0] == FRAME_DATA))
            && Replay(s.frames[..t + 1])
               == (if s.frames[t] == [FRAME_END] then (s.contents + [s.r.got], []) else (s.contents, s.r.got + s.frames[t][1..]))
            && Replay(s.frames[..t + 1]).0 <= Replay(s.frames).0
  {
    hide SentInv, ReplyInv, Replay, Stored, Matches;
    SealedAt(c, s, s.taken);
    var t := s.taken - 4;
    assert s.frames[..t + 1] == s.frames[..t] + [s.frames[t]];
    ReplaySnoc(s.frames[..t], s.frames[t]);
    ReplayGrows(s.frames, t + 1);
  }

  lemma ReceiverKeepsFile(c: Setup, s: State, a: Step)
    requires Proper(c) && Inv(c, s) && Enabled(c, s, a) && !BySender(a)
    ensures FileInv(c, Apply(c, s, a))
  {
    hide SentInv, ReadInv, Replay, Stored, Matches, SafeJoin, ApplyFrame;
    StoredStart(c.base, c.files, c.opts);
    if a.RFrame? {
      FrameKeepsFile(c, s, a.works);
    } else if a.RStart? {
      hide ReplyInv;
      assert s.fs[a.tmp := File([], 0x180)] - {a.tmp} == s.fs;
    } else if a.RSend? {
      SendKeepsFile(c, s, a);
    } else {
      hide ReplyInv, TakeInv, Receiving;
    }
  }

  lemma SendKeepsFile(c: Setup, s: State, a: Step)
    requires Proper(c) && Inv(c, s) && Enabled(c, s, a) && a.RSend?
    ensures FileInv(c, Apply(c, s, a))
  {
    hide SentInv, ReadInv, ReplyInv, Replay, Stored, Matches, SafeJoin, ApplyFrame;
    StoredStart(c.base, c.files, c.opts);
    ReplayNone();
    assert s.frames[..0] == [];
  }

  lemma FrameKeepsFile(c: Setup, s: State, works: bool)
    requires Proper(c) && Inv(c, s) && Enabled(c, s, RFrame(works))
    ensures FileInv(c, Apply(c, s, RFrame(works)))
  {
    hide SentInv, ReadInv, ReplyInv, Replay, Stored, Matches, SafeJoin;
    NextFrame(c, s);
    var i, tmp, got, t := s.r.i, s.r.tmp, s.r.got, s.taken - 4;
    var dest := Dests(c.opts.outDir, c.files)[i];
    if s.frames[t] == [FRAME_END] {
      StoredMore(c.base, s.fs - {tmp}, c.files, c.opts, s.contents, got, dest);
    } else {
      var more := got + s.frames[t][1..];
      assert s.fs[tmp := File(more, 0x180)] - {tmp} == s.fs - {tmp};
    }
  }

  lemma StartMakes(c: Setup, s: State, dest: string, tmp: string)
    requires Proper(c) && Inv(c, s) && DirsInv(c, s) && Enabled(c, s, RStart(dest, tmp))
    ensures DirsInv(c, Apply(c, s, RStart(dest, tmp)))
  {
    hide SentInv, ReadInv, ReplyInv, GateInv, Replay, Stored, Matches, SafeJoin, Parents, DirsAfter, AllRoom;
    DestIs(c.opts.outDir, c.files, s.r.i, dest);
    assert s.fs[tmp := File([], 0x180)] - {tmp} == s.fs;
    var ds := Dests(c.opts.outDir, c.files);
    SettledIs(c.base, c.dirs, s.dirs, c.files, c.opts, s.contents);
  }

  lemma SettledIs(base: map<string, Node>, dirs: set<string>, now: set<string>, files: seq<FileInfo>, opts: Options, contents: seq<bytes>)
    requires Settled(base, dirs, now, files, opts, contents)
    ensures |contents| <= |files| && now == DirsAfter(dirs, Dests(opts.outDir, files), |contents|)
  {}

  lemma RefusePlaces(c: Setup, s: State, made: set<string>)
    requires Proper(c) && Inv(c, s) && DirsInv(c, s) && Enabled(c, s, RRefuse(made))
    ensures DirsInv(c, Apply(c, s, RRefuse(made)))
  {
    hide SentInv, ReadInv, ReplyInv, GateInv, Replay, Stored, Matches, Parents, Settled, Placed, Dests;
    SettledIs(c.base, c.dirs, s.dirs, c.files, c.opts, s.contents);
    SettledPart(c.base, c.dirs, s.dirs, s.dirs + made, c.files, c.opts, s.contents);
  }

  lemma SendKeepsDirs(c: Setup, s: State, a: Step)
    requires Proper(c) && Inv(c, s) && DirsInv(c, s) && Enabled(c, s, a) && a.RSend?
    ensures DirsInv(c, Apply(c, s, a))
  {
    hide SentInv, ReadInv, ReplyInv, GateInv, FileInv, Replay, Settled, Placed, Making;
    QuitPlaces(c, s);
    SettledStart(c.base, c.dirs, c.files, c.opts);
  }

  lemma FrameKeepsDirs(c: Setup, s: State, works: bool)
    requires Proper(c) && Inv(c, s) && DirsInv(c, s) && Enabled(c, s, RFrame(works))
    ensures DirsInv(c, Apply(c, s, RFrame(works)))
  {
    hide SentInv, ReadInv, ReplyInv, GateInv, Replay, Settled, Placed, Stored, Matches, SafeJoin, Parents, Standing, DirsAfter, Dests;
    NextFrame(c, s);
    QuitPlaces(c, s);
    var i, tmp, got, t := s.r.i, s.r.tmp, s.r.got, s.taken - 4;
    var ds := Dests(c.opts.outDir, c.files);
    var dest := ds[i];
    if s.frames[t] == [FRAME_END] {
      if !Blocked(s, dest) {
        SettledMore(c.base, c.dirs, s.fs - {tmp}, DirsAfter(c.dirs, ds, i), c.files, c.opts, s.contents, got, dest);
      }
    } else {
      var more := got + s.frames[t][1..];
      assert s.fs[tmp := File(more, 0x180)] - {tmp} == s.fs - {tmp};
    }
  }

  lemma GateKept(c: Setup, s: State, a: Step)
    requires Inv(c, s) && Enabled(c, s, a)
    ensures GateInv(c, Apply(c, s, a))
  {
    hide Apply;
    if BySender(a) {
      SenderKeepsGate(c, s, a);
    } else {
      hide SentInv, ReadInv, FileInv;
      ReceiverAppends(c, s, a);
      if a.RFrame? {
        FrameFacts(c, s, a.works);
        assert Apply(c, s, a) == ApplyFrame(c, s, a.works) by { FrameApplies(c, s, a.works); }
      } else {
        KeyStays(c, s, a);
      }
    }
  }

  lemma FrameApplies(c: Setup, s: State, works: bool)
    requires Enabled(c, s, RFrame(works))
    ensures Apply(c, s, RFrame(works)) == ApplyFrame(c, s, works)
  {}

  /** The receiver's key is set once, before it has proved anything. */
  lemma KeyStays(c: Setup, s: State, a: Step)
    requires Inv(c, s) && Enabled(c, s, a) && !BySender(a) && !a.RFrame?
    ensures |s.rsent| >= 2 ==> Apply(c, s, a).rkey == s.rkey
  {
    hide SentInv, ReadInv, TakeInv, GateInv, FileInv, ApplyFrame, Fits, Needed, Blocked, SafeJoin, Parents, RPacket;
  }

  lemma SenderKeepsGate(c: Setup, s: State, a: Step)
    requires Inv(c, s) && Enabled(c, s, a) && BySender(a)
    ensures GateInv(c, Apply(c, s, a))
  {
    hide ReadInv, FileInv, TakeInv, Replay, Fits;
  }

  lemma InvKept(c: Setup, s: State, a: Step)
    requires Proper(c) && Inv(c, s) && Enabled(c, s, a)
    ensures Inv(c, Apply(c, s, a))
  {
    hide SentInv, ReadInv, ReplyInv, TakeInv, FileInv, GateInv, Apply;
    GateKept(c, s, a);
    if BySender(a) {
      SenderKeepsSent(c, s, a);
      SenderKeepsRead(c, s, a);
      SenderKeepsRest(c, s, a);
    } else {
      ReceiverKeepsSent(c, s, a);
      ReceiverKeepsReply(c, s, a);
      ReceiverKeepsTake(c, s, a);
      ReceiverKeepsFile(c, s, a);
    }
  }

  lemma {:induction false} InvHolds(c: Setup, s: State, steps: seq<Step>, t: State)
    requires Proper(c) && Inv(c, s) && DirsInv(c, s) && FitInv(c, s) && Runs(c, s, steps, t)
    ensures Inv(c, t) && DirsInv(c, t) && FitInv(c, t)
    decreases |steps|
  {
    hide Inv, DirsInv, FitInv, Apply, Enabled;
    if steps != [] {
      InvKept(c, s, steps[0]);
      DirsKept(c, s, steps[0]);
      FitKept(c, s, steps[0]);
      InvHolds(c, Apply(c, s, steps[0]), steps[1..], t);
    }
  }

  lemma ReachableInv(c: Setup, t: State)
    requires Proper(c) && Reachable(c, t)
    ensures Inv(c, t) && DirsInv(c, t) && FitInv(c, t)
  {
    hide Inv;
    var steps :| Runs(c, Start(c), steps, t);
    InvStarts(c);
    InvHolds(c, Start(c), steps, t);
  }

  // ---------------------------------------------------------------- theorems

  /** However the two programs interleave, they are never both waiting for a
      message that has not been sent. */
  lemma NeverDeadlocked(c: Setup, t: State)
    requires Proper(c) && Reachable(c, t)
    ensures !(SReceiving(t) && t.rtaken == |t.rsent| && RReceiving(t) && t.taken == |t.sent|)
  {
    hide Stored, Matches, Replay, Reachable, GateInv, DirsInv, FitInv, SealAll, Dests;
    ReachableInv(c, t);
    if t.r.RFile? {
      hide ReplyInv;
      assert t.frames[..|t.frames|] == t.frames;
    } else {
      hide ReadInv, FileInv;
    }
  }

  /** While a file is being received, the receiver's file number and part are
      those of the sender's stream at the frames taken, and what is still in the
      channel is exactly the rest of that stream. */
  lemma Lockstep(c: Setup, t: State)
    requires Proper(c) && Reachable(c, t) && t.r.RFile?
    ensures var k := t.taken - 4;
            && 0 <= k <= |t.frames| && t.taken <= |t.sent|
            && Replay(t.frames[..k]) == (t.contents, t.r.got) && |t.contents| == t.r.i
            && t.sent[t.taken..] == SealAll(c.keyS, t.frames[k..])
            && t.rkey == c.keyS && t.rfiles == c.files
  {
    hide DirsInv, FitInv, GateInv, ReplyInv, Reachable;
    ReachableInv(c, t);
    hide Stored, Matches, Replay, SealAll;
    SealSlice(c.keyS, t.frames, t.taken - 4);
    assert t.sent[t.taken..] == SealAll(c.keyS, t.frames)[t.taken - 4..];
  }

  /** The files as anyone else sees them, the temporary file left out. */
  function Visible(t: State): map<string, Node> {
    if t.r.RFile? then t.fs - {t.r.tmp} else t.fs
  }

  /** At every moment of every run, however it stops: exactly the files before
      the current one are in place, each with content of the announced size and
      hash, and no other file has changed; directories were added above those files
      and the current one only; between files and after the end, no temporary file
      exists. */
  lemma FailureAtomicity(c: Setup, t: State)
    requires Proper(c) && Reachable(c, t)
    ensures |t.contents| <= |c.files| && (forall j | 0 <= j < |t.contents| :: Matches(t.contents[j], c.files[j], c.opts.sha))
    ensures Stored(c.base, Visible(t), c.files, c.opts, t.contents)
    ensures t.r.RFile? ==> t.r.i == |t.contents| < |c.files| && t.r.tmp != Dests(c.opts.outDir, c.files)[t.r.i]
    ensures forall p | p !in Dests(c.opts.outDir, c.files)[..|t.contents|] ::
      (p in Visible(t) <==> p in c.base) && (p in c.base ==> Visible(t)[p] == c.base[p])
    ensures Placed(c.base, c.dirs, t.dirs, c.files, c.opts, t.contents)
  {
    ReachableInv(c, t);
    QuitPlaces(c, t);
    hide DirsInv, FitInv, Placed;
    hide Matches, Replay, Dests, Nodes, SafeJoin;
    if t.contents == [] { StoredStart(c.base, c.files, c.opts); }
    assert Stored(c.base, Visible(t), c.files, c.opts, t.contents) by { hide Stored; }
    var ds, ns := Dests(c.opts.outDir, c.files), Nodes(t.contents, c.files);
    forall p | p !in ds[..|t.contents|]
      ensures (p in Visible(t) <==> p in c.base) && (p in c.base ==> Visible(t)[p] == c.base[p])
    {
      PublishedElsewhere(c.base, ds, ns, |t.contents|, p);
    }
  }

  /** The sender's success is the receiver's: every manifest entry is published
      with exactly the bytes the sender read for it, of the announced size and
      hash. Without overwriting, destinations are pairwise different, were free
      before, and no earlier file has changed; with it, a destination named more
      than once holds the last entry that names it. */
  lemma EndToEnd(c: Setup, t: State)
    requires Proper(c) && Reachable(c, t) && t.s == SDone(true)
    ensures t.contents == t.loaded && |t.loaded| == |c.files|
    ensures forall j | 0 <= j < |c.files| ::
      Matches(t.loaded[j], c.files[j], c.opts.sha) && SafeJoin(c.opts.outDir, c.files[j].path).Some?
    ensures LastWins(c.base, t.fs, Dests(c.opts.outDir, c.files), Nodes(t.loaded, c.files))
    ensures !c.opts.force ==> EachFresh(c.base, t.fs, Dests(c.opts.outDir, c.files), Nodes(t.loaded, c.files))
    ensures Settled(c.base, c.dirs, t.dirs, c.files, c.opts, t.loaded)
  {
    hide Inv, DirsInv, FitInv, Matches, Reachable, Stored, Dests, Nodes, LastWins, EachFresh, AllRoom, DirsAfter;
    ReachableInv(c, t);
    FailureAtomicity(c, t);
    AllDone(c, t);
    AllStored(c.base, t.fs, c.files, c.opts, t.contents);
  }

  lemma AllDone(c: Setup, t: State)
    requires Inv(c, t) && t.s == SDone(true)
    ensures t.contents == t.loaded && |t.contents| == |c.files| && t.r.RDone?
  {
    hide Stored, Matches, Replay, TakeInv;
    assert |t.rsent| == 4;
  }

  /** With different keys the offer is never sent, no file is touched, and
      neither side reports success. */
  lemma DifferentKeys(c: Setup, t: State)
    requires Proper(c) && Reachable(c, t) && c.keyR(c.salt) != c.keyS
    ensures t.fs == c.base && t.dirs == c.dirs && |t.sent| <= 3 && t.s != SDone(true) && t.r != RDone(true)
  {
    ReachableInv(c, t);
    hide Placed, Settled, Making, FitInv;
    hide Matches, Replay, Dests, Nodes;
    assert t.contents == [];
  }

  /** The sender succeeds only with an offer the receiver confirmed, and only when
      everything there was to send before the files fits a message. */
  lemma SuccessFits(c: Setup, t: State)
    requires Proper(c) && Reachable(c, t) && t.s == SDone(true)
    ensures c.confirm(c.files) && AllFit(c)
  {
    ReachableInv(c, t);
    AllDone(c, t);
    hide Placed, Settled, Making, FileInv, TakeInv, ReadInv;
    hide Fits, Matches, Replay;
    assert t.contents != [] && |t.rsent| == 4;
    assert t.rsent[0] == Plain(c.shareR) && Fits(t.rsent[0]);
    forall k | 0 <= k < 4 ensures t.sent[k] == Prologue(c)[k] && Fits(Prologue(c)[k]) {
      SealedAt(c, t, k);
      assert Fits(t.sent[k]);
    }
    assert Prologue(c)[0] == Plain(c.shareS) && Prologue(c)[1] == Plain(c.salt);
    assert Prologue(c)[3] == Sealed(c.keyS, c.encode(c.files));
  }

  predicate AllFit(c: Setup) {
    && Fits(Plain(c.shareS)) && Fits(Plain(c.shareR)) && Fits(Plain(c.salt))
    && Fits(Sealed(c.keyS, c.encode(c.files)))
  }
}
