/** The sending program: a manifest, then every file as data frames and an end
    frame, then the receiver's verdict. */
module Sender {
  import opened Bytes
  import opened Net
  import opened Manifest
  import opened Session
  import opened Receiver

  function SealAll(key: Key, frames: seq<bytes>): (ps: seq<Packet>)
    ensures |ps| == |frames|
  {
    seq(|frames|, i requires 0 <= i < |frames| => Sealed(key, frames[i]))
  }

  /** The frames of a file sent only in part. */
  function DataFrames(chunks: seq<bytes>): (fs: seq<bytes>)
    ensures |fs| == |chunks|
  {
    seq(|chunks|, i requires 0 <= i < |chunks| => DataFrame(chunks[i]))
  }

  lemma {:induction false} FileFramesAre(chunks: seq<bytes>)
    ensures FileFrames(chunks) == DataFrames(chunks) + [[FRAME_END]]
  {
    if chunks != [] {
      FileFramesAre(chunks[1..]);
      assert DataFrames(chunks) == [DataFrame(chunks[0])] + DataFrames(chunks[1..]);
    } else {
      assert DataFrames(chunks) == [];
    }
  }

  lemma SealSnoc(key: Key, frames: seq<bytes>, frame: bytes)
    ensures SealAll(key, frames + [frame]) == SealAll(key, frames) + [Sealed(key, frame)]
  {}

  lemma SealSlice(key: Key, frames: seq<bytes>, n: nat)
    requires n <= |frames|
    ensures SealAll(key, frames)[n..] == SealAll(key, frames[n..])
  {}

  lemma DataSnoc(chunks: seq<bytes>, chunk: bytes)
    ensures DataFrames(chunks + [chunk]) == DataFrames(chunks) + [DataFrame(chunk)]
    ensures Concat(chunks + [chunk]) == Concat(chunks) + chunk
  {
    ConcatSnoc(chunks, chunk);
  }

  /** One chunk, and its report if it was sent. */
  method SendChunk(link: Link, key: Key, chunk: bytes, at: int, total: int, meter: Meter)
    returns (told: bool, ghost left: bool)
    requires |chunk| <= CHUNK_SIZE
    modifies link`outbox, link`broken, meter
    ensures link.outbox == old(link.outbox) + if left then [Sealed(key, DataFrame(chunk))] else []
    ensures told ==> left
    ensures if told then link.broken == old(link.broken) else link.broken
    ensures meter.reports == if told then old(meter.reports) + [(at, total)] else old(meter.reports)
  {
    FrameFits(key, chunk);
    told := link.SendSealed(key, DataFrame(chunk));
    left := link.outbox != old(link.outbox);
    if told { meter.Report(at, total); }
  }

  lemma ReadOn(all: bytes, sent: nat, n: nat)
    requires sent + n <= |all|
    ensures all[..sent + n] == all[..sent] + all[sent..][..n] && all[sent..][n..] == all[sent + n..]
  {}

  /** The progress reports for some chunks: one for each, of all sent by then. */
  function Counts(chunks: seq<bytes>, at: int, total: int): (rs: seq<(int, int)>)
    ensures |rs| == |chunks|
  {
    if chunks == [] then []
    else Counts(chunks[..|chunks| - 1], at, total) + [(at + |Concat(chunks)|, total)]
  }

  lemma CountsSnoc(chunks: seq<bytes>, chunk: bytes, at: int, total: int)
    ensures Counts([], at, total) == []
    ensures Counts(chunks + [chunk], at, total) == Counts(chunks, at, total) + [(at + |Concat(chunks)| + |chunk|, total)]
  {
    ConcatSnoc(chunks, chunk);
    assert (chunks + [chunk])[..|chunks|] == chunks;
  }

  lemma {:induction false} CountsSteady(chunks: seq<bytes>, at: int, total: int)
    ensures Steady(Counts(chunks, at, total), at, at + |Concat(chunks)|, total)
  {
    if chunks != [] {
      var n := |chunks| - 1;
      CountsSteady(chunks[..n], at, total);
      assert chunks == chunks[..n] + [chunks[n]];
      ConcatSnoc(chunks[..n], chunks[n]);
    }
  }

  /** One file. What leaves are non-empty chunks of at most the chunk size, and
      an end frame only after the whole content; on success, exactly that. */
  method SendFile(link: Link, key: Key, f: Source, sentSoFar: int, total: int, meter: Meter)
    returns (sent: int, ok: bool, ghost chunks: seq<bytes>, ghost ended: bool)
    modifies link`outbox, link`broken, f`pending, meter
    ensures GoodChunks(chunks) && Concat(chunks) <= old(f.pending)
    ensures link.outbox == old(link.outbox) + SealAll(key, if ended then FileFrames(chunks) else DataFrames(chunks))
    ensures ended ==> Concat(chunks) == old(f.pending) && f.end == Eof
    ensures ok ==> ended && sent == |old(f.pending)| && link.broken == old(link.broken)
    ensures old(link.broken) ==> link.broken
    ensures !link.broken ==> Concat(chunks) == old(f.pending) && (ok <==> f.end == Eof) && (ok <==> ended)
    ensures meter.reports <= old(meter.reports) + Counts(chunks, sentSoFar, total)
    ensures !link.broken ==> meter.reports == old(meter.reports) + Counts(chunks, sentSoFar, total)
    ensures old(meter.reports) <= meter.reports
  {
    hide Steady, FileFrames, DataFrames, Concat, SealAll, GoodChunks, Splice, Counts, Fits;
    EndFits(key);
    CountsSnoc([], [], sentSoFar, total);
    var buf := new byte[CHUNK_SIZE];
    ghost var all, out := f.pending, link.outbox;
    sent, ok, chunks, ended := 0, false, [], false;
    NothingSent(key);
    while true
      invariant GoodChunks(chunks) && sent <= |all| && !ended
      invariant Concat(chunks) == all[..sent] && f.pending == all[sent..]
      invariant link.outbox == out + SealAll(key, DataFrames(chunks))
      invariant link.broken == old(link.broken)
      invariant meter.reports == old(meter.reports) + Counts(chunks, sentSoFar, total)
      decreases |all| - sent
    {
      var n, err := f.Read(buf, 0, buf.Length);
      ReadOn(all, sent, n);
      if n > 0 {
        ghost var chunk := buf[..][0..n];
        assert buf[..n] == chunk == all[sent..][..n];
        SentSnoc(key, chunks, chunk);
        CountsSnoc(chunks, chunk, sentSoFar, total);
        var told;
        ghost var left;
        told, left := SendChunk(link, key, buf[..n], sentSoFar + sent + n, total, meter);
        if left { chunks := chunks + [chunk]; }
        if !told { return; }
        sent := sent + n;
      }
      if err.Some? {
        WholeFile(key, chunks);
        if err != Some(Eof) { return; }
        ghost var before := link.outbox;
        ok := link.SendSealed(key, [FRAME_END]);
        ended := link.outbox != before;
        return;
      }
    }
  }

  lemma EndFits(key: Key)
    ensures Fits(Sealed(key, [FRAME_END]))
  {}

  lemma NothingSent(key: Key)
    ensures SealAll(key, DataFrames([])) == [] && Concat([]) == [] && GoodChunks([])
  {}

  lemma SentSnoc(key: Key, chunks: seq<bytes>, chunk: bytes)
    ensures SealAll(key, DataFrames(chunks + [chunk])) == SealAll(key, DataFrames(chunks)) + [Sealed(key, DataFrame(chunk))]
    ensures Concat(chunks + [chunk]) == Concat(chunks) + chunk
    ensures GoodChunks(chunks) && 0 < |chunk| <= CHUNK_SIZE ==> GoodChunks(chunks + [chunk])
  {
    hide Concat, SealAll;
    DataSnoc(chunks, chunk);
    SealSnoc(key, DataFrames(chunks), DataFrame(chunk));
  }

  lemma WholeFile(key: Key, chunks: seq<bytes>)
    ensures SealAll(key, FileFrames(chunks)) == SealAll(key, DataFrames(chunks)) + [Sealed(key, [FRAME_END])]
  {
    FileFramesAre(chunks);
    SealSnoc(key, DataFrames(chunks), [FRAME_END]);
  }

  // ----------------------------------------------------------- the whole send

  /** The frames of several files, one after the other. */
  function StreamFrames(files: seq<seq<bytes>>): seq<bytes> {
    if files == [] then [] else StreamFrames(files[..|files| - 1]) + FileFrames(files[|files| - 1])
  }

  function Contents(files: seq<seq<bytes>>): (cs: seq<bytes>)
    ensures |cs| == |files|
  {
    seq(|files|, i requires 0 <= i < |files| => Concat(files[i]))
  }

  lemma StreamSnoc(key: Key, files: seq<seq<bytes>>, chunks: seq<bytes>)
    ensures StreamFrames(files + [chunks]) == StreamFrames(files) + FileFrames(chunks)
    ensures SealAll(key, StreamFrames(files + [chunks])) == SealAll(key, StreamFrames(files)) + SealAll(key, FileFrames(chunks))
    ensures Contents(files + [chunks]) == Contents(files) + [Concat(chunks)]
  {
    assert (files + [chunks])[..|files|] == files;
  }

  ghost predicate AllGood(files: seq<seq<bytes>>) {
    forall i | 0 <= i < |files| :: GoodChunks(files[i])
  }

  /** What each source still held when the sending began. */
  ghost predicate Holds(sources: seq<Source>, contents: seq<bytes>, from: nat)
    reads sources
  {
    |contents| == |sources| && forall i | from <= i < |sources| :: sources[i].pending == contents[i]
  }

  /** How far a run of the sending program got: `whole` are the files that left
      to their end frame, `part` the chunks of the one after them. */
  datatype Dispatch = Unsent | Offered | Streamed(whole: seq<seq<bytes>>, part: seq<bytes>)

  function SentAs(d: Dispatch, key: Key, offer: bytes): seq<Packet> {
    match d
    case Unsent => []
    case Offered => [Sealed(key, offer)]
    case Streamed(whole, part) => [Sealed(key, offer)] + SealAll(key, StreamFrames(whole)) + SealAll(key, DataFrames(part))
  }

  /** What a run of the sending program comes to, when the sources held the given
      contents: nothing of the files leaves before the receiver accepted the offer,
      then the contents in manifest order; success means that all have left and the
      receiver has answered "accept" again. */
  ghost predicate Dispatched(inbox: seq<Packet>, key: Key, offer: bytes, held: seq<bytes>, d: Dispatch, ok: bool) {
    && (!d.Unsent? ==> Fits(Sealed(key, offer)))
    && (d.Streamed? ==>
          && inbox != [] && Open(key, inbox[0]) == Some(ACCEPT)
          && |d.whole| <= |held| && AllGood(d.whole) && Contents(d.whole) == held[..|d.whole|]
          && GoodChunks(d.part)
          && (d.part != [] ==> |d.whole| < |held| && Concat(d.part) <= held[|d.whole|]))
    && (ok ==>
          && d.Streamed? && |d.whole| == |held|
          && |inbox| >= 2 && Open(key, inbox[1]) == Some(ACCEPT))
  }

  /** If no send failed by itself, the run went as far as the offer's size, the
      receiver's answers and the sources let it. */
  ghost predicate Explained(inbox: seq<Packet>, key: Key, offer: bytes, readable: seq<bool>, d: Dispatch, ok: bool) {
    && (d.Unsent? <==> !Fits(Sealed(key, offer)))
    && (!d.Unsent? ==> (d.Streamed? <==> inbox != [] && Open(key, inbox[0]) == Some(ACCEPT)))
    && (d.Streamed? ==>
          && |d.whole| <= |readable| && (forall j | 0 <= j < |d.whole| :: readable[j])
          && (|d.whole| < |readable| ==> !readable[|d.whole|])
          && (ok <==> |d.whole| == |readable| && |inbox| >= 2 && Open(key, inbox[1]) == Some(ACCEPT)))
    && (ok ==> d.Streamed?)
  }

  /** Which of the sources can be opened and read to their end. */
  ghost function Readable(sources: seq<Source>, opens: seq<bool>): (rs: seq<bool>)
    requires |opens| == |sources|
    reads sources
    ensures |rs| == |sources|
  {
    seq(|sources|, i requires 0 <= i < |sources| reads sources => opens[i] && sources[i].end == Eof)
  }

  function SumLengths(cs: seq<bytes>): nat {
    if cs == [] then 0 else SumLengths(cs[..|cs| - 1]) + |cs[|cs| - 1]|
  }

  lemma {:induction false} LengthsPrefix(cs: seq<bytes>, i: nat)
    requires i <= |cs|
    ensures SumLengths(cs[..i]) <= SumLengths(cs)
    decreases |cs|
  {
    if i == |cs| {
      assert cs[..i] == cs;
    } else {
      LengthsPrefix(cs[..|cs| - 1], i);
      assert cs[..|cs| - 1][..i] == cs[..i];
    }
  }

  lemma LengthsStep(cs: seq<bytes>, i: nat)
    requires i < |cs|
    ensures SumLengths(cs[..i]) <= SumLengths(cs[..i + 1]) == SumLengths(cs[..i]) + |cs[i]| <= SumLengths(cs)
  {
    assert cs[..i + 1][..i] == cs[..i];
    LengthsPrefix(cs, i + 1);
  }

  /** All files, one after the other, once the offer is accepted; `all` tells whether
      every one of them left. `out` is what was sent before the offer. */
  method SendAll(link: Link, key: Key, sources: seq<Source>, opens: seq<bool>, total: int, meter: Meter,
                 ghost held: seq<bytes>, ghost inbox: seq<Packet>, ghost out: seq<Packet>, ghost offer: bytes)
    returns (all: bool, ghost d: Dispatch)
    requires |sources| == |opens| && Holds(sources, held, 0)
    requires forall i, j | 0 <= i < j < |sources| :: sources[i] != sources[j]
    requires Fits(Sealed(key, offer)) && inbox != [] && Open(key, inbox[0]) == Some(ACCEPT)
    requires link.outbox == out + SentAs(Offered, key, offer)
    modifies link`outbox, link`broken, meter, sources`pending
    ensures d.Streamed? && Dispatched(inbox, key, offer, held, d, false)
    ensures link.outbox == out + SentAs(d, key, offer)
    ensures all ==> d == Streamed(d.whole, []) && |d.whole| == |held| && link.broken == old(link.broken)
    ensures all ==> forall j | 0 <= j < |sources| :: old(Readable(sources, opens))[j]
    ensures !all && !link.broken ==> Explained(inbox, key, offer, old(Readable(sources, opens)), d, false)
    ensures old(link.broken) ==> link.broken
    ensures old(meter.reports) <= meter.reports
    ensures Steady(meter.reports[|old(meter.reports)|..], 0, SumLengths(held), total)
  {
    hide StreamFrames, DataFrames, Contents, SealAll, FileFrames, Concat, Steady, GoodChunks, Dispatched, SentAs, Fits, SumLengths, Counts;
    hide Explained;
    ghost var readable := Readable(sources, opens);
    NoStream(key, offer);
    NoneReported(meter.reports, held, total);
    DispatchBegins(inbox, key, offer, held);
    var done, i := 0, 0;
    ghost var sent: seq<seq<bytes>> := [];
    all, d := false, Streamed(sent, []);
    while i < |sources|
      invariant i == |sent| <= |sources| && d == Streamed(sent, []) && Holds(sources, held, i)
      invariant Dispatched(inbox, key, offer, held, d, false) && link.broken == old(link.broken)
      invariant forall j | 0 <= j < |sources| :: sources[j].end == old(sources[j].end)
      invariant forall j | 0 <= j < i :: readable[j]
      invariant link.outbox == out + SentAs(d, key, offer)
      invariant Reported(meter.reports, old(meter.reports), held, i, total) && done == SumLengths(held[..i])
    {
      LengthsStep(held, i);
      ghost var said := meter.reports;
      StopExplained(inbox, key, offer, readable, d);
      if !opens[i] { return; }
      ghost var chunks, ended;
      var n, good;
      n, good, chunks, ended := SendFile(link, key, sources[i], done, total, meter);
      FileCounted(said, meter.reports, old(meter.reports), chunks, held, i, total);
      if ended {
        DispatchMore(inbox, key, offer, held, sent, chunks);
        SentMore(out, key, offer, sent, chunks);
        sent := sent + [chunks];
        d := Streamed(sent, []);
      } else {
        DispatchPart(inbox, key, offer, held, sent, chunks);
        SentPart(out, key, offer, sent, chunks);
        d := Streamed(sent, chunks);
        StopExplained(inbox, key, offer, readable, d);
      }
      if !good { return; }
      done := done + n;
      i := i + 1;
    }
    all := true;
  }

  /** The sending program from the manifest on. Progress reports never go down, and
      stay within what the sources held. */
  method Send(link: Link, key: Key, files: seq<FileInfo>, sources: seq<Source>, opens: seq<bool>,
              encode: seq<FileInfo> -> bytes, meter: Meter, ghost held: seq<bytes>)
    returns (ok: bool, ghost d: Dispatch)
    requires |sources| == |files| == |opens| && Holds(sources, held, 0)
    requires forall i, j | 0 <= i < j < |sources| :: sources[i] != sources[j]
    modifies link, meter, sources`pending
    ensures Dispatched(old(link.inbox), key, encode(files), held, d, ok)
    ensures !link.broken ==> Explained(old(link.inbox), key, encode(files), old(Readable(sources, opens)), d, ok)
    ensures old(link.broken) ==> link.broken
    ensures link.outbox == old(link.outbox) + SentAs(d, key, encode(files))
    ensures old(meter.reports) <= meter.reports
    ensures Steady(meter.reports[|old(meter.reports)|..], 0, SumLengths(held), Wrap64(SumSizes(files)))
  {
    hide StreamFrames, DataFrames, Contents, SealAll, Concat, Steady, GoodChunks, Dispatched, SentAs, Fits, SumLengths, Wrap64;
    hide Explained;
    ok, d := false, Unsent;
    ghost var readable, inbox := Readable(sources, opens), link.inbox;
    ghost var out, offer := link.outbox, encode(files);
    OfferExplained(inbox, key, offer, readable);
    NoStream(key, offer);
    NothingDispatched(inbox, key, offer, held);
    NoneReported(meter.reports, held, Wrap64(SumSizes(files)));
    var told := link.SendSealed(key, encode(files));
    if link.outbox != out { d := Offered; }
    if !told { return; }
    var answer := link.ReceiveSealed(key);
    if answer != Some(ACCEPT) { return; }
    var total := TotalSize(files);
    var all;
    assert Readable(sources, opens) == readable;
    all, d := SendAll(link, key, sources, opens, total, meter, held, inbox, out, offer);
    if !all { return; }
    var final := link.ReceiveSealed(key);
    ok := final == Some(ACCEPT);
    DispatchDone(inbox, key, offer, held, d.whole, ok);
    VerdictExplained(inbox, key, offer, readable, d);
  }

  lemma OfferExplained(inbox: seq<Packet>, key: Key, offer: bytes, readable: seq<bool>)
    ensures !Fits(Sealed(key, offer)) ==> Explained(inbox, key, offer, readable, Unsent, false)
    ensures Fits(Sealed(key, offer)) && (inbox == [] || Open(key, inbox[0]) != Some(ACCEPT)) ==>
      Explained(inbox, key, offer, readable, Offered, false)
  {}

  lemma StopExplained(inbox: seq<Packet>, key: Key, offer: bytes, readable: seq<bool>, d: Dispatch)
    requires Fits(Sealed(key, offer)) && inbox != [] && Open(key, inbox[0]) == Some(ACCEPT)
    requires d.Streamed? && |d.whole| < |readable| && forall j | 0 <= j < |d.whole| :: readable[j]
    ensures !readable[|d.whole|] ==> Explained(inbox, key, offer, readable, d, false)
  {}

  lemma VerdictExplained(inbox: seq<Packet>, key: Key, offer: bytes, readable: seq<bool>, d: Dispatch)
    requires Fits(Sealed(key, offer)) && inbox != [] && Open(key, inbox[0]) == Some(ACCEPT)
    requires d.Streamed? && |d.whole| == |readable| && forall j | 0 <= j < |readable| :: readable[j]
    ensures Explained(inbox, key, offer, readable, d, |inbox| >= 2 && Open(key, inbox[1]) == Some(ACCEPT))
  {}

  /** What has been reported on top of what was said before, with i files sent: it never
      goes down and stays within what these and all sources held. */
  ghost predicate Reported(now: seq<(int, int)>, said: seq<(int, int)>, held: seq<bytes>, i: nat, total: int)
    requires i <= |held|
  {
    && said <= now
    && Steady(now[|said|..], 0, SumLengths(held[..i]), total)
    && Steady(now[|said|..], 0, SumLengths(held), total)
  }

  lemma NoneReported(said: seq<(int, int)>, held: seq<bytes>, total: int)
    ensures Reported(said, said, held, 0, total) && SumLengths(held[..0]) == 0
  {
    assert said[|said|..] == [];
  }

  lemma FileCounted(said: seq<(int, int)>, now: seq<(int, int)>, before: seq<(int, int)>, chunks: seq<bytes>,
                    held: seq<bytes>, i: nat, total: int)
    requires i < |held| && Reported(said, before, held, i, total) && |Concat(chunks)| <= |held[i]|
    requires said <= now <= said + Counts(chunks, SumLengths(held[..i]), total)
    ensures Reported(now, before, held, i + 1, total)
  {
    hide Counts, Concat, Steady, SumLengths;
    var at := SumLengths(held[..i]);
    LengthsStep(held, i);
    CountsSteady(chunks, at, total);
    SteadyPrefix(said, now, Counts(chunks, at, total), at, at + |Concat(chunks)|, total);
    SteadyWider(now[|said|..], at, at + |Concat(chunks)|, at + |held[i]|, total);
    ReportsJoin(said, now, |before|, at, at + |held[i]|, SumLengths(held), total);
  }

  lemma NothingDispatched(inbox: seq<Packet>, key: Key, offer: bytes, held: seq<bytes>)
    ensures Dispatched(inbox, key, offer, held, Unsent, false)
    ensures Fits(Sealed(key, offer)) ==> Dispatched(inbox, key, offer, held, Offered, false)
  {}

  lemma DispatchBegins(inbox: seq<Packet>, key: Key, offer: bytes, held: seq<bytes>)
    requires inbox != [] && Open(key, inbox[0]) == Some(ACCEPT) && Fits(Sealed(key, offer))
    ensures Dispatched(inbox, key, offer, held, Streamed([], []), false)
  {}

  lemma DispatchMore(inbox: seq<Packet>, key: Key, offer: bytes, held: seq<bytes>, whole: seq<seq<bytes>>, chunks: seq<bytes>)
    requires Dispatched(inbox, key, offer, held, Streamed(whole, []), false) && |whole| < |held|
    requires GoodChunks(chunks) && Concat(chunks) == held[|whole|]
    ensures Dispatched(inbox, key, offer, held, Streamed(whole + [chunks], []), false)
  {
    hide GoodChunks, Concat;
    StreamSnoc(key, whole, chunks);
    assert held[..|whole| + 1] == held[..|whole|] + [held[|whole|]];
  }

  lemma DispatchPart(inbox: seq<Packet>, key: Key, offer: bytes, held: seq<bytes>, whole: seq<seq<bytes>>, part: seq<bytes>)
    requires Dispatched(inbox, key, offer, held, Streamed(whole, []), false) && |whole| < |held|
    requires GoodChunks(part) && Concat(part) <= held[|whole|]
    ensures Dispatched(inbox, key, offer, held, Streamed(whole, part), false)
  {
    hide GoodChunks, Concat, Contents;
  }

  lemma DispatchDone(inbox: seq<Packet>, key: Key, offer: bytes, held: seq<bytes>, whole: seq<seq<bytes>>, ok: bool)
    requires Dispatched(inbox, key, offer, held, Streamed(whole, []), false)
    requires ok ==> |whole| == |held| && |inbox| >= 2 && Open(key, inbox[1]) == Some(ACCEPT)
    ensures Dispatched(inbox, key, offer, held, Streamed(whole, []), ok)
  {
    hide GoodChunks, Concat, Contents;
  }

  lemma NoStream(key: Key, offer: bytes)
    ensures SealAll(key, StreamFrames([])) == [] && Contents([]) == []
    ensures SealAll(key, DataFrames([])) == [] && GoodChunks([])
    ensures SentAs(Unsent, key, offer) == []
    ensures SentAs(Offered, key, offer) == SentAs(Streamed([], []), key, offer) == [Sealed(key, offer)]
  {}

  lemma SentMore(out: seq<Packet>, key: Key, offer: bytes, whole: seq<seq<bytes>>, chunks: seq<bytes>)
    ensures (out + SentAs(Streamed(whole, []), key, offer)) + SealAll(key, FileFrames(chunks))
         == out + SentAs(Streamed(whole + [chunks], []), key, offer)
  {
    hide StreamFrames, FileFrames, SealAll, DataFrames;
    NoStream(key, offer);
    StreamSnoc(key, whole, chunks);
  }

  lemma SentPart(out: seq<Packet>, key: Key, offer: bytes, whole: seq<seq<bytes>>, part: seq<bytes>)
    ensures (out + SentAs(Streamed(whole, []), key, offer)) + SealAll(key, DataFrames(part))
         == out + SentAs(Streamed(whole, part), key, offer)
  {
    hide StreamFrames, SealAll, DataFrames;
    NoStream(key, offer);
  }

  // ------------------------------------------------- the two programs together

  lemma {:induction false} OpenedAll(key: Key, frames: seq<bytes>)
    ensures Opened(key, SealAll(key, frames)) == frames
  {
    if frames != [] {
      assert SealAll(key, frames)[1..] == SealAll(key, frames[1..]);
      OpenedAll(key, frames[1..]);
    }
  }

  lemma {:induction false} StreamHead(files: seq<seq<bytes>>)
    requires files != []
    ensures StreamFrames(files) == FileFrames(files[0]) + StreamFrames(files[1..])
  {
    hide FileFrames;
    var n := |files| - 1;
    if n == 0 {
      assert StreamFrames(files[..0]) == [] && StreamFrames(files[1..]) == [];
    } else {
      StreamHead(files[..n]);
      assert files[..n][1..] == files[1..][..n - 1];
      assert files[1..][n - 1] == files[n];
    }
  }

  /** Fed the sender's frames, the receiver takes the files in order up to the
      first whose content does not match its announcement. */
  lemma {:induction false} StreamJudged(sent: seq<seq<bytes>>, files: seq<FileInfo>, sha: Hash)
    requires |sent| == |files|
    ensures var taken := JudgeAll(StreamFrames(sent), files, sha);
            && taken <= Contents(sent)
            && (forall i | 0 <= i < |taken| :: Matches(taken[i], files[i], sha))
            && (|taken| < |files| ==> !Matches(Contents(sent)[|taken|], files[|taken|], sha))
    decreases |files|
  {
    if files != [] {
      StreamHead(sent);
      JudgeReassembles(sent[0], StreamFrames(sent[1..]), files[0], sha, []);
      assert [] + Concat(sent[0]) == Concat(sent[0]);
      StreamJudged(sent[1..], files[1..], sha);
      assert Contents(sent) == [Concat(sent[0])] + Contents(sent[1..]);
    }
  }

  /** If the receiver, fed what the sender sent, replied with the second accept,
      it published every file with exactly the content the sender read, each of
      the announced size and hash. Conversely nothing the sender read is refused
      if it matches its announcement. */
  lemma SentIsPublished(key: Key, sent: seq<seq<bytes>>, files: seq<FileInfo>, sha: Hash, contents: seq<bytes>)
    requires |sent| == |files| == |contents|
    requires contents <= JudgeAll(Opened(key, SealAll(key, StreamFrames(sent))), files, sha)
    ensures contents == Contents(sent)
    ensures forall i | 0 <= i < |files| :: Matches(Concat(sent[i]), files[i], sha)
  {
    hide JudgeAll, Opened, StreamFrames, Matches, SealAll;
    OpenedAll(key, StreamFrames(sent));
    StreamJudged(sent, files, sha);
    var taken := JudgeAll(StreamFrames(sent), files, sha);
    assert |taken| == |files|;
    forall i | 0 <= i < |files| ensures Matches(Concat(sent[i]), files[i], sha) {
      assert taken[i] == Contents(sent)[i];
    }
  }
}
