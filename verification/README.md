# Verification of fsi

`fsi` moves files between two machines that share a short code. A relay pairs the
two connections and copies bytes between them; the peers agree on a key with
SPAKE2, and the sender then streams its files as sealed frames that the receiver
checks and publishes. This project models these parts in Dafny and proves what
they promise, each layer against the one below it, and the whole exchange as two
programs running in every interleaving.

`dafny verify dfyconfig.toml` checks everything.

## Layout

| file | models |
|---|---|
| bytes.dfy | bytes, big-endian integers, exclusive or |
| net.dfy | the transport under everything: bytes that arrive in any pieces, bytes written out |
| wsframe.dfy | the WebSocket frame format and what a raw byte string means to a decoder |
| wsconn.dfy | the WebSocket connection: decoder presented as a stream, frame writer |
| wswriters.dfy | several goroutines on one WebSocket: writers, a reader answering pings, closing, failures |
| comm.dfy | length-prefixed messages over TCP or WebSocket |
| pipe.dfy | the relay's copy loop, and messages across the whole chain of transports |
| hello.dfy | greeting, room and "paired" between client and relay |
| pump.dfy | the relay's two copy loops side by side |
| relay.dfy | the rendezvous: room map, goroutines, timers |
| pake.dfy | SPAKE2 over an abstract group |
| paths.dfy | lexical path cleaning, joining and the containment check |
| manifest.dfy, filelist.dfy | the offer, and how the sender builds it from its arguments |
| files.dfy | the receiver's file system, files and directories |
| session.dfy | sealed packets, file frames, how a stream of them is judged and published |
| handshake.dfy | the first part of both programs: key agreement, salt, and proof of the key |
| receiver.dfy, sender.dfy | the rest of the two programs, as loops over a link and a file system |
| protocol.dfy | both programs on FIFO channels, as a transition system |
| schedules.dfy | ways to run that system forward |
| programs.dfy | what the programs do as runs of that system, when success is possible, and what carries the packets |
| faultless.dfy | the two programs when nothing fails by itself |
| exchange.dfy | the key agreement and the transfer together |

## How the pieces fit

A raw byte string has a meaning, `WsFrame.Stream`, defined without reference to
the decoder. The methods of `WsConn.Conn` keep the ghost view `Pending()`, what is
still due for delivery, and are proved against that meaning; independent lemmas
say what the meaning is for any list of frames (`StreamOfFrames`) and for any cut
of it (`StreamMonotone`). What a method does to the sending half is said of raw
bytes: a whole frame more (`Wrote`), or nothing or part of one (`Failed`). `Comm`
and `Pipe` see a transport only through two such views, `Incoming` and `Outgoing`;
the latter is what a peer's decoder makes of the bytes really written, whole
frames or not. So their proofs hold for TCP and WebSocket alike, also after a
write has failed, and `Pipe.LayeredDelivery` composes them into a statement about
messages, `Programs.PacketsArrive` into one about the channels of the protocol.

The relay and the two peers are transition systems: a step is enabled or not, a
run is a list of steps, and the theorems speak of every state some run reaches.
The relay's lock sections, and the receiver's judgement of a frame, are the same
functions the imperative methods are proved against. `Programs.ProgramsAreARun`,
`WsWriters.WriteFrameIsARun` and `AnswerPingIsARun`, and `Pump.CopyOnceIsARun` show
that what those methods can come to is what runs of the systems come to.

Operations may fail at any point for reasons of their own. Each layer records that
in a flag: `FileSystem.failed`, `Link.broken`, and on a transport `Takes` and
`Keyless`. A contract says what holds at any exit, and then what the outcome is
exactly as long as the flag is down, so no failure goes without a cause.
`Faultless.SucceedExactlyWhen` draws the conclusion for both programs.

## Assumptions

- A connection delivers a finite string of bytes and then an end condition that
  persists. A write may fail after any prefix, and so may any file operation. No
  write deadline is ever set on an established connection, so a transport on which
  a write has failed, or that was closed, accepts nothing more.
- `Packet` idealises authenticated encryption: a packet opens under the key that
  sealed it and under nothing else. Hash, JSON and key derivation are function
  parameters; what is required of them is written where it is used. `Pake.ToyIsSound`
  shows that the requirements on the group, the encoding and the hash can hold.
- A point encodes to 33 bytes even when it is the identity, where the library
  used by the program panics instead.
- A temporary file's name is new and is not that of the destination, and
  removing a temporary file succeeds. `os.Stat` finds what is there. Different
  cleaned paths are different places; the root, the working directory and what only
  `..` leads to are always directories.
- An error text the receiver sends never reads "accept".

## Where the code and its documentation differ

- README.md of the repository names ChaCha20-Poly1305; internal/crypt/crypt.go
  uses AES-256-GCM. The 28 bytes of overhead in `Session` fit both.
- `filepath` arguments such as `..` or `/` are accepted by the sender, but every
  name built from them is refused by the receiver. `DirectoryNameFits` gives the
  exact condition, `RootAndParentRefused` these two inputs.

## Model

| member | source | states |
|---|---|---|
| Net.Source.ReadFull | internal/ws/ws.go:189-193 | reading to the full over short reads takes exactly the next bytes, and fails exactly when they run out: with an unexpected end after some bytes, otherwise with the end condition itself |
| Bytes.XorIsBitwise | internal/ws/ws.go:261 | masking a byte adds the bits of byte and key modulo two, each bit by itself |
| WsFrame.MaskInvolution | internal/ws/ws.go:258-264 | applying the key twice from the same position gives the payload back |
| WsFrame.MaskSplit | internal/ws/ws.go:258-264 | unmasking in pieces, with the position carried on, equals unmasking the whole |
| WsFrame.MaskedHello | internal/ws/ws.go:258-313 | the masked frame of "Hello" given in section 5.7 of RFC 6455: its bytes, and that they read back |
| WsFrame.LongHeaders | internal/ws/ws.go:189-219 | the 256-byte and 64-KiB binary headers of that section, byte by byte |
| WsFrame.HeaderRoundTrip | internal/ws/ws.go:189-226 | any valid frame's header, in any length form, masked or not, with anything after it, is read back exactly: opcode, mask flag, key, length, header size |
| WsFrame.StreamOfFrames | internal/ws/ws.go:168-250 | a wire of any valid frames means the data payloads before the first close frame, continuing with what follows if there was none |
| WsFrame.StreamMonotone | internal/ws/ws.go:168-250 | for arbitrary bytes, a truncated wire yields a prefix of what the whole wire yields |
| WsFrame.TruncatedWire | internal/ws/ws.go:168-250 | any prefix of valid frames delivers a prefix of their data, all of it when nothing is missing |
| WsFrame.PingsOfFrames | internal/ws/ws.go:187-250 | the pings passed on the way to the next byte of data are those on the wire before it, each once, in order |
| WsConn.MinimalIsShortest | internal/ws/ws.go:285-295 | no other length form gives a shorter header than the one the writer picks |
| WsConn.Conn.constructor | internal/ws/ws.go:45-54 | a fresh connection has the meaning of its raw bytes pending and nothing sent |
| WsConn.Conn.Unmask | internal/ws/ws.go:258-264 | unmasks exactly the given range in place, each byte with the key byte of its position, and advances the position by the length |
| WsConn.Conn.Discard | internal/ws/ws.go:252-256 | drops up to n bytes, silently fewer when the stream is short |
| WsConn.Conn.ReadHeader | internal/ws/ws.go:189-226 | what is read is what the bytes say; an error means they hold no header within the limit, and it is the one due: a bad length or an end inside the header |
| WsConn.Conn.AnswerPing | internal/ws/ws.go:235-243 | a ping whose payload arrives whole yields one pong with its unmasked payload, minimal and masked as the side requires; or that pong fails, with at most a part of it on the wire, and only if the transport takes no more or there was no mask key |
| WsConn.Conn.NextFrame | internal/ws/ws.go:187-250 | acting on a frame loses nothing that is due, even when a pong cannot be written; its ping is answered; any other error means nothing was due, and is the one the bytes lead to |
| WsConn.Conn.Read | internal/ws/ws.go:168-185 | returns the front of what is due into the given range only; makes progress; an error is the one that ends the stream, with everything delivered, or one failed pong, with nothing else lost; exactly the pings passed are answered, in order |
| WsConn.Conn.WriteFrame | internal/ws/ws.go:274-313 | success appends exactly one whole well-formed frame with this payload to the bytes on the wire; failure nothing, or a part of that frame with which the transport dies, and only on a transport that takes no more or for want of a mask key; the payload buffer is untouched |
| WsConn.Conn.Write | internal/ws/ws.go:266-272 | one binary frame per write, carrying exactly the bytes given, or a part of it at the end of the wire |
| WsConn.Conn.Close | internal/ws/ws.go:315-320 | at most a close frame is added, whole or in part, and the transport is closed either way |
| WsWriters.WholeFrames | internal/ws/ws.go:274-320 | in every interleaving, with writes failing anywhere and closing at any moment, the wire is whole frames in lock order, the last possibly incomplete; those written with success are the first of them, and whole; a peer reads at least their data and at most a prefix of what was begun; each goroutine's frames keep its own order |
| WsWriters.OnePongPerPing | internal/ws/ws.go:235-243 | in every interleaving each ping taken is one pong asked for, with its payload, in ping order; the pongs begun are those not refused for want of a mask key, and where none is needed the first of the pings taken, all but one waiting |
| WsWriters.WriteFrameIsARun | internal/ws/ws.go:274-313 | for data and close frames up to the size a peer reads, every effect the contract of WriteFrame allows is a run of the caller's steps |
| WsWriters.AnswerPingIsARun | internal/ws/ws.go:235-243 | every effect of answering a ping, from taking it to the end of its pong, is a run of the reader's steps |
| Comm.NextOfEncoded | internal/comm/comm.go:57-84 | an encoded message followed by anything decodes to itself and that rest, down to the empty message |
| Comm.MessagesRoundTrip | internal/comm/comm.go:57-84 | receiving an encoded list of messages yields that list |
| Comm.MessagesMonotone | internal/comm/comm.go:70-84 | a truncated stream yields the first messages only, never a short or merged one |
| Comm.ReadFull | internal/comm/comm.go:72-82 | fills a buffer with exactly the next bytes of the stream, over TCP or WebSocket, also after a write has failed, or reports how they run out; the peer sees nothing |
| Comm.Conn.Send | internal/comm/comm.go:57-68 | an oversized message changes nothing; success puts exactly one encoded message on the stream the peer will decode, failure at most a part of it; it fails only then, or when the transport takes no more or a mask key is missing |
| Comm.Conn.Receive | internal/comm/comm.go:70-84 | success returns the next message of the stream and leaves the rest; failure, other than a failed pong, means the stream holds no next message, and says why: announced too long, or how it ended; nothing becomes visible to the peer |
| Hello.Welcome | internal/relay/relay.go:96-115 | the relay learns exactly the room that was named, takes the two messages and nothing behind them; it rejects only what names none, unless a pong fails |
| Hello.Join | internal/transfer/protocol.go:61-89 | a client succeeds only when greeting and room are out and "paired" came back; otherwise the connection is closed, and for a reason |
| Hello.TellPair | internal/relay/relay.go:81-90 | both of a pair are told, the one that waited first; if either cannot be, both connections are closed |
| Hello.RoomNamedExactlyWhen | internal/relay/relay.go:96-115 | a stream names a room if and only if it begins with what a client sends to join it |
| Pipe.Copy | internal/relay/relay.go:133-148 | the copy loop forwards a prefix of what arrives, as the peer will decode it, and all of it unless a write fails, which takes a transport that accepts no more or a missing mask key; otherwise its result is that of the source |
| Pipe.CopyOnce | internal/relay/relay.go:137-144 | afterwards both connections are closed, which shows neither peer a byte more |
| Pump.Delivered | internal/relay/relay.go:133-148 | in every run of both loops each peer gets a prefix of what came, all of it from a source that ended by itself; the connections are open until the first loop is over |
| Pump.NothingAfterClosing | internal/relay/relay.go:137-144 | once a loop has closed the connections, no byte is delivered either way |
| Pump.OtherDirectionCut | internal/relay/relay.go:137-144 | delivery is not complete in general: a run in which all a peer sent is lost because the other peer was done first |
| Pump.CompleteExactlyWhen | internal/relay/relay.go:137-144 | the exact condition: when one loop is about to close, a direction whose source has said its last is delivered in full in the end if and only if it has been by then |
| Pump.CopyOnceIsARun | internal/relay/relay.go:137-144 | every effect the contract of CopyOnce allows is a run of one direction |
| Pipe.PeerReads | internal/relay/relay.go:133-148 | a fresh peer reading any prefix of what a transport wrote, even one that failed inside a frame, has a prefix of these bytes coming, all of them once everything has arrived |
| Pipe.LayeredDelivery | internal/comm/comm.go:57-84 | messages chunked, framed, cut by a failing writer or the network, and re-chunked onto another transport arrive as a prefix of whole messages in order, after the relay's own and without those it took, and all of them when nothing was cut |
| Relay.Server.Match | internal/relay/relay.go:64-71 | takes the waiting connection out of the room or waits there, touching no other room |
| Relay.Server.TimedOut | internal/relay/relay.go:118-131 | removes the connection only if it is the one still waiting in its room |
| Relay.OneFate | internal/relay/relay.go:56-93 | in every reachable state a connection is exactly one of handshaking, waiting in one room, paired, turned away |
| Relay.PairingIsSound | internal/relay/relay.go:64-71 | pairing is symmetric, joins two distinct connections that named the same room, and no connection is in two pairs |
| Relay.PairedForGood | internal/relay/relay.go:64-91 | a pairing never changes or ends |
| Relay.TimerIsPrivate | internal/relay/relay.go:118-131 | a fired timer affects its own connection only, and only if it still waits; a stale timer changes nothing |
| Relay.PairedNeverTimedOut | internal/relay/relay.go:118-131 | no timer ever closes a connection that found a partner |
| Relay.HeaderIsExclusive | internal/relay/relay.go:80-90 | at most one goroutine is inside Send or Receive on a connection, so its header scratch is never shared |
| Relay.NobodyStranded | internal/relay/relay.go:64-78 | two peers of one room, past the lock and not turned away, are not both left unpaired |
| Relay.ClosedExactlyWhen | internal/relay/relay.go:56-93 | in every reachable state the closed connections are exactly those rejected, those evicted, and both of every pair that is over |
| Relay.ToldInOrder | internal/relay/relay.go:80-91 | only paired connections are told "paired", each at most once, the waiting one first; bytes are copied only between two that were both told |
| Relay.NewcomerIsPaired | internal/relay/relay.go:56-91 | whatever state the relay is in, a newcomer to a room somebody waits in can be paired, both told and their bytes copied, by its own goroutine alone |
| Relay.NewcomerWaits | internal/relay/relay.go:56-78 | in an empty room a newcomer can wait, and be evicted, which closes it and empties the room |
| Pake.Pake.constructor | internal/pake/pake.go:72-87 | the share is x*G plus the scalar of the password times M in role A and N in role B |
| Pake.Pake.Update | internal/pake/pake.go:108-140 | fails exactly on a message that is no point, and then derives nothing; otherwise derives the key of the transcript |
| Pake.MulOnce | internal/pake/pake.go:80-84 | the multiple a share is made of: no copy of a point is the identity, one is the point |
| Pake.PasswordsTold | internal/pake/pake.go:97-101 | any two different passwords have different scalars in some sound suite: all of a password counts |
| Pake.DomainsDiffer | internal/pake/pake.go:98-134 | what is hashed of a password is never what is hashed of a session |
| Pake.MaskCancels | internal/pake/pake.go:118-124 | stripping the mask leaves x*G, also when the password scalar is zero |
| Pake.SamePoint | internal/pake/pake.go:118-125 | both roles reach x*y*G |
| Pake.Agreement | internal/pake/pake.go:72-140 | parties with one password derive the same key |
| Pake.TranscriptInjective | internal/pake/pake.go:127-138 | the hash input determines both shares, the point and the password scalar |
| Pake.WrongPasswordWrongKey | internal/pake/pake.go:108-140 | different password scalars never give equal keys, whatever was exchanged, if the hash does not collide |
| Paths.CleanTwice | internal/transfer/protocol.go:187-193 | cleaning a cleaned path changes nothing |
| Paths.CleaningRules | internal/transfer/protocol.go:188 | what cleaning does: a doubled slash, a "." piece, and a name with the ".." behind it can be left out anywhere after a first piece |
| Paths.CleaningFront | internal/transfer/protocol.go:188 | and at the front of a relative path |
| Paths.DownAndUp | internal/transfer/protocol.go:188 | going down by one name and up again leads back |
| Paths.CleaningRoot | internal/transfer/protocol.go:188 | there is nothing above the root: a ".." right behind it can be left out |
| Paths.RefusesExactly | internal/transfer/protocol.go:187-193 | a name is refused exactly when its cleaned form is absolute or begins with a ".." component |
| Paths.RefusedWhenClimbing | internal/transfer/protocol.go:187-193 | of a name as written: a relative one is refused if and only if, read piece by piece, it somewhere has had more ".." than names |
| Paths.JoinAppends | internal/transfer/protocol.go:192 | joining appends the name's components to the directory's, whatever the directory |
| Paths.JoinIgnoresEmpty | internal/transfer/protocol.go:192 | an empty element joins as if it were not there |
| Paths.Contained | internal/transfer/protocol.go:185-193 | an accepted name lands at the cleaned directory followed by ordinary components only |
| Manifest.TotalSize | internal/transfer/protocol.go:52-59 | the sum of sizes, reduced to the signed 64-bit number it is congruent to; the true sum when it fits |
| FileList.BuildFileList | internal/transfer/sender.go:111-163 | succeeds exactly when every argument can be listed and something was found; manifest and source list are then those of the arguments, in order and in step |
| FileList.DirectoryArgumentListed | internal/transfer/sender.go:137-187 | what a directory argument lists: a path is listed if and only if following it through the directory leads to a regular file; in walking order; each with the size, permissions and hash of the file found there, read from its place below the argument |
| FileList.FileArgumentListed | internal/transfer/sender.go:127-135 | a file argument that can be read lists itself, under its last component, with its own size, permissions and hash |
| FileList.BaseIsLast | internal/transfer/sender.go:128-138 | the base of a path is its last component, "." of nothing and "/" of the root |
| FileList.BaseDropsSlash | internal/transfer/sender.go:128-138 | a trailing slash does not change the base |
| FileList.RelLeadsBack | internal/transfer/sender.go:143 | a relative path, joined to its base, leads to its target |
| FileList.WalkRoot | internal/transfer/sender.go:137-154 | the walk over one root lists its regular files, or fails as a whole |
| FileList.FileArgumentFits | internal/transfer/sender.go:127-135 | a file argument's name is refused exactly when it is ".." or the root, and an ordinary one lands in the output directory |
| FileList.DirectoryNameFits | internal/transfer/sender.go:137-147 | the exact name given to a file below a directory argument, and that it is refused exactly when the cleaned argument is the root or ends in ".." |
| FileList.DirectoryArgumentFits | internal/transfer/sender.go:137-154 | all files of a directory argument are accepted, land at out/base/rel, and at pairwise different places |
| FileList.ManifestFits | internal/transfer/sender.go:114-163 | every entry of an offer is accepted by the receiver if and only if every argument is one under whose name files can be received |
| FileList.RootAndParentRefused | internal/transfer/sender.go:137-147 | no file below the argument "/" or ".." is ever accepted |
| Files.FileSystem.MakeParents | internal/transfer/receiver.go:91-93 | on success all directories above the destination exist, and no file was in the place of one; only those are ever added, and no file changes; unless an operation fails by itself, it succeeds when no file is in the way |
| Files.ParentsAre | internal/transfer/receiver.go:91-93 | the directories a destination needs are exactly the cleaned paths that lead to it and are not it |
| Files.StandingExactlyWhen | internal/transfer/receiver.go:86-93 | a path always names a directory exactly when nothing in it has a name |
| Session.JudgeReassembles | internal/transfer/receiver.go:103-137 | however a file was cut, it is taken exactly when its content has the announced size and hash, and the content taken is the concatenation |
| Session.FrameFits | internal/crypt/crypt.go:41-46 | a sealed chunk, with its frame type, nonce and tag, always fits a message |
| Session.PermBits | internal/transfer/receiver.go:139-142 | the nine permission bits announced are kept bit by bit, unless none is set: then the file gets 0644 |
| Session.RoomExactlyWhenApart | internal/transfer/receiver.go:86-93 | every file finds room in its turn if and only if no destination is above another, no file is above one, and none is a directory |
| Session.PublishedLast | internal/transfer/receiver.go:149 | a destination holds the last file written to it |
| Session.PublishedElsewhere | internal/transfer/receiver.go:149 | a path no entry names is as before |
| Session.PublishedFresh | internal/transfer/receiver.go:86-90 | without overwriting, destinations differ, were free, hold their own file, and earlier files are intact |
| Receiver.Collect | internal/transfer/receiver.go:101-129 | the loop takes what the frames carry, touches only the temporary file, writes at most one chunk beyond the announced size, and reports exactly the bytes so far after each chunk; it fails only on frames that are refused or an operation that fails by itself |
| Receiver.Finish | internal/transfer/receiver.go:131-152 | publishes under the right permissions exactly when size and hash match, no operation fails by itself and no directory is at the destination |
| Receiver.ReceiveFile | internal/transfer/receiver.go:82-153 | all or nothing for one file: the destination holds the content the frames carry, with the directories above it, or every file is what it was; never over a directory; no temporary file remains or is left open; what is in the way is noticed before a frame is read. Unless an operation fails by itself it succeeds if and only if the frames carry what was announced, no file is above the destination, no directory there, and nothing at all unless overwriting; exact reports |
| Receiver.ReceiveFiles | internal/transfer/receiver.go:62-76 | at any exit exactly the leading files are published, in order, and directories exist above those and at most the next; the running count is the sum of their sizes; reports never go down; unless an operation fails by itself, the file it stops at has a refused name, no room, a file in its place, or frames that do not carry it |
| Receiver.Receive | internal/transfer/receiver.go:43-79 | its outcome: what was offered, the leading files published and nothing else changed, and the replies; the second "accept" is sent only when every entry is published; declining or failing early changes nothing; at any exit reports never went down or beyond the announced total. Unless something fails by itself, whatever falls short of success has its cause in what was sent, offered or there before |
| Receiver.NothingOutside | internal/transfer/receiver.go:62-76 | whatever names a manifest carries, only files inside the output directory change |
| Receiver.NoDirectoryOutside | internal/transfer/receiver.go:91-93 | a directory that appears is inside the output directory, or is one of those leading to it |
| Sender.SendFile | internal/transfer/sender.go:80-109 | non-empty chunks of at most 64 KiB of the content in order, over any short reads, and an end frame only after all of it; on success exactly that; unless a send fails by itself the whole content leaves, it succeeds exactly when the source ends cleanly, and each chunk is reported |
| Sender.Send | internal/transfer/sender.go:46-78 | its outcome at any exit: an offer too long for a message does not leave; no file data before the first accept, then whole files in manifest order and a part of the next; success means all of them and a second accept; reports never go down or beyond what the sources held. Unless a send fails by itself it goes as far as the size of the offer, the answers and the sources let it |
| Handshake.ConfirmKeys | internal/transfer/protocol.go:136-151 | sends this side's proof, and succeeds only on the other side's under the same key; unless a send fails by itself, exactly then |
| Handshake.Handshake | internal/transfer/protocol.go:91-134 | its outcome at any exit: what left, in order; the salt and the proof only after a share that could be used; the key is that of the peer's share and the salt; success only on the peer's proof; unless something fails by itself it goes as far as the peer's messages let it |
| Sender.StreamJudged | internal/transfer/receiver.go:62-76 | fed the sender's frames, the receiver takes files up to the first that does not match its announcement |
| Sender.SentIsPublished | internal/transfer/sender.go:68-77 | if everything was published, it is what the sender read, and each file matches its announcement |
| Protocol.NeverDeadlocked | internal/transfer/protocol.go:91-151 | in no reachable state are both programs waiting for a message that has not been sent |
| Protocol.Lockstep | internal/transfer/receiver.go:103-129 | the receiver's file number and part match the sender's stream, and the channel holds exactly the rest of it |
| Protocol.FailureAtomicity | internal/transfer/receiver.go:82-153 | at every moment of every run exactly the files before the current one are in place, matching their announcement, no other file has changed, and directories were added above those and the current one only |
| Protocol.EndToEnd | internal/transfer/sender.go:68-77 | if the sender reports success, every entry is published with the bytes read for it, of the announced size and hash, with exactly the directories it needs; without overwriting at distinct, formerly free destinations |
| Protocol.SuccessFits | internal/comm/comm.go:57-60 | the sender succeeds only with an offer the receiver confirmed, and only if it and what precedes it fit a message |
| Protocol.DifferentKeys | internal/transfer/protocol.go:136-151 | with different keys the offer is never sent, no file or directory is touched and neither side succeeds |
| Programs.ProgramsAreARun | internal/transfer/sender.go:34-78 | every pair of runs of the sending and the receiving program, handshake included, over channels cut anywhere, ends as a run of the two-party system does |
| Programs.SendMeansReceived | internal/transfer/sender.go:68-77 | if the sending program returns without an error, the receiving program has published every entry with the bytes its source held |
| Programs.SuccessExactlyWhen | internal/transfer/receiver.go:43-79 | a run of the system can succeed with given contents if and only if the keys agree, the offer fits a message and is confirmed, every name is accepted, every content is as announced, the destinations are free unless overwriting, and no destination or file is in the way of another as a directory or a file |
| Programs.RunSender | internal/transfer/sender.go:34-78 | the sending program from the handshake on: what it sends and comes to is a run as the theorems about pairs of programs speak of it |
| Programs.RunReceiver | internal/transfer/receiver.go:31-80 | and the receiving program |
| Faultless.SucceedExactlyWhen | internal/transfer/sender.go:34-78 | if nothing fails by itself, the sending program succeeds if and only if the keys agree, the exchange is allowed and every source can be read; and the receiving program if and only if the sending one does |
| Faultless.FeasibleIsDone | internal/transfer/receiver.go:43-79 | whatever is feasible has such a pair of runs |
| Programs.PacketsArrive | internal/comm/comm.go:57-84 | packets sent as messages over two hops and the relay arrive as a prefix of the packets sent, all of them when nothing was cut |
| Exchange.SameCode | internal/transfer/protocol.go:91-134 | the same code gives both programs the same key |
| Exchange.OnlySameCode | internal/transfer/protocol.go:91-134 | the two programs hold the same key if and only if the codes are the same, if hash and key derivation do not collide and the scalars tell the codes apart |
| Exchange.WrongCode | internal/transfer/protocol.go:136-151 | with different codes, under the same assumptions, no run sends the offer, touches a file or directory or succeeds |
| Exchange.WrongCodeStops | internal/transfer/protocol.go:136-151 | with different codes neither program is ever convinced or succeeds, and nothing is touched |
| Exchange.SentWithCode | internal/transfer/sender.go:68-77 | whatever the codes, a sending program that returns without an error has had every entry published by the receiving one |
| Exchange.CodesDecide | internal/transfer/sender.go:34-78 | if nothing fails by itself, both programs succeed if and only if the codes are the same, what is offered is allowed and every source can be read |

## Left out

- Dialing, TLS, the HTTP upgrade and its accept token: the model starts from an established connection.
- Group arithmetic on P-256, hashing to the curve, SHA-256, HKDF, AES-GCM and JSON: abstract functions.
- Randomness: mask keys, scalars, salts and temporary names are arbitrary values.
- Taking the room number out of a code: `Hello.Join` starts from the room.
- Wall-clock time: timers and timeouts are steps that may happen at any moment.
- A read error that goes away again, such as a deadline lifted between two reads: an end condition persists. After it, `discard` ignoring a short read could lose the frame boundary.
- Which error text the receiver sends, and the lines shown to the user.
- Symbolic links, Windows paths, and other programs changing files at the same time.
- Programs.SuccessExactlyWhen: counts what an operating system refuses of its own accord, such as names that are too long or hold a NUL byte, and missing permissions, among the failures that may happen.
- The place and pattern of the temporary file's name, and file modes of directories.
- 64-bit overflow of byte counters other than the announced total: counters are unbounded.
- The browser page, the command line, tunnel supervision, code words and progress drawing: user interface.
- Protocol.EndToEnd: speaks of the receiver's files only; a receiver whose last send fails after the packet left may itself report an error.
