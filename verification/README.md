# libssh-ruby: a verified model

libssh-ruby binds libssh to Ruby and brings an SSHKit backend. What is its own, and what this
project models, is the backend's exec engine and copy loops with their resource brackets, the
ownership rules of the native objects under garbage collection, the order in which the calls
must come, the forwarding example with its two threads, and the C loops over Ruby arrays.
libssh, the peer, the file system and the garbage collector's choices are an environment that
answers as it likes within a small contract; every claim is for all its answers.

| file | what it holds |
|---|---|
| Base, Environment | bytes, the list of the environment's answers ("turns"), the world a run acts on |
| Utf8 | how many characters `String#size` finds in a chunk |
| Journal | what a run is observed to do; nesting of resources and order of calls, and what they mean |
| TransferSpec | the two copy loops as functions of the turns, and what those functions do |
| Returns | when the two transfers return rather than raise, against a byte-exact download |
| Transfers | `upload!` and `download!` as written, proved against TransferSpec and Returns |
| Exec, Backend | the output loop, `execute_command`, and whole runs of the backend |
| Sessions | `create_session`, `configure_session`, the pool |
| Lifetimes, Collector | holders, marks and frees: a transition system and the C functions that take its steps |
| Forwarding, Pump | the forwarder's interleavings, and its threads as written |
| CArrays | `set_select_channels`, `select`, `protocol=` |

A method's Boolean result `ok` is true for a normal return and false for an exception that
leaves it. A list of turns that is used up makes the next call raise, so every finite prefix of
an endless run is among the runs.

## What comes out

- `download_file` counts characters, not bytes, because `Scp#read` returns a UTF-8 string. Its
  normal exit is exact all the same: whatever the chunking, all the bytes have been written.
  But the exit is reached exactly when the reads exhaust the file, no single chunk holds a
  well-formed multibyte sequence, and the size fits a C int (or the file is empty). After a
  chunk that does hold one, the loop goes on reading empty chunks behind the last byte until a
  call raises. The same file may finish under one chunking and not under another; the two
  bytes of U+00E9 in one chunk are the smallest file that does not.
- The whole of `download!` therefore returns exactly when a byte-exact download would return on
  the same turns, every file fits a C int, and no chunk of any file holds a multibyte sequence.
  When reads hand over whole files, that means: exactly when no file is too long or holds one.
- The exec loop loses nothing on either stream, hands over all of both before the exit status
  is set, to the code the peer reported, and every pass lowers what is left. If the peer sends
  EOF, only a call that raises, or a session that is refused, keeps `execute_command` from
  returning.
- Whatever is called, and whatever raises, every scp conversation, channel and local file that
  was opened is closed exactly once, innermost first; and the two calls the C files say block
  for ever are never made too early.
- A reachable Channel or Scp keeps the native session behind its handle unfreed, through
  re-initialization and in the middle of a lazy sweep. Nothing is lost either: each native session
  and scp ever created is held by one holder, or was freed exactly once, or was forgotten when
  its holder was initialized again. A collection frees exactly what the unreachable holders
  own. The order "scp before its session" that `scp_free` asks for is met by a run exactly
  when its sweeps take each Scp before the Session whose native session made it, and that can
  matter only between objects condemned by the same mark.
- The forwarder delivers both directions unchanged under every schedule, cannot get stuck, and
  ends within a bound given by the two byte counts: the threads as written have delivered
  everything and closed the channel after that many rounds of all of them, unless a call raised.
- The channel array handed to `ssh_channel_select` ends for its reader at the first NULL, so it
  shows all channels exactly when each was initialized. A `select` that raises on its second or
  third list leaves the arrays it had built.

## Assumptions about the environment

- `scp.read(k)` returns the next bytes of the announced file, at most min(k, what is left), and
  may return none; the peer announces the file's true size. `scp.write` and `io.write` take all
  of their argument or raise.
- `read_nonblocking` returns nil when its stream is empty and EOF has come, otherwise a prefix of
  the stream's buffer of at most `count` bytes, not empty if the buffer is not. Packets may
  come in during any call on the channel. `eof?` is true only after EOF with both buffers empty.
  Nothing follows the peer's EOF (RFC 4254, section 5.3); standard error is the peer's extended
  data (section 5.2), the exit status a channel request (section 6.10).
- `select` without a timeout returns only when data or EOF is present. When neither can come it
  is left only by an exception. (The C code ignores the result of `ssh_channel_select`.)
- `readpartial` returns 1 to BUFSIZ bytes, or raises EOFError at the end.
- Character counting follows section 4 of RFC 3629; a byte that starts no well-formed sequence
  counts as one character.
- The pool hands out sessions that `create_session` returned, or calls it. Its source is not
  part of this model.
- A full mark condemns all unreachable holders; a sweep may be interleaved with the program, in
  any order; a swept slot may be reused; native identities are never reused.

Where code and documentation disagree the model follows the code. `read_nonblocking` is
documented with a positional `is_stderr`; the backend passes `stderr: true`, a hash, which is
truthy in that position. `poll` is documented to return nil on a timeout; it returns nil on EOF.

## Model

| member | source | states |
|---|---|---|
| Utf8.CountIsLengthIff | ext/libssh_ruby/scp.c:379 | a chunk has as many characters as bytes if and only if no well-formed multibyte sequence lies at any position in it |
| Utf8.SliceKeepsSingle | ext/libssh_ruby/scp.c:379 | cutting a piece out of a string never creates a multibyte sequence |
| Utf8.SplitCountsMore | ext/libssh_ruby/scp.c:379 | cutting a string in two never loses a character of the count |
| Utf8.MultibyteHeadIsEncoded | ext/libssh_ruby/scp.c:379 | a string starts with a character of several bytes if and only if it starts with the encoding (RFC 3629, section 3) of a code point from U+0080 on |
| Utf8.CountsCharacters | ext/libssh_ruby/scp.c:379 | the count of an encoded text is the number of its code points |
| TransferSpec.ReadChunk | ext/libssh_ruby/scp.c:364-383 | a read hands over the first unread bytes, never more than the limit |
| TransferSpec.FinishedMeansExact | lib/sshkit/backends/libssh.rb:164-176 | for every file and all turns what is written is a prefix of the file, and at the normal exit the whole file |
| TransferSpec.DownloadFinishesIff | lib/sshkit/backends/libssh.rb:169-174 | the loop leaves normally if and only if the file is empty, or its size fits a C int, a byte-exact reader exhausts it under the same turns, and no chunk holds a multibyte sequence |
| TransferSpec.LaggingNeverFinishes | lib/sshkit/backends/libssh.rb:170-173 | once fewer characters are counted than bytes read, no turns lead to the normal exit |
| TransferSpec.SpinsAfterLastByte | lib/sshkit/backends/libssh.rb:170-173 | behind the last byte a lagging loop writes nothing and never leaves normally |
| TransferSpec.NonEmptyReadsExhaust | lib/sshkit/backends/libssh.rb:170-174 | if every read returns at least one byte, \|file\| reads exhaust the file |
| TransferSpec.SingleByteFilesAlwaysFinish | lib/sshkit/backends/libssh.rb:170-174 | a file without multibyte sequences that fits a C int is downloaded under every chunking, in at most \|file\| non-empty reads |
| TransferSpec.ChunkingDecides | lib/sshkit/backends/libssh.rb:169-174 | byte by byte every file that fits a C int finishes; in one piece no file with a multibyte sequence does |
| TransferSpec.AccentNeverFinishes | lib/sshkit/backends/libssh.rb:173 | the concrete file that is never finished: U+00E9 in one chunk |
| TransferSpec.CountSandwich | lib/sshkit/backends/libssh.rb:173 | over every chunking that exhausts a file the final count lies between its characters and its bytes |
| TransferSpec.UploadExact | lib/sshkit/backends/libssh.rb:55-60 | chunks of 1 to BUFSIZ bytes, together a prefix of what the reader had left, and all of it when EOFError ends the loop |
| TransferSpec.AnnouncedIff | lib/sshkit/backends/libssh.rb:53-60 | a finished upload sends the announced number of bytes if and only if the reader started at offset 0 or has no content |
| TransferSpec.UploadEnds | lib/sshkit/backends/libssh.rb:55-60 | without a raising call the upload loop ends |
| TransferSpec.RoundTrip | lib/sshkit/backends/libssh.rb:48-64 | upload then download gives the same bytes back for every two independent chunkings under which both end normally |
| Returns.UploadReturns | lib/sshkit/backends/libssh.rb:48-64 | an upload returns if there are calls enough and none of them raises |
| Returns.UploadReturnsUnraised | lib/sshkit/backends/libssh.rb:48-64 | an upload that returned met no raising call |
| Returns.UploadCallReturns | lib/sshkit/backends/libssh.rb:48-64 | the same for the whole of `upload!`, the session included |
| Returns.ExactLoopIsExact | lib/sshkit/backends/libssh.rb:77-87 | the byte-exact download the loop is compared with takes the files before EOF, each of them whole |
| Returns.DownloadReturnsIff | lib/sshkit/backends/libssh.rb:77-87 | the request loop returns if and only if the byte-exact one does on the same turns, every file fits a C int, and no chunk of any file holds a multibyte sequence |
| Returns.ExactLoopReturns | lib/sshkit/backends/libssh.rb:77-87 | the byte-exact loop returns when EOF comes, no call raises, reads are not empty and there are calls enough |
| Returns.SingleByteDownloadsReturn | lib/sshkit/backends/libssh.rb:77-87 | under these conditions the loop itself returns when every file before EOF fits a C int and holds no multibyte sequence |
| Returns.UnfinishableFileRaises | lib/sshkit/backends/libssh.rb:169-174 | with one file before EOF that is never finished the loop does not return |
| Returns.WholeReadsReturnIff | lib/sshkit/backends/libssh.rb:77-87 | when each read hands over all that is left, the loop returns if and only if every file fits a C int and none holds a multibyte sequence |
| Returns.DownloadCallReturns | lib/sshkit/backends/libssh.rb:73-90 | the same sufficient condition for the whole of `download!`, the session included |
| Returns.DownloadCallRaises | lib/sshkit/backends/libssh.rb:73-90 | the whole of `download!` raises if some file before EOF is never finished |
| Transfers.LocalReader.ReadPartial | lib/sshkit/backends/libssh.rb:57 | the next 1 to BUFSIZ bytes, or the end exactly when nothing is left |
| Transfers.UploadLoop | lib/sshkit/backends/libssh.rb:55-60 | the loop as written sends exactly the chunks, and ends exactly as, the function of the turns says |
| Transfers.UploadBody | lib/sshkit/backends/libssh.rb:52-61 | the true size is announced before the first byte; what is sent is a prefix of the reader's rest, all of it on return; it returns exactly when Returns says |
| Transfers.UploadVia | ext/libssh_ruby/scp.c:128-138 | however the block ends the scp conversation is closed; a failed init is not; a complete one leaves exactly the four events of its script |
| Transfers.UploadFromPath | lib/sshkit/backends/libssh.rb:147-149 | the file is read from its start with its permission bits, and is closed outside the scp conversation, however that ends |
| Transfers.UploadLocal | lib/sshkit/backends/libssh.rb:142-151 | an IO-like local goes with mode 0644 from where it stands and no local file is opened or closed for it |
| Transfers.Upload | lib/sshkit/backends/libssh.rb:48-64 | all that was opened is closed and no wrong byte was sent; it returns exactly when Returns says, and then the whole rest was sent, the size and the mode (0644, or the file's own low 12 bits) were announced once, and the session is back in the pool |
| Transfers.CopyChunk | lib/sshkit/backends/libssh.rb:171-172 | one read and one write: the chunk is written whole or not at all |
| Transfers.CopyLoop | lib/sshkit/backends/libssh.rb:169-174 | the loop as written appends exactly the bytes, and ends exactly as, the function of the turns says |
| Transfers.TruncateAndCopy | lib/sshkit/backends/libssh.rb:158-160 | a path target is emptied first and then holds a prefix of the file, all of it on return |
| Transfers.CopyToPath | lib/sshkit/backends/libssh.rb:157-161 | the local file is closed however the copy ends, and not if it could not be opened |
| Transfers.DownloadFile | lib/sshkit/backends/libssh.rb:164-176 | accepted before the copy starts; on return the target has taken the whole file, otherwise it is untouched or begun with a prefix; an IO-like target has no file opened or closed |
| Transfers.Answering | lib/sshkit/backends/libssh.rb:78-86 | a NEWFILE is accepted and taken, a NEWDIR denied, anything else left without an answer |
| Transfers.HandleRequest | lib/sshkit/backends/libssh.rb:77-87 | one request is pulled and completely answered before the next |
| Transfers.DownloadLoop | lib/sshkit/backends/libssh.rb:77-87 | the loop refines the fold over the peer's requests: it returns exactly when Returns says, with all up to the first EOF answered and folded into the target; otherwise a prefix of the answers and an interrupted target |
| Transfers.FoldMeaning | lib/sshkit/backends/libssh.rb:153-162 | the fold leaves an IO-like target with all files appended in order and a path with the last file alone |
| Transfers.FoldModes | lib/sshkit/backends/libssh.rb:153-162 | a path was opened once for each file before EOF, with the mode announced for it, in order; an IO-like target never |
| Transfers.AnswersAreImmediate | lib/sshkit/backends/libssh.rb:77-87 | acceptances follow files and denials follow directories at once, each file and directory has its own, and nothing follows EOF |
| Transfers.PulledInOrder | lib/sshkit/backends/libssh.rb:77-87 | the requests are pulled in the peer's order, and exactly those up to the first EOF |
| Transfers.DownloadVia | lib/sshkit/backends/libssh.rb:75-88 | the same as the loop, with the conversation closed however it ends |
| Transfers.Download | lib/sshkit/backends/libssh.rb:73-90 | the same for the whole of `download!` over a session from the pool: it returns exactly when Returns says, from the turns, the session and the requests |
| Journal.StackIsOpenSet | ext/libssh_ruby/channel.c:138-142 | the stack of the nesting discipline is exactly the set of resources opened and not closed, oldest first |
| Journal.ClosingIsLifo | ext/libssh_ruby/scp.c:128-138 | whatever is closed was opened before, is closed once, and everything opened after it has been closed already |
| Journal.EmptyStackClosedOnce | lib/sshkit/backends/libssh.rb:142-162 | with nothing left open, each resource opened has exactly one opening and exactly one later closing, and nothing else was closed |
| Journal.IssuedWhileOpen | ext/libssh_ruby/channel.c:138-142 | calls are made only on resources that are open at that moment |
| Journal.SameFileEvents | lib/sshkit/backends/libssh.rb:143-145 | an unchanged count of file events means that no local file was opened or closed in between |
| Journal.OrderlyMeansPermitted | ext/libssh_ruby/channel.c:114-136 | every event of an orderly journal was permitted when it was issued |
| Journal.OpenedMeansReady | ext/libssh_ruby/channel.c:114-136 | a channel or scp conversation is opened only on a session that was connected, then known, then authenticated |
| Journal.ExitStatusIsSafe | ext/libssh_ruby/channel.c:467-489 | an exit status is asked for only on an open channel of a ready session, after the command was accepted on that channel |
| Environment.World.Open | ext/libssh_ruby/channel.c:124-136 | success makes the resource the innermost open one, failure opens nothing |
| Environment.World.Close | ext/libssh_ruby/channel.c:96-106 | the innermost resource is closed, even when the close call raises |
| Environment.World.AskExitStatus | ext/libssh_ruby/channel.c:477-489 | may be called only after acceptance of a command on the channel |
| Environment.World.ServerKnown | ext/libssh_ruby/session.c:493-501 | only the answer SERVER_KNOWN_OK is noted as such |
| Environment.World.UserauthPublickeyAuto | ext/libssh_ruby/session.c:598-608 | only the answer AUTH_SUCCESS is noted as such |
| Sessions.Configure | lib/sshkit/backends/libssh.rb:201-226 | all settings in order if none of these calls raises, otherwise a proper prefix |
| Sessions.Authorize | lib/sshkit/backends/libssh.rb:191-197 | returns exactly when the three calls do and answer SERVER_KNOWN_OK and AUTH_SUCCESS, with connected, known and authenticated in this order; otherwise a proper prefix |
| Sessions.CreateSession | lib/sshkit/backends/libssh.rb:183-199 | returns exactly when all its calls go well, and then its events are as SetUpMeans says |
| Sessions.SetUpMeans | lib/sshkit/backends/libssh.rb:183-226 | read off the events alone: one host, first; the user of the :user key or else the given one; the port if there is one; the default identity and then the keys in order; the default configuration, a file's, or none; nothing twice but identities; all before connecting, being known and authenticated |
| Sessions.Pool.CheckOut | lib/sshkit/backends/libssh.rb:178-181 | a session handed out was made ready, now or for an earlier call, and is no longer idle; no local file is touched; a new one is handed out exactly when `create_session` returns |
| Exec.Channel.Eof | ext/libssh_ruby/channel.c:366-371 | true exactly when EOF has come and both buffers are empty |
| Exec.Channel.Select | ext/libssh_ruby/channel.c:596-618 | returns only with data or EOF at hand, and has taken in a peer event unless there was some before |
| Exec.Channel.ReadNonblocking | ext/libssh_ruby/channel.c:331-357 | moves a prefix of one stream's buffer, nothing of the other; nil only at EOF with that buffer empty |
| Exec.Drain | lib/sshkit/backends/libssh.rb:123-133 | one read of one stream: delivered, buffered and in flight still make up the whole stream |
| Exec.PumpOnce | lib/sshkit/backends/libssh.rb:121-133 | both streams stay whole, and a pass strictly lowers peer events plus buffered bytes |
| Exec.Pump | lib/sshkit/backends/libssh.rb:120-134 | for every packet interleaving both streams stay whole at every exit and are delivered completely at the normal one, in chunks of 1 to BUFSIZ bytes; the loop ends, and normally if the peer sends EOF and no call raises |
| Backend.TakeStatus | lib/sshkit/backends/libssh.rb:136-137 | the status is the number in the journal's report, and nil for -1 |
| Backend.RunCommand | lib/sshkit/backends/libssh.rb:119-137 | the exit status is set only when both streams are complete, to the reported code, nil for -1 |
| Backend.PtyAndRun | lib/sshkit/backends/libssh.rb:116-119 | a PTY is requested before the command exactly when configured |
| Backend.OpenAndRun | ext/libssh_ruby/channel.c:138-142 | the channel is closed however the block ends; a completed command leaves exactly its script |
| Backend.ExecuteCommand | lib/sshkit/backends/libssh.rb:109-140 | the same for the whole of `execute_command` over a session from the pool: the status is the one code reported in its part of the journal; it returns if the peer sends EOF, a session is at hand and no call raises |
| Backend.Run | lib/sshkit/backends/libssh.rb:48-140 | for every sequence of commands, uploads and downloads, rescued or not: no outcome holds a wrong byte, and it holds all bytes if the call returned; an exit status is the one reported in the call's own part of the journal; transfers return exactly when Returns says; everything opened has been closed, and both disciplines held throughout |
| Lifetimes.StepKeepsInv | ext/libssh_ruby/channel.c:30-76 | the invariant of holders, handles and frees is kept by every allocation, initialization, dropped reference, mark and sweep step |
| Lifetimes.ReachableHandlesAreLive | ext/libssh_ruby/channel.c:37-42 | after every run a reachable holder is in place, the native session that created its handle has never been freed, and the Session it refers to is reachable |
| Lifetimes.MarkingIsComplete | ext/libssh_ruby/scp.c:34-39 | what the mark functions reach is closed under them and is the least such set with the roots in it |
| Lifetimes.FreesAreConserved | ext/libssh_ruby/session.c:39-46 | each session and scp is freed at most once; a channel is freed only with the session that created it, and with no other |
| Lifetimes.SweepFreesOwned | ext/libssh_ruby/scp.c:41-49 | sweeping a holder frees the native session or scp it holds, and no other |
| Lifetimes.NativesAreConserved | ext/libssh_ruby/session.c:31-63 | over every run each native session and scp ever created is in exactly one place: held, freed (once, by its own kind of free), or forgotten by initializing its holder again; a channel is freed exactly if its session is |
| Lifetimes.ScpsFreedInTimeIff | ext/libssh_ruby/scp.c:41-49 | over every run whose sweep is complete, each scp was freed before its native session if and only if the sweeps took Scps first |
| Lifetimes.ConflictOnlyInOneCollection | ext/libssh_ruby/scp.c:44 | an Scp still to be swept when its Session is swept was condemned by the same mark |
| Collector.Runtime.AllocHolder | ext/libssh_ruby/channel.c:30-35 | a fresh holder, rooted and without a native object |
| Collector.Runtime.SessionInitialize | ext/libssh_ruby/session.c:57-63 | binds a new native session, forgetting an earlier one without freeing it |
| Collector.Runtime.ChannelInitialize | ext/libssh_ruby/channel.c:66-76 | binds a new handle of that session's native session together with the Session, NULL for a NULL session |
| Collector.Runtime.ScpInitialize | ext/libssh_ruby/scp.c:63-86 | the same for an scp; a bad mode raises and changes nothing |
| Collector.Runtime.MarkHolder | ext/libssh_ruby/channel.c:37-42 | marks the session of a dependant exactly when its handle is not NULL |
| Collector.Runtime.MarkAll | ext/libssh_ruby/scp.c:34-39 | a worklist mark condemns exactly what cannot be reached |
| Collector.Runtime.SessionFree | ext/libssh_ruby/session.c:39-46 | frees the native session, if there is one, with exactly its channels, and the holder |
| Collector.Runtime.ChannelFree | ext/libssh_ruby/channel.c:44-54 | frees the holder and no native object |
| Collector.Runtime.ScpFree | ext/libssh_ruby/scp.c:41-49 | frees the native scp, if there is one, and the holder |
| Collector.Runtime.SweepOne | ext/libssh_ruby/channel.c:22-28 | dispatches to the holder's own free function: the native it holds is freed, no other is, and the invariant is kept |
| Collector.Runtime.Collect | ext/libssh_ruby/session.c:37-46 | a collection in any sweep order keeps exactly the reachable holders, unchanged, and frees exactly the native sessions and scps of the others |
| Forwarding.StepKeepsInv | example/local_forward.rb:32-56 | every step keeps both directions whole and in order, keeps the joins in order, and uses up work |
| Forwarding.ForwardingIsFaithful | example/local_forward.rb:32-56 | over every interleaving, failures included: prefixes of what was sent on both sides, EOF only behind the last byte, a normal close exactly after both pumps have ended, with everything across |
| Forwarding.RunsAreBounded | example/local_forward.rb:32-56 | no run is longer than 3 times the client's bytes plus 5 times the remote side's plus 8 |
| Forwarding.NeverStuck | example/local_forward.rb:32-56 | until the channel is closed some step other than a failure is possible |
| Forwarding.SomeoneMoves | example/local_forward.rb:32-56 | until the channel is closed the four threads are never all unable to step |
| Forwarding.MaximalRunsDeliver | example/local_forward.rb:32-56 | a run without failures that cannot go on has delivered both directions and closed normally |
| Pump.Forwarder.ReaderTurn | example/local_forward.rb:33-41 | each turn of the reader thread is a step of the transition system, and it never idles before it ends |
| Pump.Forwarder.WriterTurn | example/local_forward.rb:43-52 | each turn of the writer thread is a step, and it idles only while there is neither data nor EOF |
| Pump.Forwarder.OwnerTurn | example/local_forward.rb:54-56 | each turn of the owner is a join or the close, and it idles only when neither is possible |
| Pump.Forwarder.Turn | example/local_forward.rb:32-56 | a slot of a thread is a step of that very thread, and idles only if that thread can take none; it fails only if its call raises or its channel is gone |
| Pump.EveryPartIsARound | example/local_forward.rb:32-56 | the rounds counted in a schedule are at least the parts it can be cut into that hold all four threads each |
| Pump.Forward | example/local_forward.rb:32-56 | the threads as written, under any schedule, deliver in order, and a normal close means everything is across; with 3 times the client's bytes plus 5 times the remote side's plus 8 rounds the channel is closed, and if no call raised, normally with both directions complete |
| CArrays.WalkRecoversIff | ext/libssh_ruby/channel.c:574-581 | reading the array up to its first NULL gives a prefix of the channels, and all of them if and only if none is NULL |
| CArrays.SetSelectChannels | ext/libssh_ruby/channel.c:563-583 | a wrong type raises before anything is allocated; otherwise the array is the handles and a NULL, or NULL for the empty list |
| CArrays.Select | ext/libssh_ruby/channel.c:596-618 | a call that returns has freed each array it built exactly once; one that raises leaves exactly the arrays of the lists before the wrong one |
| CArrays.ProtocolOptions.SetProtocol | ext/libssh_ruby/session.c:222-249 | SSH1 is set iff 1 occurs and SSH2 iff 2 occurs; any other element raises before either option changes |

## Left out

- libssh itself, sockets, key exchange, cryptography and known_hosts: only the contract above.
- Releasing the interpreter lock around native calls, method registration, constants, `memsize`, error construction.
- Minor collections: the holders store the session without a write barrier, and the results are for full marks.
- Finalizers and `ObjectSpace`, which could bring an unreachable holder back.
- The other option setters, `userauth_list`, `Key`, version checks: they would only add easy members.
- SSHKit's pool, abstract backend and formatters; merging `host.ssh_options` with the configured ones; `File.dirname` and `File.basename` of the remote path.
- A `write` that stores part of its argument and then raises: here a raising write stores nothing.
- An `eof?`, `select` or read on which libssh reports success without progress for ever, as after an ignored `ssh_channel_select` error.
- `Channel.select` with a timeout, `Channel#read` with a timeout, `poll` of the error stream.
- The condition-variable start-up handshake of the forwarder, whose signal can come before the wait.
- What a pump does after its channel was closed under it by the other one's failure, except that its next call on the channel raises.
- Transfers.Download: the journal of a completed download is stated by its discipline, its answers and its target, not event by event.
- Backend.ExecuteCommand: how many calls it makes depends on the packets, so its return is stated for calls enough, not for the exact number as for the transfers.
- Environment.World.Open: an `open_session` on a session that has lost its connection is one of the failing opens, not a case of its own.
