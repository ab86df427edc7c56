# ClipFerry range transfer, verified

A Dafny model of ClipFerry's transfer of offered files between two paired
devices, with proofs. It covers the offer server and its sessions, the client
that resends after a lost connection, the stream and the whole-file download
that drain it, the capture and validation of the tree that is offered, the wire
formats, and two short concurrent protocols: creating the device identity and
pairing two devices. `dafny verify dfyconfig.toml` checks everything.

## How it is built

| file | contents |
|---|---|
| `Common.dfy`, `Bytes.dfy`, `Streams.dfy` | options and saturating subtraction; fixed-width numbers and UTF-8; a reader of arbitrary fragments and a writer that may fail |
| `Coverage.dfy` | the set of served ranges, as an object and as a set of offsets |
| `ServerModel.dfy` | the server as a value: one function for each region of code that runs under a lock |
| `ServerHistory.dfy`, `ServerInvariant.dfy`, `ServerRuns.dfy` | what any step leaves of the past; the invariant of every reachable state; theorems about whole runs |
| `ControlHistory.dfy`, `ServerGate.dfy` | what the applied controls make of a session's state; exactly what is held, refused and let through, step by step and while a session is paused |
| `Server.dfy` | the server as an object updated in place, each method proved equal to the function of its lock region |
| `Service.dfy` | one request served while other workers, the clock, clean-up and trust changes are interleaved |
| `Client.dfy`, `Remote.dfy`, `Fetch.dfy` | the recovery loop, the remote source, the stream cursor, the download |
| `Undisturbed.dfy` | what each kind of request comes to when nothing interferes, when a control of a source succeeds, and what reads, streams and downloads then give |
| `Paths.dfy`, `Manifest.dfy`, `Messages.dfy`, `Frames.dfy` | path rules and tree validator; manifest, request and reply payloads; the frame stream |
| `Tree.dfy`, `TreeWalk.dfy`, `WalkOrder.dfy`, `Capture.dfy`, `Offering.dfy` | the file system as a graph, the walk over it and its order, its recursive capture, and capture through to the receiver |
| `Offers.dfy` | local offers: publishing, revoking, first reads |
| `Identity.dfy`, `IdentityCreator.dfy` | identity creation by concurrent processes with crashes, and who is told that it created it |
| `Pairing.dfy`, `PairingRuns.dfy` | pairing messages, and all runs of two ends |

Threads are interleavings of atomic steps. A server worker between two lock
regions is an entry of the state that remembers what it has already checked, so
a control can land between the two halves of a read. The network is a script:
each sending is lost, fails for good, or is processed with its reply delivered
or lost. Files are immutable byte sequences; the clock is a natural number that
other steps may advance at any point.

## What comes out

- A stream read that succeeds returns exactly the file's bytes from the cursor,
  short only at the end of the file, whatever the network, pauses and other
  workers did, and the server has counted every byte of it. A failed read leaves
  the cursor where it was.
- When every sending is answered and the server's own source gives something each
  time, that read succeeds: short pieces, the last one included, are no failure
  (`Undisturbed.StreamExactly`), and a download then publishes the file.
- A lost request or response is sent again. The first sending that is answered
  answers the call, if every one before it failed recoverably and woke before the
  deadline; the server has then seen exactly those sendings. Time at the
  suspension gate uses up nothing of the recovery window (`Client.GateIsFree`).
- An uncancelled session is Completed if and only if some Complete it applied found
  it unpaused, and otherwise paused if and only if the last Pause or Resume it
  applied was a Pause (`ControlHistory.StateByControls`).
- A download publishes exactly the offered file, or the directory is as it was but
  for a partial file that the disk would not remove.
- Noting ranges in another order gives the same result *unless* one of the orders
  saturates, and the order can decide that: 8194 offsets in increasing order
  stay one range, while all even offsets first saturate the list
  (`Coverage.OrderCanSaturate`). Saturation is characterised exactly.
- A begin nonce is idempotent exactly until its session expires: before that a
  resend yields the same credentials and no session; later it opens a new one.
- An accepted tree survives encoding and decoding if and only if at least one
  whole millisecond of the offer is left; with less, the server sends a lifetime
  of zero, which the client refuses. An accepted manifest encodes back to the same bytes
  if and only if its absent times are zero.
- Of a finished tree walk the validator can refuse only names that are equal
  under case folding and directories that report a size.
- A finished walk comes out in one order, whatever order directories were read in:
  a directory before what is below it, siblings by folded name.
- The process whose link succeeded, and no other, is told that it created the
  identity. Creating it is safe at every crash point, but a process whose eight
  temporary names are all in use takes the identity for created and may find
  nothing. `Identity.MissingExactly` says when, and that it happens in no other
  way. Names hold the process id, so only calls of one process, or a process
  whose id is used again, can meet (`Identity.TakenByOwnId`).
- Trust is stored only if both users approved the same session. It is one-sided
  exactly when the other end's channel was cut, or its own storing failed, before
  it was done (`PairingRuns.MutualExactly`).
- A control that itself begins the transfer of a paused group takes its sequence
  number before the pause does, and is then refused as a replay. Where the server
  would take the control and every sending is answered, that is the only way it is
  refused so, and a cancelled group the only other way it fails
  (`Undisturbed.ControlExactly`).
- A duplicate of a processed control is harmless exactly while its peer is allowed
  or has no active session; otherwise it cancels those
  (`ServerRuns.DuplicateExactly`).

## Model

| member | source | states |
|---|---|---|
| Coverage.RangeCoverage.Note | src/clipboard/secure_transfer.rs:329-357 | sorting, sweeping and merging in place gives what inserting the one range into the canonical list gives, with saturation on overflow and beyond 4096 ranges |
| Coverage.SortMergeIsInsert | src/clipboard/loopback.rs:193-230 | the merged list is the unique canonical list of the same offsets, so the copy in the loopback prototype computes the same |
| Coverage.CanonicalUnique | src/clipboard/secure_transfer.rs:339-351 | sorted, non-empty, non-adjacent range lists with the same offsets are equal |
| Coverage.CanonicalSize | src/clipboard/secure_transfer.rs:353-356 | the summed lengths of such a list are the number of its offsets |
| Coverage.NoteAllMeaning | src/clipboard/secure_transfer.rs:329-357 | after any notes: unsaturated, the list is the union of the noted ranges and `unique_bytes` its size; saturated, a lower bound |
| Coverage.TotalFits | src/clipboard/secure_transfer.rs:353-356 | the sum of tracked lengths never exceeds u64 |
| Coverage.SaturatesExactly | src/clipboard/secure_transfer.rs:330-352 | saturated if and only if some noted range ended past u64 or at some moment the noted offsets formed more than 4096 runs |
| Coverage.SaturationIsFinal | src/clipboard/secure_transfer.rs:330-338 | after saturation no note changes anything |
| Coverage.OrderDoesNotMatter | src/clipboard/secure_transfer.rs:329-357 | two unsaturated histories end in the same object if and only if they cover the same offsets |
| Coverage.OrderCanSaturate | src/clipboard/secure_transfer.rs:348-352 | the same offsets in two orders, one saturating and one not |
| ServerInvariant.InvStep | src/clipboard/secure_transfer.rs:425-779 | every lock region, in any interleaving, keeps: nonces and live sessions in bijection with equal peer, offer, file and expiry; at most 64 active and 4096 held; the cancel counter equal to the number of cancelled sessions; each cover the union of its session's notes, all inside the file; no more progress than bytes served |
| ServerInvariant.InvRun | src/clipboard/secure_transfer.rs:425-779 | the same for every state of every run |
| ServerInvariant.NoncesCounted | src/clipboard/secure_transfer.rs:452-523 | the nonce table has exactly as many entries as the session table, in every reachable state at most 4096 |
| ServerInvariant.AuthenticatedRef | src/clipboard/secure_transfer.rs:525-549 | credentials are accepted only for a live, unexpired session with exactly these credentials, of this peer, who is allowed now |
| ServerGate.AuthenticateExactly | src/clipboard/secure_transfer.rs:525-549 | credentials are accepted if and only if the peer is allowed and they are those of an unexpired session of that peer; which refusal otherwise, counted as a denial unless expired; an allowed peer loses nothing |
| ServerHistory.RunLater | src/clipboard/secure_transfer.rs:425-779 | over any run sessions keep identity and expiry, Cancelled and Completed are never left, a cancelled session's coverage is frozen, sequence numbers only grow, and tables only lose what has expired |
| ServerRuns.FinalStates | src/clipboard/secure_transfer.rs:574-600 | Cancelled and Completed are absorbing and cancellation freezes coverage, over any run |
| ServerRuns.BytesAreChecked | src/clipboard/secure_transfer.rs:691-722 | bytes are returned only by the second lock region, with trust, expiry and state checked there, are the file's, and have just been counted |
| ServerRuns.CancelledInFlight | src/clipboard/secure_transfer.rs:686-722 | a read in flight when its session is cancelled returns no bytes and changes no session, however long after |
| ServerGate.GateExactly | src/clipboard/secure_transfer.rs:633-668 | one pass of the pause loop: passes on if and only if neither paused, cancelled nor expired; held if and only if paused, not timed out, allowed and unexpired; every refusal by an equivalence; a disallowed peer has the paused session cancelled and counted |
| ServerGate.SourceExactly | src/clipboard/secure_transfer.rs:670-689 | the source is read only for a peer still allowed, and exactly its failing is reported as a changed source |
| ServerGate.CommitExactly | src/clipboard/secure_transfer.rs:691-722 | delivers if and only if the peer is allowed and the session neither expired nor cancelled; every refusal by an equivalence; for a disallowed peer nothing is counted and an active session is cancelled and counted |
| ServerGate.PausedServesNothing | src/clipboard/secure_transfer.rs:633-722 | over any run in which a session stays paused and no read was past the gate, none gets past it and nothing is counted |
| ServerRuns.BeginExactly | src/clipboard/secure_transfer.rs:452-523 | exactly when a begin opens a session, answers from its nonce, is a replay, or finds the server full; an opening leaves its nonce on record naming the new session |
| ServerGate.CheckExactly | src/clipboard/secure_transfer.rs:436-451 | which begins pass the checks before the lock and why each other one is refused, as equivalences, with the denial counter |
| ServerGate.BusyExactly | src/clipboard/secure_transfer.rs:476-490 | a begin is refused as busy if and only if its nonce is unknown and, of the entries unexpired when it was checked, 64 are running or paused or 4096 are held |
| ServerRuns.BeginAgain | src/clipboard/secure_transfer.rs:459-475 | a begin resent at any later moment before expiry gets the same credentials with the time then left, and opens no session |
| Undisturbed.BeginServed | src/clipboard/secure_transfer.rs:436-523 | undisturbed, a begin with a new nonce and room for it yields a running session with the whole lifetime before it and no control applied |
| Undisturbed.BeginResent | src/clipboard/secure_transfer.rs:436-475 | undisturbed, a begin resent before its session expires yields the same credentials with the time left if and only if the peer is allowed and the offer has not expired |
| Undisturbed.ControlServed | src/clipboard/secure_transfer.rs:525-605 | undisturbed, a control on a live session of an allowed peer is refused as a replay if and only if its number is used up, and otherwise answered; a new one leaves the state that the law of `ControlHistory.ControlLaw` demands |
| Undisturbed.ReadServed | src/clipboard/secure_transfer.rs:620-723 | undisturbed, a read of a running or completed session delivers exactly `file[offset .. offset + n]` with n the least of what was asked, what the source gave and what there is, and counts it |
| ServerRuns.NoSecondSession | src/clipboard/secure_transfer.rs:459-523 | over any run in which a nonce's record has not expired, no begin with that nonce opens a session and the record stays |
| ServerRuns.AtMostOneSession | src/clipboard/secure_transfer.rs:452-523 | from the begin that opens a session until it expires, whatever happens, its nonce opens no other |
| ServerRuns.AppliedHistory | src/clipboard/secure_transfer.rs:551-605 | over any run the sequence numbers of the controls a session applies strictly increase, and it remembers the last of them |
| ServerRuns.ReplayExactly | src/clipboard/secure_transfer.rs:559-605 | the locked half of a control is refused as a replay if and only if its number is not above the last and it is not the last control again; otherwise it is answered and processed |
| ServerRuns.ReplayOverRuns | src/clipboard/secure_transfer.rs:551-605 | over any run from a session's begin, a control is a replay if and only if one with its number or a larger one was applied, other than itself as the last |
| ServerRuns.OvertakenByPause | src/clipboard/secure_transfer.rs:559-605 | over any run, a control whose number was taken just before a pause's, the session applying no other, is refused if and only if the pause was applied first |
| ControlHistory.ControlLaw | src/clipboard/secure_transfer.rs:574-605 | the states a new control can leave, each by an equivalence: Completed only from Completed or by Complete on Running, Paused by Pause on Running or kept unless resumed or cancelled, Running by Resume on Paused or kept by Resume, Cancelled from Cancelled or by Cancel on an active session; one more cancelled transfer in exactly that last new case; used-up numbers change nothing |
| ControlHistory.StateByControls | src/clipboard/secure_transfer.rs:551-605 | over any run that leaves an active session uncancelled: Completed if and only if some applied Complete found it unpaused, otherwise paused if and only if the last Pause or Resume applied was a Pause; if only controls cancel it, Cancelled if and only if some applied Cancel found it not completed |
| ServerRuns.DuplicateControl | src/clipboard/secure_transfer.rs:551-605 | inserting a duplicate of a processed control anywhere, its two halves at any distance, leaves the whole rest of the run unchanged but for two refusal counters, if the peer is allowed or has no active session |
| ServerRuns.DuplicateExactly | src/clipboard/secure_transfer.rs:739-779 | and only then: otherwise the duplicate alone cancels every active session of the peer |
| ServerRuns.DuplicateAnywhere | src/clipboard/secure_transfer.rs:551-605 | the same from the moment the original was answered |
| Undisturbed.DuplicateAfterRevocation | src/clipboard/secure_transfer.rs:739-779 | a duplicate that arrives after trust was withdrawn and cancels the paused session it was meant for |
| ServerRuns.Progress | src/clipboard/secure_transfer.rs:702-712 | a session's unique bytes never exceed its file size; equality means every offset was served, and conversely when unsaturated |
| ServerRuns.Conservation | src/clipboard/secure_transfer.rs:725-737 | in every state a server can reach, the sum over live sessions is at most the bytes served |
| ServerRuns.Counters | src/clipboard/secure_transfer.rs:452-523 | in every reachable state the tables are equally large, at most 4096, at most 64 sessions are active, and the cancel counter is the number of sessions ever cancelled |
| ServerRuns.ReachedProgress | src/clipboard/secure_transfer.rs:702-712 | in every reachable state no session reports more than its file, and one that reports all of it has served every offset |
| Server.ServerState.CancelPeerTransfers | src/clipboard/secure_transfer.rs:756-779 | the loop cancels exactly the active live sessions of the peer and counts each once |
| Server.ServerState.CountActive | src/clipboard/secure_transfer.rs:476-484 | the loop counts the Running and Paused sessions of the table |
| Server.ServerState.CleanUpExpired | src/clipboard/secure_transfer.rs:425-434 | drops exactly the sessions and nonces that have expired, with the new state in full |
| Server.ServerState.CheckBegin | src/clipboard/secure_transfer.rs:436-451 | first half of begin, equal to its specification |
| Server.ServerState.BeginTransfer | src/clipboard/secure_transfer.rs:452-523 | locked half of begin, equal to its specification |
| Server.ServerState.AuthenticatedSession | src/clipboard/secure_transfer.rs:525-549 | equal to its specification, error by error |
| Server.ServerState.Control | src/clipboard/secure_transfer.rs:559-605 | locked half of a control, equal to its specification, whose states are pinned by `ControlHistory.ControlLaw` |
| Server.ServerState.PassGate | src/clipboard/secure_transfer.rs:633-685 | one pass of the first region of a read and its pause loop, equal to its specification |
| Server.ServerState.CommitRead | src/clipboard/secure_transfer.rs:691-722 | second region of a read, running the sort-and-merge of the coverage object, equal to its specification |
| Service.Serve | src/clipboard/secure_transfer.rs:1110-1127 | a request served under arbitrary interleaving: the final state and reply are those of its lock regions with the others in between; the invariant holds, the past is kept, and the reply is true of the state it leaves: begun means a session with these credentials and this time left; a status means exactly this control is the last the session processed, with the state reported; bytes are a piece of the named file from the asked offset and are on record as served |
| Client.OfferClient.Exchange | src/clipboard/secure_transfer.rs:1837-1857 | an exchange that reaches the server and back gives exactly the server's reply; a lost one is recoverable, a broken one is not |
| Client.OfferClient.AfterFailure | src/clipboard/secure_transfer.rs:1732-1766 | what one recoverable failure counts, when it gives up, and the clock after it: the sleep ends after the delay or at the deadline, whichever is first, unless a cancel comes before that |
| Client.OfferClient.Pass | src/clipboard/secure_transfer.rs:1713-1766 | one pass in every one of its endings: cancelled without a sending; answered exactly with the reply that was delivered; given up for good exactly on a broken exchange; otherwise one failure and a sleep, with the clock, the deadline, the counters and what the sending made of the server |
| Client.OfferClient.CommandRecovering | src/clipboard/secure_transfer.rs:1699-1773 | the first sending that is answered, every earlier one having failed recoverably and woken in time, answers the call, and nothing else does; the server is then what exactly those sendings made of it; every pass but the last went on and the last did not, and its kind is the result; clock, deadline and all counters as the fold over the passes used |
| Client.GateIsFree | src/clipboard/secure_transfer.rs:1860-1879 | time at the suspension gate moves the clock and the deadline alike, so it changes nothing about which passes are in time |
| Client.BackoffStep | src/clipboard/secure_transfer.rs:1767-1769 | the first delay is the initial one and each next one twice that, up to the cap |
| Remote.MemorySource.ReadAt | src/clipboard/source.rs:28-43 | the reference source: the bytes from the offset, as many as there are and fit, and nothing else of the buffer changes |
| Remote.RemoteSource.Control | src/clipboard/secure_transfer.rs:1630-1641 | success means the server has processed exactly this control, however often it was sent |
| Remote.RemoteSource.SendControl | src/clipboard/secure_transfer.rs:2089-2094 | the next sequence number is taken before the credentials, and success means it was processed; it fails if it begins the transfer of a cancelled group, or of a paused one; when the sendings are answered the result is that of the specification below |
| Undisturbed.ControlExactly | src/clipboard/secure_transfer.rs:2002-2094 | when the sendings are answered undisturbed by a server that allows the peer and holds its live session or has room for one, a control of a source succeeds if and only if its transfer existed or the group is neither paused nor cancelled; it is refused as a replay if and only if it begins the transfer of a paused group that is not cancelled, and interrupted if and only if it begins that of a cancelled one |
| Undisturbed.ResumeRefused | src/clipboard/secure_transfer.rs:2089-2094 | such a refusal on a server that has just started, without any fault |
| Remote.RemoteSource.Complete | src/clipboard/secure_transfer.rs:2064-2080 | success means a Complete was the last control processed, or, once one was sent, that the status could be read |
| Remote.RemoteSource.BeginTransfer | src/clipboard/secure_transfer.rs:1559-1587 | success yields credentials of an existing session for this offer and file |
| Remote.RemoteSource.Credentials | src/clipboard/secure_transfer.rs:2002-2035 | a source begins once: afterwards it answers from its own credentials without touching the server; beginning in a cancelled group fails, and in a paused one leaves the session with a processed pause; when the sendings are answered, exactly the result and the server of the specification |
| Remote.RemoteSource.ReadRange | src/clipboard/secure_transfer.rs:1589-1619 | a non-empty answer is a piece of the file from the asked offset, all of it counted by the server; an empty answer is passed on only from a session that is not paused, and from a paused one it is asked again |
| Remote.RemoteSource.ReadAt | src/clipboard/secure_transfer.rs:2419-2474 | the remote source meets the same contract as the memory source, an error leaves the buffer untouched, and a cancelled group is interrupted without asking the server; when the sendings are answered, exactly the outcome of the specification below |
| Undisturbed.ReadExactly | src/clipboard/secure_transfer.rs:2419-2474 | when the sendings are answered undisturbed, of a session that may be read or that there is room for and a group not cancelled, a read gives exactly the least of the room, 256 KiB, what the server gave and what is left, with those bytes, and fails, as a read fault, if and only if that is nothing before the end; at the end the transfer is completed |
| Undisturbed.ShortFile | src/clipboard/stream.rs:46-82 | such a read of a three-byte file into five bytes on a server that has just started |
| Remote.VirtualStream.Read | src/clipboard/stream.rs:46-82 | end to end: success returns exactly `file[pos .. min(pos + n, size)]`, advances the cursor by that much, leaves the rest of the buffer alone, and the server has counted all of it; failure leaves the cursor; when the sendings are answered, exactly the outcome of the specification below |
| Undisturbed.StreamExactly | src/clipboard/stream.rs:46-82 | when the sendings are answered undisturbed, there are enough of them and the server never gives an empty piece before the end, a stream read succeeds with all that was wanted or the rest of the file |
| Remote.VirtualStream.Seek | src/clipboard/stream.rs:84-99 | the cursor moves exactly if the target fits u64 |
| Remote.VirtualStream.Clone | src/clipboard/stream.rs:251-259 | an independent cursor at the same place over the same source |
| Remote.DeliveredIsCovered | src/clipboard/secure_transfer.rs:702-712 | an offset that was delivered is in the noted ranges of its session |
| Fetch.PartialFileGuard.Drop | src/clipboard/runtime.rs:1252-1258 | an uncommitted partial file is removed unless the disk refuses |
| Fetch.Download | src/clipboard/runtime.rs:884-911 | the loop ends with the partial file equal to the whole offered file, or with an error and every other file untouched; with a disk that works and the sendings answered, exactly which |
| Fetch.FetchFile | src/clipboard/runtime.rs:877-926 | success adds exactly the output with the file's content; any error leaves the directory as it was, but for a partial file whose removal the disk refused; with a disk that works and the sendings answered, success if and only if the output and the partial file did not exist, the pieces came and the status could be read |
| Undisturbed.DrainExactly | src/clipboard/runtime.rs:897-907 | when the sendings are answered undisturbed, there are enough of them and the server never gives an empty piece before the end, the pieces of a download are the whole file |
| Bytes.DecodeEncoded | src/clipboard/secure_transfer.rs:1524-1527 | UTF-8 decoding undoes encoding for every string |
| Bytes.EncodeDecoded | src/clipboard/secure_transfer.rs:1524-1527 | only encodings are accepted as UTF-8 |
| Bytes.Utf8Bound | src/clipboard/secure_transfer.rs:1164-1167 | a string takes at most three bytes for each UTF-16 unit |
| Bytes.Utf8Examples | src/clipboard/secure_transfer.rs:1524-1527 | one character of each encoded length, byte by byte |
| Bytes.BigEndian | src/clipboard/secure_transfer.rs:2572-2581 | numbers of two, four and eight bytes are written most significant byte first |
| Bytes.LittleEndian | src/pairing.rs:63-83 | those of the pairing messages least significant byte first |
| Paths.ValidateTree | src/clipboard/data_object.rs:672-714 | accepted if and only if: 1 to 4096 entries, each path well formed and at most 64 deep, total length within limit, directories of size zero, no two equal when folded, every proper ancestor present as a directory; and of the two error codes, which |
| Paths.OrderDoesNotMatter | src/clipboard/data_object.rs:672-714 | acceptance is invariant under permutation |
| Paths.CheckAncestors | src/clipboard/data_object.rs:699-712 | the second loop finds out exactly whether all ancestors are present |
| Paths.AddEntry | src/clipboard/data_object.rs:680-698 | one pass of the first loop accepts exactly if all entries so far are proper, within the limit and distinct, and says which error otherwise |
| Paths.SplitChild | src/clipboard/local_file.rs:551-552 | a child path has its parent's components and one more |
| Manifest.Encode | src/clipboard/secure_transfer.rs:1129-1174 | what is sent is the manifest form, and it is sent exactly if that is within 1 MiB and every name within 65535 bytes |
| Manifest.RawSlices | src/clipboard/secure_transfer.rs:1129-1174 | where each field of an entry lies |
| Manifest.HeaderSlices | src/clipboard/secure_transfer.rs:1129-1174 | where each field of the header lies, and the entries behind it |
| Manifest.SizeBound | src/clipboard/secure_transfer.rs:1129-1174 | every accepted tree encodes within 29 + 4096 * 55 + 3 * 262144 bytes, below 1 MiB |
| Manifest.DecodeResponse | src/clipboard/secure_transfer.rs:1460-1548 | the cursor loop decides exactly the accepted inputs and returns their one meaning |
| Manifest.RoundTrip | src/clipboard/secure_transfer.rs:1460-1548 | an accepted tree with distinct identifiers is read back unchanged if and only if its lifetime is not zero |
| Manifest.DecodeMeaning | src/clipboard/secure_transfer.rs:1460-1548 | any accepted input is consumed exactly and is a valid tree with distinct identifiers and a lifetime |
| Manifest.Canonical | src/clipboard/secure_transfer.rs:1258-1270 | an accepted input is the encoding of its meaning if and only if absent times are zero |
| Messages.CredentialsRead | src/clipboard/secure_transfer.rs:1285-1308 | credentials are read back whatever follows them |
| Messages.CredentialSlices | src/clipboard/secure_transfer.rs:1285-1308 | where each of the five credentials lies |
| Messages.ReadSlices | src/clipboard/secure_transfer.rs:1589-1619 | a read request is the credentials, the offset in eight bytes and the length in four |
| Messages.DataSlices | src/clipboard/secure_transfer.rs:1201-1222 | a read answer is the status byte, the state, the unique bytes, the length and the data |
| Messages.WireNumbers | src/clipboard/secure_transfer.rs:2477-2537 | the numbers of the controls and statuses, and of the states (228-246), and that no others are read |
| Messages.RequestRoundTrip | src/clipboard/secure_transfer.rs:1176-1238 | the server reads every request as the client meant it |
| Messages.RequestUnique | src/clipboard/secure_transfer.rs:1176-1238 | and reads no other payload as that request |
| Messages.RequestOverTheWire | src/clipboard/secure_transfer.rs:1837-1857 | the same through the frame stream, whatever follows on the connection |
| Messages.ReplyRoundTrip | src/clipboard/secure_transfer.rs:1559-1619 | the client reads every reply as the server sent it, a remaining lifetime past u64 milliseconds being sent as the largest one |
| Messages.FittingRepliesArrive | src/clipboard/secure_transfer.rs:1837-1857 | every reply the served request can have in a reachable state reaches the client through the frame stream as that answer to that request |
| Frames.ReadFrameOptional | src/clipboard/secure_transfer.rs:2588-2611 | what is read, and how much is consumed, depends on the bytes alone; an end before the first byte is clean, later it is an error |
| Frames.WriteFrame | src/clipboard/secure_transfer.rs:2567-2581 | oversized payloads write nothing; a failing writer leaves a prefix of the frame |
| Frames.HeaderFields | src/clipboard/secure_transfer.rs:2567-2581 | where the version, the opcode, the request number and the length lie in a header, and that they are read back |
| Frames.ReadConnection | src/clipboard/secure_transfer.rs:1084-1107 | the request loop reads the same frames for any fragmentation |
| Frames.ParseAllConcat | src/clipboard/secure_transfer.rs:2588-2611 | encoded frames in front of any bytes are read off first |
| Frames.SelfDelimiting | src/clipboard/secure_transfer.rs:2567-2611 | a concatenation of encoded frames parses to those frames and a clean end |
| Frames.CutAnywhere | src/clipboard/secure_transfer.rs:2588-2611 | cut at any byte, exactly the complete frames are read, with a clean end if and only if the cut is between frames |
| Frames.NothingInvented | src/clipboard/secure_transfer.rs:2588-2611 | frames read from any bytes encode to a prefix of them, to all of them after a clean end |
| Tree.SentAttributes | src/clipboard/local_file.rs:623-636 | exactly the read-only, hidden, system, directory and archive bits are kept, each if and only if it was set; the normal bit stands for none of them and nothing else is sent |
| Tree.SortedOrders | src/clipboard/local_file.rs:545-550 | siblings are permuted into the order of folded names, then names |
| Tree.OrderUnique | src/clipboard/local_file.rs:545-550 | with distinct names that order is unique, whatever order the directory was read in |
| TreeWalk.WalkShape | src/clipboard/local_file.rs:502-564 | every entry of a walk that capture completes is well formed, at most 64 deep, and preceded by all its parents as directories |
| TreeWalk.WalkListsRoutes | src/clipboard/local_file.rs:502-564 | a walk that capture completes, on a graph with or without cycles, lists a place if and only if a route leads there that enters no directory twice |
| TreeWalk.WalkDescribes | src/clipboard/local_file.rs:345-375 | every entry of a walk is of a node of the file system and has that node's own size, attributes and times |
| WalkOrder.WalkInOrder | src/clipboard/local_file.rs:545-562 | over directories without repeated names, a finished walk is in the order of places: a directory before what is below it, and at the first difference the smaller folded name first |
| WalkOrder.ReadingOrderDoesNotMatter | src/clipboard/local_file.rs:545-550 | two file systems that differ only in the order directories are read in have the same walk |
| Capture.TreeCapture.CaptureEntry | src/clipboard/local_file.rs:502-564 | succeeds if and only if the walk meets nothing it must reject and fits the limits, appends exactly the walk, restores the set of active directories, and terminates by directories left to enter, not by depth |
| Capture.TreeCapture.CaptureChildren | src/clipboard/local_file.rs:551-562 | the same for the children of one directory |
| Capture.PrefixIsInside | src/clipboard/local_file.rs:423-434 | the textual overlap test holds if and only if one path's components properly continue the other's |
| Capture.CheckRoots | src/clipboard/local_file.rs:415-434 | passes if and only if all roots are Unicode and none is or contains another |
| Capture.CaptureForest | src/clipboard/local_file.rs:411-469 | succeeds exactly on capturable input and returns exactly the forest of walks |
| Capture.WalkMeetsValidator | src/clipboard/local_file.rs:458-460 | a finished forest within the limits is accepted if and only if no two names fold together and no directory has a size |
| Capture.ForestListsRoutes | src/clipboard/local_file.rs:438-457 | a captured forest holds exactly the places routes from its roots lead to |
| Capture.ForestDescribes | src/clipboard/local_file.rs:438-457 | every entry of a captured forest has its own node's size, attributes and times |
| Offering.CapturedTreeArrives | src/clipboard/local_file.rs:411-469 | whatever capture accepts is encoded within the limit and decoded to the same offer, if and only if some lifetime is left; entry by entry the receiver has the name, and the size, times and transferable attributes of the very node that was captured |
| Offers.FirstUseDecides | src/clipboard/local_file.rs:719-745 | in every run the first read alone decides a source's fate: too late exactly from revocation or expiry on, otherwise as the file opens |
| Offers.StartedStays | src/clipboard/local_file.rs:719-728 | a failed source fails for ever with its code, an open one stays open through revocation and expiry |
| Offers.StableFileSource.Context | src/clipboard/local_file.rs:719-745 | the method makes exactly that transition and reports exactly that code |
| Offers.StableFileSource.ReadAt | src/clipboard/local_file.rs:767-794 | exactly when a read succeeds; it then returns a whole piece and meets the contract of a source |
| Offers.LocalOfferRegistry.PublishTree | src/clipboard/local_file.rs:961-971 | every offer but the new one is revoked, no started source is disturbed, and the new sources are fresh |
| Offers.LocalOfferRegistry.RevokeCurrent | src/clipboard/local_file.rs:973-977 | every offer is revoked and no started source is disturbed |
| Identity.InvRun | src/device_store.rs:84-126 | the invariant of all runs: the final name leads only to a whole, synced, generated bundle; temporary files are private to their writers |
| IdentityCreator.Agreement | src/device_store.rs:84-113 | processes that return agree on one whole bundle, and one reports having created it if and only if it was its link that succeeded |
| Identity.NeverPartial | src/device_store.rs:520-561 | at every point of every run, crashes and loss of power included, a published file is whole and synced and readers hold a prefix of it |
| Identity.PublishedForever | src/device_store.rs:553-555 | once published the identity never changes |
| Identity.MissingOnlyWithoutName | src/device_store.rs:105-112 | after its own attempt a process finds no identity only if it never got a temporary name |
| Identity.GivesUpExactly | src/device_store.rs:530-560 | over any run, a process goes without a temporary name if and only if eight draws of it each met a name in use |
| Identity.MissingExactly | src/device_store.rs:84-113 | over any run, a process has failed for want of an identity if and only if at some point it looked for one after eight taken draws while none was published |
| Identity.TakenByOwnId | src/device_store.rs:530-540 | a draw meets a name in use only if another call with the same process id made it |
| Identity.EightCollisions | src/device_store.rs:530-560 | a run in which that happens with no failing call of its own: a name left by a crash, drawn eight times under a process id used again |
| Identity.LoadsAlone | src/device_store.rs:116-126 | undisturbed, any process that looks for a published identity gets it |
| IdentityCreator.LoneCreates | src/device_store.rs:84-113 | from any reachable state without a published identity, a new process with a free temporary name and a bundle within the limit, left alone, returns that bundle as created, with the final name leading to it, synced |
| Pairing.ReadHello | src/pairing.rs:85-118 | reads exactly the hello at the front of the bytes, for any fragmentation |
| Pairing.HelloRoundTrip | src/pairing.rs:63-118 | a hello is read back whatever follows, and refused where the other role is expected |
| Pairing.HelloParsed | src/pairing.rs:85-118 | only the encoding of a hello is read as it |
| Pairing.PreimageInjective | src/pairing.rs:342-351 | the hashed transcript determines both hellos and which is whose |
| Pairing.ExchangeProof | src/pairing.rs:359-371 | succeeds if and only if its proof was written and the peer's bytes begin with the same proof |
| Pairing.Confirm | src/pairing.rs:206-234 | stores trust if and only if this user approved, the peer's message carries this digest and an approval, and identity and store are intact; refused exactly when a valid decision lacks one approval |
| PairingRuns.InvRun | src/pairing.rs:206-371 | the invariant of both ends over all runs, with arbitrary hellos taken for the peer's |
| PairingRuns.CodesAgree | src/pairing.rs:353-357 | an end shows a code only if both hellos arrived unaltered, and it is the code the other end computes |
| PairingRuns.TrustNeedsBoth | src/pairing.rs:206-234 | an end stores trust only if both users approved, in the same session |
| PairingRuns.BothCanTrust | src/pairing.rs:206-234 | two ends that approve an undisturbed session can both store trust |
| PairingRuns.MutualExactly | src/pairing.rs:206-234 | over any run in which one end stored trust, the other has failed if and only if its own channel was cut before it had stored trust or its own storing failed; otherwise it can still store trust by itself |
| PairingRuns.OneMayTrustAlone | src/pairing.rs:227-234 | a run for either end in which it stores trust while the other fails |

## Left out

- Sockets, TLS, certificates, DPAPI, hashing, random generation, COM and the Windows file API: their results are parameters or assumptions named below.
- Remote.RemoteSource.SendControl: when a sending is lost, the failure in a paused group is stated for sessions with distinct credentials, which random draws give, and not which error it is.
- ServerRuns.DuplicateAnywhere: assumes that the same credentials were not issued to another session, which random draws give.
- Fresh identifiers: a transfer identifier in use is assumed not to be drawn again; the step that would draw it is not enabled. Capabilities and server nonces are arbitrary parameters.
- Status requests and the Internal and Timeout statuses of the server (a failed random draw, an expiry overflowing the clock, a poisoned lock).
- The connection loop checks trust once more before dispatching a request; the model has only the checks inside each operation.
- Transfer metrics are unbounded counters here, u64 counters with wrap-around there.
- Client.OfferClient.CommandRecovering: the passes, their lengths and their outcomes are a script, which may end early; the suspension gate is one wait of any length instead of a polling loop, and instants do not overflow.
- Remote.RemoteSource.ReadAt: the wait of a read while its group is paused, and the read counter, are left out; a cancelled group is checked as the source does after that wait.
- Pausing, resuming and cancelling groups of sources, their aggregated progress, and the registry of sources: presentation over the per-source operations modelled here.
- Liveness: that retries eventually succeed. The model shows what a success, or giving up, means.
- Fetch.FetchFile: no other program touches the directory meanwhile; how the status request at the end fails is a parameter; the SHA-256 printed after the download is not computed.
- Manifest.DecodeResponse: which message an error carries is not modelled.
- Capture.CaptureForest: which error is reported when several apply is stated only for excessive depth; the file system is one fixed graph during a capture.
- Case folding and sorting use parameters for Unicode lower-casing (per character for folding, whole strings for sorting), as the standard library's tables are not modelled.
- Offers.StableFileSource.ReadAt: read and byte counters are left out.
- Names and directory entries are assumed to survive a loss of power in `Identity.dfy`; contents survive only if synced. Other programs do not touch the directory, and decoding a bundle that was read whole succeeds.
- PairingRuns.TrustNeedsBoth: assumes the hash tells apart the two transcripts of this session, and that the channel pinned by the certificates is authenticated.
- Worker limits, connection timeouts, the accept loop and the wire handshake before the first request.
- The small fixed-layout codecs of discovery and settings, and all user interface.
