# Verified models of the relay, git, configuration and preview components

This Dafny project models the parts of the repository that keep state or
transform text in intricate ways, and proves what they promise. Each module
follows one component and takes its form: objects that change are classes,
loops are methods with invariants proved against specification functions, and
pure matches are functions. The claims about whole runs are lemmas about the
specification functions.

- **Relay channel** (`Protocol`, `SigningText`, `WsCrypto`, `WsIo`,
  `WsAnswers`, `RelayChannel`): frames are numbered and signed, native WebSocket
  messages are mapped to frames, and a byte stream runs over the signed socket.
  Each answer of a poll is characterised over what is queued. The layers refine one another up to "bytes read are a prefix of bytes written", over a
  network that may do anything but forge signatures.
- **Request signing** (`SigningService`, `SigningAnswers`, `Forgetting`): sessions
  with two lifetimes, nonces that are forgotten after 120 s, and a drift window of 30 s.
  Replay freedom is proved over all runs together with the exact delay up to
  which it holds, and forgetting is proved unobservable.
- **Tunnels**, **Shutdown** and **MessageQueue**: protocols over shared maps, one
  atomic step for each lock region, proved for every interleaving.
- **Squash merge** (`SquashMerge`): two implementations of one ref transition
  over a commit graph.
- **Editors that refine a simple update** (`Jsonc`, `Profiles`, `SshConfig` with
  `SshSections`, `NavStack`).
- **Parsers with a round trip** (`GitStatus`, `WorktreeList`, `RscRedirect`,
  `UrlToken`) and what they share (`Splitting`, `Decimal`, `Text`, `Utf8`).
- **Exit monitor** (`ExitMonitor`): which effects the end of an execution has.

Where a promise does not hold of the code as it stands, the lemma states exactly
when it does:

- Frame acceptance is a prefix of what was sent below 2^64 - 1 frames
  (`WsCrypto.PrefixSafetyIff`).
- Replay freedom holds up to 59 s and 1 ns between the two checks of one request
  (`SigningService.ReplayFreeIff`).
- Editing a JSONC file replaces its value if its numbers survive being written
  (an integer outside i64 is written as a double) and every repeated name has
  its new value already (`Jsonc.EditReplacesValue`).
- Forgetting shows in one answer: a badly signed request with a forgotten nonce
  is refused for its signature (`Forgetting.ForgettingIsUnobservable`).
- The bytes reported as written are those sent if no write is completed with
  other bytes, nor a flush, while a buffer is in flight
  (`RelayChannel.AccountedIff`).
- An agent's run can end without anything following it
  (`ExitMonitor.AgentsAreNotDropped`).
- Executions that end by themselves leave their cancellation token and monitor
  handle behind (`Shutdown.OnlyStopsTake`, `Shutdown.EndingLeavesBoth`).
- A worktree listing is read back if trimming takes nothing away
  (`WorktreeList.ListingIsRead`).
- Clearing the recent models of a built-in executor is saved as an empty record
  (`Profiles.RoundTrip`), which is the one entry that may equal its default.
- An SSH alias is disturbed by another's update if one has an indented `Host`
  line in a block of the other, or if the other is it with white space at the
  end (`SshConfig.UpdateIsMapUpdate`).
- A request text can coincide with a response text
  (`SigningText.RequestIsResponse`); frame texts are apart from both.
- The navigation script follows the browser if each page shown goes on from a
  state that leads to the browser's entries (`NavStack.RunRefines`). Within one
  storage key that means that the entries tried before the right one normalize
  apart from it and pages land where they were sent (`NavStack.SameKeyIff`); a
  page under a new key, or one that comes back as it was left, has lost its way
  but for the cases stated (`NavStack.EmptyKeyIff`, `NavStack.RestoredIff`).

Where comments and code differ the model follows the code: `spawn_exit_monitor`
says that it waits for persistence before it cleans up the message store, but
the store is finished first, and since nothing calls `store_db_stream_handle`
there is no handle to wait for (`Shutdown.NoStreamNoWait`). Its comment on
parallel setup scripts describes a narrower case than the one in which the
queue is taken.

The model makes these idealisations. Signatures are symbolic: only the holder of
a key makes one that verifies. SHA-256 with base64 is an injective text without
vertical bars. Every answer that comes from outside (transport, git, database,
clock readings) is a parameter, and every lemma holds for all of them.

`dafny verify dfyconfig.toml` checks the whole project.

## Model

| member | source | states |
|---|---|---|
| `RelayChannel.EndToEnd` | crates/relay-tunnel-core/src/ws_io.rs:51-127 | In every run, whatever both callers do and over every network (drop, repeat, reorder, alter, inject), the bytes read are a prefix of the bytes given to the far sink; with the buffered bytes they are exactly the payloads of the frames accepted so far. |
| `RelayChannel.AccountKeptIff` | crates/relay-tunnel-core/src/ws_io.rs:87-127 | One step keeps the account (bytes given to the sink are those reported as written plus the one buffer in flight) exactly if it does not, while a buffer is in flight, complete a flush or shutdown or complete a write of other bytes. |
| `RelayChannel.AccountedIff` | crates/relay-tunnel-core/src/ws_io.rs:87-127 | Over a whole run the account holds at every moment exactly if every step is of that kind. |
| `RelayChannel.ReadIsWritten` | crates/relay-tunnel-core/src/ws_io.rs:51-127 | With such a caller, and nothing refused by the transport, what is read is a prefix of what was reported as written plus the buffer in flight. |
| `RelayChannel.StepKeepsInvariant` | crates/relay-tunnel-core/src/ws_io.rs:51-127 | Every write, flush, read, arrival and foreign signature, with no condition on the caller, keeps the invariant that ties both counters, the queue, the buffers and the byte history together. |
| `RelayChannel.ReadConserves` | crates/relay-tunnel-core/src/ws_io.rs:51-77 | A `poll_read` moves bytes from the next frames to its buffer and the caller, and loses, repeats or adds none, whatever is in the queue. |
| `RelayChannel.WriteKeepsInvariant` | crates/relay-tunnel-core/src/ws_io.rs:87-111 | A `poll_write` of any bytes, with any answers from the transport, keeps that invariant. |
| `RelayChannel.NextFollowsFrames` | crates/relay-ws/src/signed.rs:135-160 | A `poll_next` that yields a message yields the payload of the very frame the sender numbered next; otherwise the counter stands still. |
| `RelayChannel.FlushBetweenPollsDuplicates` | crates/relay-tunnel-core/src/ws_io.rs:113-119 | What breaking the account means, in one run: a flush that completes between two polls of one write makes the buffer be sent twice while it is reported once. |
| `RelayChannel.ReadInOrder` | crates/relay-tunnel-core/src/ws_io.rs:51-77 | With in-order delivery, pings and pongs between the frames, each read into a non-empty room returns the next bytes, and at least one while any remain. |
| `RelayChannel.InOrderLosesNothing` | crates/relay-tunnel-core/src/ws_io.rs:51-77 | With in-order delivery, pings and pongs between the frames, enough reads into non-empty rooms of any sizes return every byte written, in order. |
| `WsIo.SignedWebSocket.PollNext` | crates/relay-ws/src/signed.rs:135-160 | The loop answers and leaves queue, end and counter as `Next` does, whose four answers `WsAnswers.NextIff` ties to the first item that is no ping or pong. |
| `WsIo.SignedWebSocket.StartSend` | crates/relay-ws/src/signed.rs:177-187 | The counter moves before the transport is asked, even when it refuses; an accepted message is the signed binary envelope at the new number. |
| `WsIo.WsMessageStreamIo.PollRead` | crates/relay-tunnel-core/src/ws_io.rs:51-77 | The draining loop gives result, socket state and buffer of `Read`, for any room; `WsAnswers.ReadIff` and `ReadBuffered` say which result that is. |
| `WsIo.WsMessageStreamIo.PollWrite` | crates/relay-tunnel-core/src/ws_io.rs:87-111 | Result, counter, outbox and `flushing` after one poll, for every answer to `poll_ready`, `start_send` and `poll_flush`. |
| `WsIo.WsMessageStreamIo.PollFlush` | crates/relay-tunnel-core/src/ws_io.rs:113-127 | A flush or shutdown clears `flushing` only when it completes. |
| `WsAnswers.NextIff` | crates/relay-ws/src/signed.rs:135-160 | The answer, by the first queued item that is no ping or pong: pending exactly without one on an open transport; ended exactly without one on a transport that has ended, or at a close; a message exactly if the item is the peer's encoding of it at the next number; failed exactly for any other item. That item is taken and no other, and the number is used up exactly if the item is the encoding of some frame. |
| `WsAnswers.ReadIff` | crates/relay-tunnel-core/src/ws_io.rs:51-77 | With an empty buffer and any room, past the messages without bytes: pending exactly if nothing else is queued on an open transport; end of file exactly at its end or a close; failed exactly at an item that carries no message; otherwise the first bytes of the first message that brings any. |
| `WsAnswers.ReadComesTo` | crates/relay-tunnel-core/src/ws_io.rs:51-77 | One of these four always is the case, and `WsAnswers.ComesToOne` says only one. |
| `WsAnswers.ReadBuffered` | crates/relay-tunnel-core/src/ws_io.rs:56-63 | With bytes buffered a read gives as many as there is room for and touches nothing else. |
| `WsAnswers.WriteIff` | crates/relay-tunnel-core/src/ws_io.rs:87-111 | Exactly when a write is ready, pending or failed, over the buffer, `flushing` and the three answers of the transport. |
| `WsAnswers.InFlightIff` | crates/relay-tunnel-core/src/ws_io.rs:87-127 | After a write `flushing` is set exactly if a message was started, now or before, and its flush has not completed. |
| `WsAnswers.RefusedIff` | crates/relay-ws/src/crypto.rs:114-156 | Which of its five errors a message is refused with, over the fields of the envelope: the first check it does not pass. |
| `WsCrypto.WsFrameSigner.Encode` | crates/relay-ws/src/crypto.rs:71-89 | The counter saturates upwards by one and the envelope is the one at the new number. |
| `WsCrypto.WsFrameVerifier.Decode` | crates/relay-ws/src/crypto.rs:114-156 | Accepts exactly the peer's encoding of some frame at the next sequence number; a refusal leaves `inbound_seq` as it was. |
| `WsCrypto.DecodeAccepts` | crates/relay-ws/src/crypto.rs:71-156 | A message decodes to a frame exactly if it is that frame's encoding at the next number on this session, nonce and key. |
| `WsCrypto.AcceptedWasSent` | crates/relay-ws/src/crypto.rs:114-156 | With ideal signatures, what is accepted was signed by the peer as its next frame on this session and nonce, not elsewhere. |
| `WsCrypto.ReceivePrefix` | crates/relay-ws/src/crypto.rs:114-156 | From any counter, whatever arrives, the accepted frames continue the sent ones. |
| `WsCrypto.ReceiveAll` | crates/relay-ws/src/crypto.rs:114-156 | A failed decode costs nothing: sent frames arriving in order among any other messages are all accepted. |
| `WsCrypto.ReceiveInOrder` | crates/relay-ws/src/crypto.rs:71-156 | In-order delivery works for any number of frames, beyond saturation too. |
| `WsCrypto.PrefixSafetyIff` | crates/relay-ws/src/crypto.rs:72-124 | Accepted frames are a prefix of the sent ones over every network exactly if fewer than 2^64 - 1 frames are sent; from there `saturating_add` lets the last one in again. |
| `Protocol.CloseRoundTrip` | crates/relay-ws/src/protocol.rs:31-75 | A close payload is empty or a big-endian code with a UTF-8 reason, both directions. |
| `Protocol.AxumRoundTrip` | crates/relay-ws/src/protocol.rs:22-76 | A frame reads as m exactly if it is the frame of m. |
| `Protocol.TungsteniteRoundTrip` | crates/relay-ws/src/protocol.rs:78-128 | The same for tungstenite, except that no frame reads as a raw frame. |
| `Protocol.RefusedFrames` | crates/relay-ws/src/protocol.rs:46-76 | Exactly which frames are refused, and with which of the three errors. |
| `Protocol.CodeIsBigEndian` | crates/relay-ws/src/protocol.rs:31-75 | Any two bytes before a reason read as the code 256 times the first plus the second, and only so. |
| `Protocol.BridgesAgree` | crates/relay-tunnel-core/src/ws_io.rs:180-211 | Crossing between the libraries keeps the frame, its readability and the error of every frame; only a raw frame does not come back. |
| `Utf8.DecodeEncode` | crates/relay-ws/src/protocol.rs:25-59 | Every text survives `as_bytes` and `from_utf8`. |
| `Utf8.EncodeDecode` | crates/relay-ws/src/protocol.rs:46-76 | Bytes that decode are the encoding of what they decode to, so overlong forms and surrogates are refused. |
| `SigningText.WsInputInjective` | crates/relay-ws/src/crypto.rs:174-187 | A frame's signed text determines session, nonce, number, type and payload. |
| `SigningText.WsInputFields` | crates/relay-ws/src/crypto.rs:174-187 | Split at its vertical bars, a frame's signed text is `v1`, session, nonce, number, the type's name and the digest. |
| `SigningText.RequestInputInjective` | crates/relay-control/src/signing.rs:33-44 | Two requests have one signed text exactly if timestamp, session, nonce, body and the text method, vertical bar, path agree; for methods without the bar that is every field, whatever the path holds. |
| `SigningText.RequestInputFields` | crates/relay-control/src/signing.rs:33-44 | A request's text is `v1`, timestamp, the parts of method and path, session, nonce and digest. |
| `SigningText.ResponseInputInjective` | crates/relay-control/src/signing.rs:76-89 | A response's signed text determines every field, with no condition. |
| `SigningText.ResponseInputFields` | crates/relay-control/src/signing.rs:76-89 | A response's text is `v1`, timestamp, status, the parts of the path, session, the two nonces and digest. |
| `SigningText.FramesAreSeparate` | crates/relay-ws/src/crypto.rs:174-187 | No request or response text is a frame text. |
| `SigningText.RequestIsResponse` | crates/relay-control/src/signing.rs:76-89 | Exactly when a request text is a response text, for any method; for a method without a vertical bar it is the status in decimal and the path is the response's path with the response's session as one more field. |
| `SigningService.DriftExact` | crates/relay-control/src/signing.rs:307-321 | The saturating i64 arithmetic never overflows and decides plus or minus 30 s exactly, for every i64 timestamp. |
| `SigningService.RelaySigningService.RegisterSession` | crates/relay-control/src/signing.rs:214-225 | The new session replaces whatever the identifier named, is live, and no other changes. |
| `SigningService.RelaySigningService.GetValidSession` | crates/relay-control/src/signing.rs:291-305 | Expired sessions are pruned, and the one asked for is found if it is among the rest; `SigningAnswers.LookUpsIff` says which are. |
| `SigningService.RelaySigningService.VerifyRequest` | crates/relay-control/src/signing.rs:228-262 | Answer and new table are those of `Verify`, whose five answers and effects `SigningAnswers.VerifyIff` and `VerifyLeaves` state in seconds. |
| `SigningService.RelaySigningService.GetSessionPeerKey` | crates/relay-control/src/signing.rs:265-277 | The key of a session if it is usable (`SigningAnswers.LookUpsIff`), without changing the table. |
| `SigningService.RelaySigningService.HasActiveSessionWithKey` | crates/relay-control/src/signing.rs:281-289 | The loop finds the key exactly if a usable session has it (`SigningAnswers.LookUpsIff`). |
| `SigningService.DriftWindow` | crates/relay-control/src/signing.rs:123-126 | A timestamp in drift at two moments confines them to less than 61 s (whole-second clock). |
| `SigningService.RemembersAccepted` | crates/relay-control/src/signing.rs:228-262 | Through any later run, an accepted nonce is still there, its session is gone, or 120 s have passed. |
| `SigningService.NoReplay` | crates/relay-control/src/signing.rs:228-262 | No request is accepted twice, in any run on once-registered sessions with at most 59 s and 1 ns between the two checks of one request. |
| `SigningService.ReplayRunReplays` | crates/relay-control/src/signing.rs:228-262 | Beyond that delay a concrete run accepts one request twice. |
| `SigningService.ReplayFreeIff` | crates/relay-control/src/signing.rs:123-126 | Replay freedom over all runs holds for exactly the delays up to 59 s and 1 ns. |
| `SigningAnswers.VerifyIff` | crates/relay-control/src/signing.rs:228-262 | Each of the five answers exactly: out of drift beyond 30 s; no session made at most 3600 s and used at most 900 s before; a nonce used at most 120 s before; no signature of the session's key over the request; otherwise accepted. |
| `SigningAnswers.VerifyLeaves` | crates/relay-control/src/signing.rs:228-262 | What a verification leaves of every session: unusable ones go if the table was looked at, keys and ages stay, and only an accepted request sets the last use and stores its nonce. |
| `SigningAnswers.VerifyLeavesNonces` | crates/relay-control/src/signing.rs:240-262 | The other nonces of the session stay exactly if used at most 120 s before. |
| `SigningAnswers.LookUpsIff` | crates/relay-control/src/signing.rs:265-305 | The look-ups by session and by key find exactly sessions made at most 3600 s and used at most 900 s before. |
| `SigningAnswers.FoundIff` | crates/relay-control/src/signing.rs:291-305 | Over any run: a session registered once is found exactly while it is at most an hour old and was last used, or made, at most 15 minutes ago, whatever was pruned in between. |
| `SigningAnswers.LastUseIsLast` | crates/relay-control/src/signing.rs:228-262 | The last use is the registration or an accepted request on the session, with no accepted one after it. |
| `SigningAnswers.AcceptedIff` | crates/relay-control/src/signing.rs:228-305 | Over any run: a request on such a session is accepted exactly if it is in its window and signed, the session is that young and that recently used, and no request accepted at most 120 s before used its nonce. |
| `SigningAnswers.ReplayFreeUpTo` | crates/relay-control/src/signing.rs:123-126 | The delay bound as a number: 59 000 000 001 ns. |
| `Forgetting.ForgettingIsUnobservable` | crates/relay-control/src/signing.rs:228-305 | With fresh nonces the pruning service answers every verification, peer-key and key-lookup call as one that never prunes, except exactly for a badly signed request in drift, on a live session, whose nonce was used more than 120 s before: the first refuses the signature, the other the nonce. |
| `Forgetting.ReasonsDiffer` | crates/relay-control/src/signing.rs:240-262 | That one difference does occur. |
| `Forgetting.TablesInStep` | crates/relay-control/src/signing.rs:214-305 | At every moment of every run the pruned table simulates the full one. |
| `Forgetting.VerifyInStep` | crates/relay-control/src/signing.rs:228-262 | One verification keeps the two tables in step, whenever in its turn each nonce is looked at. |
| `Tunnels.TunnelManager.CheckExisting` | crates/desktop-bridge/src/tunnel.rs:79-101 | The first lock region: a live tunnel for the caller's sessions is reused and nothing changes; otherwise no live one is left under the key, and no other key changes. |
| `Tunnels.TunnelManager.InsertTunnel` | crates/desktop-bridge/src/tunnel.rs:109-142 | The second lock region: afterwards the key holds a tunnel for the caller's sessions, the one found or the new one, and no other key changes. |
| `Tunnels.TunnelManager.CleanUpAfterExit` | crates/desktop-bridge/src/tunnel.rs:164-170 | Removes the entry only if it is still the task's own. |
| `Tunnels.RunKeepsInvariant` | crates/desktop-bridge/src/tunnel.rs:65-174 | Every interleaving of callers (dropped anywhere they wait) and finishing tasks keeps the invariant. |
| `Tunnels.EveryInterleaving` | crates/desktop-bridge/src/tunnel.rs:65-174 | No entry is cancelled; each key has at most one live tunnel; every tunnel made is in the map under its key, cancelled, or ended; every port handed out belongs to a tunnel with the caller's key and sessions. |
| `Tunnels.ReuseIff` | crates/desktop-bridge/src/tunnel.rs:79-142 | In every reachable state, at either look: a caller is given the map's tunnel exactly if there is one for its key with its two sessions, and then nothing changes; otherwise the one under the key, if any, is cancelled. |
| `Tunnels.OnePortPerKey` | crates/desktop-bridge/src/tunnel.rs:65-174 | Two callers for one key whose tunnels both live have been given one tunnel on one port. |
| `Tunnels.CleanUpOnlyItsOwn` | crates/desktop-bridge/src/tunnel.rs:163-170 | A clean-up removes its own entry if it is there and leaves every other one. |
| `Tunnels.CancelledStaysOut` | crates/desktop-bridge/src/tunnel.rs:98-141 | A cancelled tunnel is never in the map again. |
| `Tunnels.NothingLeaks` | crates/desktop-bridge/src/tunnel.rs:152-173 | With no caller between insertion and spawn, the live tasks are exactly the map's entries that have not ended. |
| `SquashMerge.GitService.GetBranchStatus` | crates/git/src/lib.rs:917-950 | Sizes of the two one-sided differences of ancestor sets; each is zero exactly if one tip reaches the other. |
| `SquashMerge.GitService.FindCheckoutPathForBranch` | crates/git/src/lib.rs:797-815 | The first worktree that has the branch; none exactly if no worktree has it. |
| `SquashMerge.GitService.PerformSquashMerge` | crates/git/src/lib.rs:1342-1386 | The in-memory path, with what each failure leaves behind. |
| `SquashMerge.GitService.MergeSquashCommit` | crates/git/src/cli.rs:646-662 | The command-line path in the base checkout, with what each failure leaves behind. |
| `SquashMerge.GitService.MergeChanges` | crates/git/src/lib.rs:818-916 | The whole transition is that of `Merge`: guard, staged changes, choice of path, both ref moves; `SquashMerge.MergeOkIff`, `GuardIff`, `CheckoutMergeIff` and `LooseMergeIff` give its answers. |
| `SquashMerge.NotBehindIff` | crates/git/src/lib.rs:830-839 | The guard passes exactly if the task branch contains the base tip. |
| `SquashMerge.MergeSucceeds` | crates/git/src/lib.rs:818-916 | On either path: one new commit, sole parent the old base tip, tree of the old task tip; both branches name it, no other ref moves, ahead/behind is (0, 0), the base gains that commit alone. |
| `SquashMerge.TaskHistoryIsReplaced` | crates/git/src/lib.rs:903-911 | The task branch still reaches its old tip exactly if it had no commit of its own. |
| `SquashMerge.PathsAgree` | crates/git/src/lib.rs:842-915 | Given success of the parts, both paths make the same transition exactly if the trees differ (git has nothing to commit otherwise). |
| `SquashMerge.MergeFails` | crates/git/src/lib.rs:818-916 | A failed merge moves no ref, except that the base may already name the squash commit when the last update fails. |
| `SquashMerge.MergeOkIff` | crates/git/src/lib.rs:818-916 | A merge succeeds exactly if both branches exist, the task contains the base tip, every step of git succeeds, and the base is checked out nowhere, or its first checkout has nothing staged and the trees differ. |
| `SquashMerge.GuardIff` | crates/git/src/lib.rs:830-839 | A missing branch and a base that has moved on are each refused exactly then, with the number of commits it is ahead, and nothing changes. |
| `SquashMerge.CheckoutMergeIff` | crates/git/src/lib.rs:842-880 | With the base checked out: each of the five errors exactly, staged changes first, and what it leaves. |
| `SquashMerge.LooseMergeIff` | crates/git/src/lib.rs:882-913 | With the base checked out nowhere: the same for its three errors. |
| `SquashMerge.BaseHistoryIsKept` | crates/git/src/lib.rs:818-916 | Over any run of commits, branchings and merges, a branch never merged away keeps every tip it had reachable. |
| `SquashMerge.AncestorsOfSquash` | crates/git/src/lib.rs:1371-1379 | The squash commit adds itself to its parent's history and nothing else. |
| `Jsonc.RemoveStale` | crates/executors/src/mcp_config.rs:136-149 | The removal loop drops exactly the properties whose names are gone, duplicates included. |
| `Jsonc.SetMember` | crates/executors/src/mcp_config.rs:151-162 | One member: merge two objects, else replace the value, else append. |
| `Jsonc.DeepMerge` | crates/executors/src/mcp_config.rs:135-163 | The recursive edit is the functional merge; it terminates on nesting depth. |
| `Jsonc.UpdateContent` | crates/executors/src/mcp_config.rs:120-131 | A file that does not parse or is no object starts from `{}`; a new value that is no object changes nothing. |
| `Jsonc.GetAfterMerge` | crates/executors/src/mcp_config.rs:135-163 | Each name leads to its old property with the value merged or replaced, and to nothing if it is gone; duplicate names allowed. |
| `Jsonc.LastAfterMerge` | crates/executors/src/mcp_config.rs:135-163 | What a parser reads for each name after the edit: the old last value if the name was repeated, else the merged or new one; nothing for names that are gone. |
| `Jsonc.MergeMeansWritten` | crates/executors/src/mcp_config.rs:135-190 | With unique names the edited tree means the new object at every depth, its numbers as they are written. |
| `Jsonc.WrittenMeansSame` | crates/executors/src/mcp_config.rs:165-190 | Writing keeps the meaning exactly if every number is an integer from -2^63 to 2^63 - 1 or is equal to its own rereading as a double. |
| `Jsonc.EditReplacesValue` | crates/executors/src/mcp_config.rs:120-190 | For any file, repeated names or not: the edit replaces the value exactly if, for each member, a repeated name already has the new value at its last property; two objects meet the condition inside; and any other value survives being written. |
| `Jsonc.UniqueNamesReplace` | crates/executors/src/mcp_config.rs:120-190 | With unique names that condition is that, at every depth, every number is such an integer or is equal to its own rereading. |
| `Jsonc.I64Replace` | crates/executors/src/mcp_config.rs:120-190 | So an object whose numbers are integers from -2^63 to 2^63 - 1 replaces the old one however doubles are read. |
| `Jsonc.NumberIsWritten` | crates/executors/src/mcp_config.rs:170-182 | A number is written as it is exactly in that range, and as a double otherwise. |
| `Jsonc.CommentsAreKept` | crates/executors/src/mcp_config.rs:133-163 | Comments are kept at every depth on every property whose path survives. |
| `Jsonc.OrderIsKept` | crates/executors/src/mcp_config.rs:135-163 | After the whole merge the names are those of the file that the new object has, in their order, and then the new ones in theirs. |
| `Jsonc.DuplicateNamesKeepTheOldValue` | crates/executors/src/mcp_config.rs:151-158 | A repeated name that is in the new object is read with its old value, whatever the new one is. |
| `Profiles.CanonicaliseProfile` | crates/executors/src/profile.rs:272-286 | For any order of keys: every name becomes canonical, a canonical name that was there wins, nothing else is lost or made up. |
| `Profiles.ExecutorConfigs.Canonicalise` | crates/executors/src/profile.rs:271-287 | The same for every executor in place; executors and recent models are untouched. |
| `Profiles.CanonicalNames` | crates/executors/src/profile.rs:271-287 | Names are canonical afterwards, and canonical profiles are fixed points. |
| `Profiles.Merge` | crates/executors/src/profile.rs:360-381 | The merge loop, for any order, is the pointwise merge. |
| `Profiles.FindDeletion` | crates/executors/src/profile.rs:389-409 | Finds an error exactly if a built-in executor or configuration is missing, and one that is. |
| `Profiles.ComputeOverrides` | crates/executors/src/profile.rs:384-455 | Fails exactly on a deletion; otherwise the loops give the pointwise difference. |
| `Profiles.RoundTrip` | crates/executors/src/profile.rs:360-455 | Merging the overrides gives the current configuration exactly if no default executor's recent models were cleared; those come back as an empty record. |
| `Profiles.OverridesAreMinimal` | crates/executors/src/profile.rs:411-452 | Nothing equal to its default is saved, with the one exception stated exactly. |
| `Profiles.OverridesAreLeast` | crates/executors/src/profile.rs:411-452 | Any overrides that merge to the current configuration hold each of these configurations and recent models. |
| `Profiles.SavingAgain` | crates/executors/src/profile.rs:335-455 | Saving what was loaded saves the same overrides, exactly outside that exception. |
| `Profiles.LoadAfterSave` | crates/executors/src/profile.rs:301-357 | Canonicalise, save, read, canonicalise, merge: the loaded configuration is the canonicalised one, exactly unless recent models were cleared. |
| `ExitMonitor.HandleExit` | crates/local-deployment/src/container.rs:549-739 | The nested branches produce the effects of the three-part log, in order; the lemmas below say over status, reason and exit code which effects those are. |
| `ExitMonitor.CommitAndGoOn` | crates/local-deployment/src/container.rs:568-610 | Commit, then next action or immediate finalization. |
| `ExitMonitor.EndChain` | crates/local-deployment/src/container.rs:612-694 | End of a chain: queued follow-up or finalization, and the unseen mark, as `ExitMonitor.FollowUpIff`, `FinalizeIff` and `UnseenIff` state. |
| `ExitMonitor.FinalizedOnce` | crates/local-deployment/src/container.rs:555-739 | For any `should_finalize`: finalized at most once, exactly under a stated condition, and never in a run that started a follow-up; the next action is started at most once. |
| `ExitMonitor.QueueTakenOnce` | crates/local-deployment/src/container.rs:628-739 | The queue is taken at most once, exactly under a stated condition. |
| `ExitMonitor.OnlyQueuedIsStarted` | crates/local-deployment/src/container.rs:631-739 | Only the message taken is started, at most once, and the turn is not marked unseen after that. |
| `ExitMonitor.BadEndIsFinal` | crates/local-deployment/src/container.rs:612-672 | A run that failed or was killed and ends its chain starts no follow-up, whatever is queued, and is finalized exactly once. |
| `ExitMonitor.FollowUpIff` | crates/local-deployment/src/container.rs:623-739 | A queued message is started exactly at the end of a chain that neither failed nor was killed, or when a setup script leaves no agent running. |
| `ExitMonitor.FinalizeIff` | crates/local-deployment/src/container.rs:568-672 | Finalized exactly if a successful agent changed nothing, or at the end of a chain unless a follow-up starts. |
| `ExitMonitor.CommitIff` | crates/local-deployment/src/container.rs:555-610 | The commit is tried exactly after a completed run with exit code 0 or a cleanup script that is over; the next action exactly then too, unless an agent changed nothing. |
| `ExitMonitor.TakenIff` | crates/local-deployment/src/container.rs:632-714 | The queue is taken exactly at the end of a chain, a bad one included, or when a setup script leaves no agent running. |
| `ExitMonitor.UnseenIff` | crates/local-deployment/src/container.rs:673-693 | Exactly when a turn is marked unseen. |
| `ExitMonitor.OrderOfEffects` | crates/local-deployment/src/container.rs:555-739 | The commit comes first, the next action directly after it, a follow-up directly after its message is taken, and the unseen mark last. |
| `ExitMonitor.ShouldFinalizeIff` | crates/services/src/services/container.rs:204-235 | `should_finalize` over reason, status and next action. |
| `ExitMonitor.AgentsAreNotDropped` | crates/services/src/services/container.rs:204-235 | With the service's `should_finalize`, an ended agent is finalized, followed up or handed on to a next action that starts, unless it completed with a next action and either had no exit code 0 or made changes after which that action failed to start. |
| `ExitMonitor.QueueIsLeft` | crates/local-deployment/src/container.rs:549-739 | Exactly when a queued message stays in the queue, for every execution, loaded or not, dev servers included. |
| `MessageQueue.EachStartsOnce` | crates/services/src/services/queued_message.rs:45-70 | Over every interleaving of queueing, cancelling and any number of monitors of a session, a message is held by at most one monitor and started at most once, and only when it no longer waits. |
| `MessageQueue.WithdrawnStaysOut` | crates/services/src/services/queued_message.rs:45-59 | A message that is cancelled or replaced while it waits is never started, whatever happens afterwards. |
| `MessageQueue.StaysOutOfPlay` | crates/services/src/services/queued_message.rs:45-70 | A message that neither waits nor is held stays so in every later run, and is not started again. |
| `MessageQueue.WithdrawingPutsOut` | crates/services/src/services/queued_message.rs:45-59 | Cancelling, or queueing another message, puts the waiting one out of play, and it has not been started. |
| `MessageQueue.QueuedIsTaken` | crates/services/src/services/queued_message.rs:45-70 | A queued message is the one the next monitor of its session to take the queue gets, whatever happens in other sessions in between, and it stays for a monitor that takes nothing. |
| `MessageQueue.QueuedMessageService.QueueMessage` | crates/services/src/services/queued_message.rs:46-54 | The new message replaces the one that is there. |
| `MessageQueue.QueuedMessageService.TakeQueued` | crates/services/src/services/queued_message.rs:57-70 | Finds and removes the session's message, and no other. |
| `Shutdown.Container.AddChildToStore` | crates/local-deployment/src/container.rs:201-204 | Stores the child; no other entry changes. |
| `Shutdown.Container.AddCancellationToken` | crates/local-deployment/src/container.rs:211-214 | Stores the token; no other entry changes. |
| `Shutdown.Container.AddExitMonitorHandle` | crates/local-deployment/src/container.rs:231-234 | Stores the monitor handle; no other entry changes. |
| `Shutdown.Container.TakeCancellationToken` | crates/local-deployment/src/container.rs:216-219 | Removes the token and says whether it was there; nothing else changes. |
| `Shutdown.Container.TakeExitMonitorHandle` | crates/local-deployment/src/container.rs:236-239 | Likewise for the monitor handle. |
| `Shutdown.Container.TakeDbStreamHandle` | crates/local-deployment/src/container.rs:226-229 | Likewise for the log-stream handle. |
| `Shutdown.Container.RemoveMsgStore` | crates/local-deployment/src/container.rs:1446-1448 | Who finds the store removes and finishes it. |
| `Shutdown.Container.RemoveChildFromStore` | crates/local-deployment/src/container.rs:206-209 | Removes the child; nothing else changes. |
| `Shutdown.RunKeepsInvariant` | crates/local-deployment/src/container.rs:1371-1462 | Every interleaving of the lock regions of a start, of monitors and of any number of stops keeps the invariant. |
| `Shutdown.EveryInterleaving` | crates/local-deployment/src/container.rs:211-239 | For each table at most one actor takes an execution's entry, and the entry is there exactly from when it is made until one does: so a store is finished at most once, and a log-stream handle, if one is stored at any time, is awaited by at most one side. |
| `Shutdown.TakesWhatIsThere` | crates/local-deployment/src/container.rs:1410-1455 | In every reachable state, who looks for an entry has it exactly if it was there, leaves none and touches no other; only a stop that has the token looks for the monitor's handle. |
| `Shutdown.NothingToStop` | crates/local-deployment/src/container.rs:795-805 | Whoever is past the removal of the store leaves one that was finished, by exactly one actor; whoever is over leaves no child. |
| `Shutdown.OnlyStopsTake` | crates/local-deployment/src/container.rs:1410-1429 | A token is left exactly if it was stored and no stop has taken it; a monitor handle is left whenever it was stored and the token is left or never was. |
| `Shutdown.EndingLeavesBoth` | crates/local-deployment/src/container.rs:791-805 | An execution that ends without a stop leaves its token and its monitor handle in the tables. |
| `Shutdown.EarlyStopMissesToken` | crates/local-deployment/src/container.rs:1374-1385 | A stop that looks for the token before it is stored leaves both behind although it succeeds. |
| `Shutdown.NoStreamNoWait` | crates/services/src/services/container.rs:1317-1322 | If no log-stream handle is ever stored, as in the code, nobody takes one and nobody waits for persistence. |
| `GitStatus.GetWorktreeStatus` | crates/git/src/cli.rs:231-288 | The loop gives the parse of the NUL-separated parts, and its counters are the counts over the entries. |
| `GitStatus.RoundTrip` | crates/git/src/cli.rs:231-288 | Parsing the rendering of any list of entries gives it back, even when an original path looks like a record. |
| `GitStatus.ParseRendered` | crates/git/src/cli.rs:244-281 | One rendered record, with anything after it. |
| `GitStatus.OddRecords` | crates/git/src/cli.rs:246-262 | A record of fewer than four bytes is passed over, and a rename or copy with nothing after it has no original path. |
| `GitStatus.ChangedAreCounted` | crates/git/src/cli.rs:263-281 | The tracked counter is the number of entries that are not untracked and whose codes are not both spaces. |
| `GitStatus.UnknownAreCounted` | crates/git/src/cli.rs:263-271 | The untracked counter is the number of untracked entries. |
| `WorktreeList.ListWorktrees` | crates/git/src/cli.rs:299-338 | The loop with its current-entry variables gives the recursive scan. |
| `WorktreeList.ListingIsRead` | crates/git/src/cli.rs:299-338 | The listing of any worktrees, bare or checked out, on a branch or detached, with any `locked` and `prunable` lines, reads as those that are checked out, in order, each with its own branch, exactly if no path or branch ends in white space and no path or commit is blank. |
| `WorktreeList.GitsNotes` | crates/git/src/cli.rs:311-328 | The lines `bare`, `detached`, `locked` and `prunable`, with any reason, are ones the reader passes over. |
| `Splitting.SplitField` | crates/git/src/cli.rs:244-245 | A field without the separator is split off whole, so fields never run together. |
| `Splitting.JoinSplit` | crates/preview-proxy/src/lib.rs:820 | Joining undoes splitting. |
| `NavStack.Script.EnsureCurrentInStack` | crates/preview-proxy/src/devtools_script.js:108-159 | The new stack and index in every mode, with the address at the index; the scan stops at the first match. |
| `NavStack.Script.LoadNavState` | crates/preview-proxy/src/devtools_script.js:53-79 | Stack and index as stored under the script's key, with entries that hold no address dropped and the index cut to the end. |
| `NavStack.Script.GetNavStorageKey` | crates/preview-proxy/src/devtools_script.js:17-35 | The key is the origin with the refresh parameter, or else with the pointer the last one left, which a refresh parameter replaces; without storage it is the default. |
| `NavStack.SessionOfPage` | crates/preview-proxy/src/devtools_script.js:17-35 | After any pages, a page's state is kept under its own refresh parameter, or else the last one of its origin, or else "default". |
| `NavStack.OpensAtSaved` | crates/preview-proxy/src/devtools_script.js:53-184 | A new document goes on from the stack that was saved, at the index that was saved or, if that is outside it, at its end. |
| `NavStack.Script.SaveNavState` | crates/preview-proxy/src/devtools_script.js:81-93 | The state is saved under the script's own key, and no other changes; nothing is saved where storage is denied. |
| `NavStack.Script.ObserveLocation` | crates/preview-proxy/src/devtools_script.js:161-168 | The index is in range and holds the observed address, and the state is saved under the script's key. |
| `NavStack.Script.InitializeNavigation` | crates/preview-proxy/src/devtools_script.js:170-184 | Whatever the storage held, the index is in range and holds the current address. |
| `NavStack.Script.Goto` | crates/preview-proxy/src/devtools_script.js:232-240 | The address is pushed and saved before the browser goes there. |
| `NavStack.ObservingAgain` | crates/preview-proxy/src/devtools_script.js:186-200 | Observing one change several times is observing it once. |
| `NavStack.StepRefines` | crates/preview-proxy/src/devtools_script.js:17-253 | After one event, in the same document, a new one that reads the landed page's storage, or an earlier one that comes back, the shown script follows the browser exactly if what it goes on from leads to the browser's entries. |
| `NavStack.ObservingLeads` | crates/preview-proxy/src/devtools_script.js:108-159 | From any state, observing an address gives a history exactly if the stack has its entries and finds the position first, or the address is new and follows. |
| `NavStack.SameKeyIff` | crates/preview-proxy/src/devtools_script.js:17-79 | In the same document, or a new one with the same key, an event is faithful exactly if the script can tell it from the browser's entries and the landed address. |
| `NavStack.EmptyKeyIff` | crates/preview-proxy/src/devtools_script.js:17-35 | A page loaded under a key with nothing stored (another refresh session or origin) is followed exactly if it is the only entry. |
| `NavStack.RestoredIff` | crates/preview-proxy/src/devtools_script.js:194-196 | A document left for a new page and brought back as it was follows exactly if that page is what its stack has ahead anyway. |
| `NavStack.FirstPage` | crates/preview-proxy/src/devtools_script.js:170-184 | A first page in a tab without storage starts out following. |
| `NavStack.GoToTold` | crates/preview-proxy/src/devtools_script.js:232-240 | From the browser's own state, a goto is followed exactly if the page lands on an address like the one sent, or, where the browser keeps the current entry, in the one case that takes the script back to it. |
| `NavStack.LocateJump` | crates/preview-proxy/src/devtools_script.js:129-152 | A jump's address is found at its entry exactly if it is like that entry and unlike those tried before it. |
| `NavStack.RunRefines` | crates/preview-proxy/src/devtools_script.js:17-253 | Over a run of pushes, replacements, jumps, visits, gotos and reloads, with redirects, changes of storage key and restored documents, the scripts of the pages shown follow the browser's history exactly if every event is faithful. |
| `NavStack.NeighboursMustDiffer` | crates/preview-proxy/src/devtools_script.js:129-142 | One step forward or back can be told exactly if the neighbours concerned normalize apart. |
| `NavStack.DistinctEntriesIff` | crates/preview-proxy/src/devtools_script.js:129-152 | From any position every jump can be told exactly if no two entries normalize alike. |
| `SshConfig.ReplaceHostBlock` | crates/desktop-bridge/src/ssh_config.rs:173-200 | The loop with its `skip` flag gives the kept lines and the new block. |
| `SshConfig.TakesOutExactly` | crates/desktop-bridge/src/ssh_config.rs:173-200 | A line goes exactly if there is one of the alias's at or before it with none after that, up to the line itself, that is another `Host` line or neither blank nor indented. |
| `SshConfig.EntrySays` | crates/desktop-bridge/src/ssh_config.rs:74-77 | The six lines of an entry, each with its field after its key word; `SshConfig.SaysOnce` says a line can be read in one way only. |
| `SshSections.KeptIsOthers` | crates/desktop-bridge/src/ssh_config.rs:178-196 | What is kept is the lines before the first block and every block that is not the alias's, whole and in order. |
| `SshSections.SectionsAreTheLines` | crates/desktop-bridge/src/ssh_config.rs:178-196 | Cutting a configuration into blocks loses no line. |
| `SshSections.ScanIsBodies` | crates/desktop-bridge/src/ssh_config.rs:183-193 | The settings the map speaks of are the non-blank lines of the alias's blocks. |
| `SshSections.OtherBlocksStayIff` | crates/desktop-bridge/src/ssh_config.rs:178-196 | Removing one alias's blocks leaves another's as they were exactly if neither has an indented `Host` line in a block of the other. |
| `SshConfig.UpdateIsMapUpdate` | crates/desktop-bridge/src/ssh_config.rs:66-86 | For any configuration. An alias that ends in no white space has exactly one block afterwards, with the new settings, and any other alias has the blocks it had, exactly unless the two are entangled by indented `Host` lines. For any other alias nothing is taken out, it has no block, and the new block goes to exactly the alias left when the white space is trimmed. |
| `SshConfig.UnindentedIsNotEntangled` | crates/desktop-bridge/src/ssh_config.rs:183-186 | With unindented `Host` lines no two aliases are entangled. |
| `SshConfig.LastUpdateWins` | crates/desktop-bridge/src/ssh_config.rs:66-86 | After any number of updates of a recognised alias: the other lines, one blank line for each entry replaced, and the last entry. |
| `SshConfig.EntriesPileUp` | crates/desktop-bridge/src/ssh_config.rs:173-200 | For an alias that is empty or ends in white space every entry written stays, after all the other lines. |
| `Text.LinesOfJoin` | crates/desktop-bridge/src/ssh_config.rs:178-195 | Lines that are written with newlines are read back by `lines`, but for a carriage return at the end of one. |
| `RscRedirect.RoundTrip` | crates/preview-proxy/src/lib.rs:759-826 | For every URL without a double quote, every allowed type and status, and every marker-free text before it within the size limit, the rendered digest is detected as it is. |
| `RscRedirect.DetectsIff` | crates/preview-proxy/src/lib.rs:766-826 | A body of any bytes is detected as a redirect exactly if it has at most 1 048 576 bytes and its first digest, after lossy decoding, is written as that redirect, of type push or replace, with status 301, 302, 303, 307 or 308 in any form `u16` parses. |
| `RscRedirect.DetectedIsHeld` | crates/preview-proxy/src/lib.rs:774-826 | Whatever is detected, its type and URL stand in the first digest. |
| `RscRedirect.ParseDigestIff` | crates/preview-proxy/src/lib.rs:787-826 | The split into parts recovers type, URL (with its semicolons) and status, both directions. |
| `RscRedirect.FindAfter` | crates/preview-proxy/src/lib.rs:774-776 | A pattern that does not overlap itself, as the marker, is first found right after any text free of it. |
| `Utf8.LossyDecode` | crates/preview-proxy/src/lib.rs:772 | On well-formed bytes `from_utf8_lossy` loses nothing. |
| `UrlToken.TrimWrappingQuotes` | crates/preview-proxy/src/lib.rs:130-146 | Takes off one pair of equal quotes, or nothing. |
| `UrlToken.TrimTrailingRedirectPunctuation` | crates/preview-proxy/src/lib.rs:148-157 | The loop drops all trailing white space, commas and semicolons in any mixture, and stops. |
| `UrlToken.NormalizeRedirectLikeUrlToken` | crates/preview-proxy/src/lib.rs:159-186 | The loop terminates and takes off every layer of quotes and punctuation. |
| `UrlToken.NormalizedIff` | crates/preview-proxy/src/lib.rs:159-186 | A value normalizes to a token exactly if it is that plain token in any nesting of quotes, white space and trailing punctuation. |
| `UrlToken.NormalizedOccurs` | crates/preview-proxy/src/lib.rs:159-186 | The token is a contiguous stretch of the value. |
| `UrlToken.NormalizedAgain` | crates/preview-proxy/src/lib.rs:159-186 | Normalizing is idempotent. |

## Left out

- Cryptography, base64, JSON syntax and UUID generation: idealised as described above; a malformed envelope, payload or signature is one case each.
- Sockets, TLS, yamux, hyper, SSH and SFTP servers, PTY, process spawning, filesystem and SQL: their answers are parameters of the steps.
- Async wakers and fairness: polls and lock regions are atomic steps, and nothing is claimed about liveness.
- `SignedWebSocket::send` and `recv`: the asynchronous twins of `start_send` and `poll_next`, with the same calls and the same skip loop.
- The axum instance of the byte stream: it differs from the tungstenite one in the message type alone; `Protocol.BridgesAgree` relates the two.
- tungstenite's enumeration of close codes: a close code is its u16 number, which both conversions keep.
- `run_tunnel_listener` and `bridge_tcp_to_relay`: a listener may end at any moment, which covers cancellation and a failed accept.
- Wall clock adjustments: the wall and monotonic clocks advance together, from any offset.
- `create_session`, `sign_request` and key files: `create_session` is a registration under a fresh identifier.
- libgit2 and git internals: commits form a numbered graph; merging a commit with its descendant gives the descendant's tree, and conflicts, hooks and failed ref updates are answers. Working trees are the set of checkouts with staged changes.
- Rebase, push, fetch, diffs and `parse_name_status` of crates/git: further operations of the same kind, without a round trip of their own.
- Jsonc.DeepMerge: works on tree values, so it does not capture that the library edits shared nodes in place.
- Jsonc.EditReplacesValue: how a double is written and read again is the parameter `reread`.
- Server adapters in mcp_config.rs: edits of one map entry each.
- Profiles.CanonicaliseProfile: `canonical_variant_key` is a parameter assumed idempotent; what Unicode case conversion does is not modelled.
- `validate_merged`: a presence check without effect on the result.
- ExitMonitor.HandleExit: analytics, remote synchronisation and the session summary are left out; they change neither the queue nor finalization. `should_finalize` is evaluated once.
- Jsonc.CommentsAreKept: the comments of a property are one text; comments inside arrays, and those that stand between properties, are not told apart.
- Shutdown.RunKeepsInvariant: database failures end a stop where it waits, and timeouts let it go on.
- WorktreeList.ListingIsRead: paths that hold a newline, which git prints over two lines.
- `touch`: a debounce over a time map.
- NavStack.Script.LoadNavState: a stored index is an integer; fractions in hand-edited storage are not modelled.
- SshConfig.UpdateIsMapUpdate: aliases and settings that hold a line break. Where lines end in a stray carriage return, an update drops it, and settings are compared without it.
- NavStack.StepRefines: which documents a browser keeps, and for which entries, is its own affair: any earlier document may come back at any jump.
- NavStack.Script.ObserveLocation: the message sent to the parent window is the counter `navSeq`; title and time are not modelled.
- `ensure_ssh_include` and key provisioning of ssh_config.rs: file handling.
- The other redirect rewrites of the preview proxy (Location, Refresh, Link headers): case analysis on header values around the token functions modelled here.
- The relay client retry ladder, `RelayControl`, manifest validation, provider detection and port allocation: easy once read.
- Three-way synchronisation described in the repository's README: its source is not part of this model.
