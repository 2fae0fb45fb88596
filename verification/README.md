# Protocol and state models of ASHA

ASHA is a remote-desktop platform: a connection proxy bridges browsers to guacd, agents capture
what observed desktops show, an API issues tokens and reviews account requests, and a web client
turns touches into mouse input. This project models the parts of it that are hardest to get right
and proves what they promise over every input and every run.

Each module has the same shape. Pure functions say what the component means: the reading of a
whole text, the frames of a whole byte string, or one step of a state. A class holds the fields
the code updates in place, and each of its methods is proved equal to that meaning. Lemmas then
prove properties of whole inputs and whole runs. Automatic induction is switched off on every
lemma, so each inductive step is written out.

- `Utf16Text`, `JsNumber`, `Sequences`: text as UTF-16 code units, decimal numbers, code points, what
  `Number` makes of a text, and concatenated chunks.
- `GuacProtocol`, `GuacRoundTrip`, `GuacChunking`: the Guacamole encoder and the incremental
  parser; what encoding and parsing undo; independence of how the network cuts a stream.
- `GuacBoundary`, `GuacBridge`, `ObserverPath`: the fast boundary scan, the guacd-to-browser bridge
  with its backpressure, and the filter on what an observer may send.
- `UuidRegistry`: which live connection of a session can be joined.
- `ExecDemux`: the demultiplexer of an attached Docker exec.
- `ObservationRunner`: the agent's capture windows, timers and captures in flight.
- `RefreshTokens`: refresh-token rotation by family (section 5.2.2.3 of RFC 6819).
- `AccountRequests`: account requests and their racing reviewers.
- `TouchInput`: touches to mouse states, and the wheel.
- `WindowLedger`: the live wall's ledger of observation windows.
- `LocaleMerge`: the deep merge of translations over English.

Where the code and its comments differ the model follows the code. The codec's header says that
LENGTH counts characters; the encoder does count code points, but the parser and the boundary scan
count UTF-16 units. Encode-then-parse is therefore false on surrogate pairs, and
`GuacRoundTrip.EncodeThenParse` says exactly when it holds; for a reader that counts characters,
as guacd does, `GuacRoundTrip.EncodeThenGuacdReads` proves it on all texts. Likewise a stream may
be thrown off or not depending on where it is cut, because the ceiling on pending data is applied
after each chunk: `GuacChunking.ChunkingIndependence` and `GuacChunking.DeliveredInAnyChunks` say
exactly for which streams it cannot happen, and `GuacChunking.CutMatters` has one for which it does.
Seven more properties hold only under a condition, which is proved with an input that misses it: the
end of the boundary scan (`GuacBoundary.ScanEndsExactly`, `GuacBoundary.NegativeLengthLoopsForEver`),
a clear of the joinable uuid made of two store operations (`UuidRegistry.DeleteAfterRead`,
`UuidRegistry.ReconnectLosesItsUuid`), a refresh made of a read and a write
(`RefreshTokens.InterleavedRefreshes`, `RefreshTokens.TwoReadsBeforeAWrite`), the password an
approval carries over (`AccountRequests.CurrentUnlessSubmittedAnew`,
`AccountRequests.StaleHashApproved`), the ceiling on pending requests
(`AccountRequests.CeilingHoldsExactly`, `AccountRequests.RevivalPassesTheCeiling`), a button let go
when its finger lifts while another one rests on some other element
(`TouchInput.NothingStaysPressed`, `TouchInput.FingerElsewhereKeepsLeft`), and English text lost
under a translation of another shape (`LocaleMerge.EveryTextSurvives`,
`LocaleMerge.TextOverObjectLoses`).

## Model

| member | source | states |
|---|---|---|
| Utf16Text.ToNatDecimal | apps/connection-proxy/src/handlers/guac-protocol.ts:16-91 | Reading the decimal length prefix the encoder prints gives the number back. |
| Utf16Text.CodePointsVersusUnits | apps/connection-proxy/src/handlers/guac-protocol.ts:16-98 | The encoder's count of code points and the parser's count of units agree exactly on text without a surrogate pair. |
| GuacProtocol.ParseStreamAppend | apps/connection-proxy/src/handlers/guac-protocol.ts:56-72 | Appending text to an unbroken stream adds exactly the instructions read from the unfinished tail plus that text; nothing read earlier changes. |
| GuacProtocol.ParseStreamBroken | apps/connection-proxy/src/handlers/guac-protocol.ts:56-111 | A stream that cannot go on stays broken at the same place for the same reason, whatever follows. |
| GuacProtocol.RestIsIdle | apps/connection-proxy/src/handlers/guac-protocol.ts:66-71 | What is left after a push holds no complete instruction. |
| GuacProtocol.GuacamoleParser.constructor | apps/connection-proxy/src/handlers/guac-protocol.ts:48-49 | A new parser buffers nothing. |
| GuacProtocol.GuacamoleParser.Push | apps/connection-proxy/src/handlers/guac-protocol.ts:56-72 | A push returns the instructions of the one-shot reading of buffer plus chunk and keeps its unfinished tail; it throws and drops everything exactly on a fault or a tail past the ceiling. |
| GuacProtocol.GuacamoleParser.ParseOne | apps/connection-proxy/src/handlers/guac-protocol.ts:78-105 | On every buffer the cursor loop ends, with the first instruction of the buffer, with "not all here yet", or with the right fault and an emptied buffer. |
| GuacProtocol.GuacamoleParser.Fail | apps/connection-proxy/src/handlers/guac-protocol.ts:108-111 | Giving up drops what is buffered. |
| GuacRoundTrip.EncodeThenParse | apps/connection-proxy/src/handlers/guac-protocol.ts:15-18 | Parsing the concatenated encodings returns the same instructions with nothing left over if and only if every element is free of surrogate pairs and at most MAX_PENDING long, whatever separators the values contain. |
| GuacRoundTrip.ParseBehindEncoded | apps/connection-proxy/src/handlers/guac-protocol.ts:15-105 | Encoded instructions are read back in front of any further text, which is then read as it would be alone. |
| GuacRoundTrip.PairIsLost | apps/connection-proxy/src/handlers/guac-protocol.ts:16-98 | A concrete value with a surrogate pair does not come back. |
| GuacRoundTrip.EncodeThenGuacdReads | apps/connection-proxy/src/handlers/guac-protocol.ts:4-18 | A reader that counts characters, as the protocol defines LENGTH, gets back every list of instructions, surrogate pairs included. |
| GuacChunking.FeedParser | apps/connection-proxy/src/handlers/guac-protocol.ts:56-72 | The parser object fed chunk by chunk until one throws delivers what successive pushes are specified to deliver. |
| GuacChunking.FeedExactly | apps/connection-proxy/src/handlers/guac-protocol.ts:56-105 | A connection is thrown off if and only if the text up to some chunk end has a fault or too long a tail; otherwise the instructions delivered are those of the whole text and the buffer is its unfinished tail. |
| GuacChunking.AnyChunking | apps/connection-proxy/src/handlers/guac-protocol.ts:56-105 | A text in which one reading finds no fault and no instruction, or unfinished tail, too long to wait for is read the same under every chunking, and no push throws. |
| GuacChunking.ChunkingIndependence | apps/connection-proxy/src/handlers/guac-protocol.ts:56-105 | No chunking of a text throws if and only if one reading finds no fault, no instruction of more than MAX_PENDING units before its semicolon and no longer tail; all chunkings then deliver the same. |
| GuacChunking.DeliveredInAnyChunks | apps/connection-proxy/src/handlers/guac-protocol.ts:32-105 | Every way of cutting an encoded stream delivers exactly the instructions sent if and only if each element is sendable and each encoded instruction is at most one unit over MAX_PENDING. |
| GuacChunking.LateSemicolon | apps/connection-proxy/src/handlers/guac-protocol.ts:66-71 | Any sendable instruction more than one unit over MAX_PENDING is delivered in one chunk and thrown off when cut before its semicolon. |
| GuacChunking.CutMatters | apps/connection-proxy/src/handlers/guac-protocol.ts:66-71 | A concrete text that one chunk delivers and two chunks do not. |
| GuacBoundary.CompleteInstructionsLength | apps/connection-proxy/src/handlers/guacamole.ts:181-207 | On every text on which the nested loops end, they answer where the last instruction they completed ends; with no negative length that is the leading run of whole instructions. |
| GuacBoundary.ScanEndsExactly | apps/connection-proxy/src/handlers/guacamole.ts:184-204 | Both loops together end if and only if they never come back to a position, and then within one turn for each position of the text. |
| GuacBoundary.ForwardScan | apps/connection-proxy/src/handlers/guacamole.ts:184-204 | With no negative length prefix ahead the loops end, at the last boundary. |
| GuacBoundary.BackwardYetEnds | apps/connection-proxy/src/handlers/guacamole.ts:191-201 | On a concrete text with a negative length prefix the loops end all the same. |
| GuacBoundary.NegativeLengthLoopsForEver | apps/connection-proxy/src/handlers/guacamole.ts:184-204 | On one concrete text with a negative length prefix the inner loop never ends, on another the outer one. |
| JsNumber.IntegralOfDigits | apps/connection-proxy/src/handlers/guacamole.ts:191 | `Number` reads a run of digits as the decimal number the parser reads. |
| GuacBoundary.BoundaryIsMaximal | apps/connection-proxy/src/handlers/guacamole.ts:169-207 | The prefix found consists of whole instructions only, and no longer prefix does. |
| GuacBoundary.BoundaryAppend | apps/connection-proxy/src/handlers/guacamole.ts:181-207 | Scanning on behind the boundary once more text has come is scanning the whole text again. |
| GuacBoundary.BoundaryIsConsumed | apps/connection-proxy/src/handlers/guacamole.ts:169-207 | On every text the scan reaches at least as far as the strict parser consumes, and exactly as far unless the parser gave up on a length prefix. |
| GuacBoundary.ReadableGoesForward | apps/connection-proxy/src/handlers/guacamole.ts:188-191 | A stream the parser accepts has no negative length wherever the scan looks. |
| GuacBridge.GuacConnection.constructor | apps/connection-proxy/src/handlers/guacamole.ts:331-343 | A connection starts with nothing pending, sent, published or paused. |
| GuacBridge.GuacConnection.OnGuacdData | apps/connection-proxy/src/handlers/guacamole.ts:402-443 | If its scan ends, a data event sends what the scan found as one frame, keeps the rest, picks the uuid out of the first frame of an owner's connection, and applies backpressure. |
| GuacBridge.GuacConnection.ReadUuid | apps/connection-proxy/src/handlers/guacamole.ts:415-435 | The uuid is the first argument of the first `ready` in the frame without its dollar sign, or nothing if the frame cannot be read or names none. |
| GuacBridge.GuacConnection.PauseIfBehind | apps/connection-proxy/src/handlers/guacamole.ts:312-327 | Past the high-water mark an unpaused guacd is paused and the drain timer armed; nothing else changes. |
| GuacBridge.GuacConnection.OnTimerTick | apps/connection-proxy/src/handlers/guacamole.ts:315-326 | A tick resumes guacd and disarms the timer once the queue is below the low-water mark, and only disarms it when the browser is gone. |
| GuacBridge.GuacConnection.OnDrained | apps/connection-proxy/src/handlers/guacamole.ts:313-325 | The browser socket's queue shrinks by what it sent. |
| GuacBridge.GuacConnection.OnBrowserClosed | apps/connection-proxy/src/handlers/guacamole.ts:586-601 | A closing browser disarms the timer and forgets the published uuid. |
| GuacBridge.GuacConnection.Serve | apps/connection-proxy/src/handlers/guacamole.ts:398-443 | Over every run whose scans end the object does what the step functions say. |
| GuacBridge.ForwardScansEnd | apps/connection-proxy/src/handlers/guacamole.ts:402-405 | If no length in guacd's stream is negative, every scan of every chunking of it ends. |
| GuacBridge.FaithfulRun | apps/connection-proxy/src/handlers/guacamole.ts:403-442 | From any faithful state and over every run with the browser open and no negative length, frames sent plus text held back stay equal to the text received, frames stay whole, and nothing whole is held back. |
| GuacBridge.NothingLost | apps/connection-proxy/src/handlers/guacamole.ts:403-442 | Over every run with the browser open whose scans end, whatever the lengths, frames sent plus text held back stay equal to the text received. |
| GuacBridge.NothingLostOrSplit | apps/connection-proxy/src/handlers/guacamole.ts:398-442 | Over every chunking of a stream without negative lengths the frames sent and the pending text concatenate to the text received, every frame is a non-empty run of whole instructions, and every whole instruction received has been sent. |
| GuacBridge.BrowserSeesTheStream | apps/connection-proxy/src/handlers/guacamole.ts:174-180 | A browser that parses every frame by itself sees exactly the instructions of guacd's stream, and no frame leaves it a remainder. |
| GuacBridge.PublishedWhateverTheChunks | apps/connection-proxy/src/handlers/guacamole.ts:335-426 | If guacd's stream starts with `ready`, the owner's connection publishes its uuid whatever the chunking, and a joiner publishes nothing. |
| GuacBridge.OwnerPublishesTheId | apps/connection-proxy/src/handlers/guacamole.ts:418-426 | If the stream starts with `ready` and a dollar-marked id, the owner's connection publishes that id without the dollar sign, whatever the chunking, and a joiner publishes nothing. |
| GuacBridge.FirstReadyNamesIt | apps/connection-proxy/src/handlers/guacamole.ts:418 | The id is that of the first `ready` instruction, wherever it stands in the first frame. |
| GuacBridge.NamesThatCount | apps/connection-proxy/src/handlers/guacamole.ts:419-426 | One dollar sign in front of a name is dropped; an empty or missing name is none. |
| GuacBridge.GoneBrowserGetsNothing | apps/connection-proxy/src/handlers/guacamole.ts:437-601 | Once the browser has gone nothing is sent to it, guacd is neither paused nor resumed for it, its drain timer is off for good, and its published uuid is forgotten. |
| GuacBridge.QueueFollowsTheFrames | apps/connection-proxy/src/handlers/guacamole.ts:403-440 | The browser's queue grows by the cost of each frame sent, one for each data event that completes an instruction, shrinks by what is drained, and changes by nothing else. |
| GuacBridge.QueueBound | apps/connection-proxy/src/handlers/guacamole.ts:307-327 | Over every run of sends, drains and ticks guacd is paused exactly while the drain timer is armed, unpaused means the queue is at most HIGH_WATER, and the queue never exceeds HIGH_WATER plus one frame. |
| GuacBridge.PausedExactlyWhenBehind | apps/connection-proxy/src/handlers/guacamole.ts:307-327 | After every run guacd is paused if and only if the queue was past HIGH_WATER at some event and no tick since has found it below LOW_WATER. |
| GuacBridge.ResumedWhenDrained | apps/connection-proxy/src/handlers/guacamole.ts:315-326 | After a drain and a tick guacd is still paused exactly if it was and the queue is still at or above LOW_WATER. |
| ObserverPath.FilterViewInstructions | apps/connection-proxy/src/handlers/guacamole.ts:216-230 | The filter's output is the encoding of the sync, nop and size instructions, in order. |
| ObserverPath.ObserverSocket.constructor | apps/connection-proxy/src/handlers/guacamole.ts:548-550 | An observer starts with an empty parser and nothing written. |
| ObserverPath.ObserverSocket.OnMessage | apps/connection-proxy/src/handlers/guacamole.ts:549-582 | A frame out of scale or not readable ends the socket; any other writes its encoded allowed instructions, if there are any, and nothing after the end is written. |
| ObserverPath.GuacdSeesOnlyAllowed | apps/connection-proxy/src/handlers/guacamole.ts:209-230 | For every input and every framing, what guacd reads is exactly the allowed subsequence of the instructions the accepted frames held, arguments unchanged. |
| ObserverPath.NothingElseGetsThrough | apps/connection-proxy/src/handlers/guacamole.ts:209-230 | For every input and framing guacd reads each `sync`, `nop` and `size` instruction as often as it was sent, and none of any other opcode. |
| ObserverPath.InputIsNotAmongThem | apps/connection-proxy/src/handlers/guacamole.ts:209-230 | `key`, `mouse` and `clipboard` are other opcodes. |
| ObserverPath.AllowedGetThrough | apps/connection-proxy/src/handlers/guacamole.ts:548-582 | A sendable stream in frames of any cut and in scale keeps the socket open, and the proxy's parser reads back from what was written exactly the stream's sync, nop and size instructions. |
| ObserverPath.OpenExactly | apps/connection-proxy/src/handlers/guacamole.ts:549-566 | The socket stays open if and only if every frame is in scale and the parser never throws on their texts. |
| ObserverPath.ReadBackByTheParser | apps/connection-proxy/src/handlers/guacamole.ts:218-230 | Read back by the proxy's parser the same holds if and only if no forwarded element has a surrogate pair. |
| ObserverPath.WritesFromTheStart | apps/connection-proxy/src/handlers/guacamole.ts:548-582 | The bytes written are the encodings of the allowed instructions, and while the socket is open these are the instructions of everything received. |
| UuidRegistry.SessionStore.GetGuacUuid | apps/connection-proxy/src/session-store.ts:162-170 | A lookup answers the stored uuid of the session, or nothing. |
| UuidRegistry.SessionStore.SetGuacUuid | apps/connection-proxy/src/session-store.ts:172-176 | A set replaces the session's uuid and no other. |
| UuidRegistry.SessionStore.ClearGuacUuid | apps/connection-proxy/src/session-store.ts:178-187 | A clear removes the session's uuid only if it is the one given. |
| UuidRegistry.ConnectionProxy.constructor | apps/connection-proxy/src/handlers/guacamole.ts:268-276 | No sockets, and an empty store. |
| UuidRegistry.ConnectionProxy.OnConnect | apps/connection-proxy/src/handlers/guacamole.ts:276-289 | A watcher joins the stored uuid or is refused; an owner joins nothing. |
| UuidRegistry.ConnectionProxy.OnReady | apps/connection-proxy/src/handlers/guacamole.ts:413-426 | An owner's first frame publishes its uuid, a joiner's changes nothing. |
| UuidRegistry.ConnectionProxy.OnClose | apps/connection-proxy/src/handlers/guacamole.ts:586-601 | A close withdraws what the socket itself published, if it is still stored. |
| UuidRegistry.ConnectionProxy.Serve | apps/connection-proxy/src/handlers/guacamole.ts:276-601 | Over a whole run the handlers and the store do what the step functions say. |
| UuidRegistry.StoredIsTheLiveOwner | apps/connection-proxy/src/handlers/guacamole.ts:413-426 | Over every run of connects, reconnects, joins and closes a session's stored uuid is that of the last owner socket to publish while that socket is open, and absent otherwise. |
| UuidRegistry.LateCloseIsHarmless | apps/connection-proxy/src/handlers/guacamole.ts:586-601 | The close of any older socket leaves the newest publication's entry as it is. |
| UuidRegistry.NothingAfterTheClose | apps/connection-proxy/src/handlers/guacamole.ts:586-601 | Over every run, from a socket's close on, whatever came before or comes after, no lookup finds the uuid it published. |
| UuidRegistry.JoinersChangeNothing | apps/connection-proxy/src/handlers/guacamole.ts:418-426 | A joiner's first frame and its close leave the store alone. |
| UuidRegistry.WatchersJoinALiveOwner | apps/connection-proxy/src/handlers/guacamole.ts:276-289 | A watcher gets in if and only if the last owner socket to publish is open, and then has selected its uuid; an owner always gets in and joins nobody. |
| UuidRegistry.DeleteAfterRead | apps/connection-proxy/src/session-store.ts:184-187 | With the read and the delete of every clear taken apart, over every run each stored uuid stays that of the live owner, or of the closed last one about to delete it, if and only if no delete comes when a newer publisher is last and open. |
| UuidRegistry.ReconnectLosesItsUuid | apps/connection-proxy/src/session-store.ts:178-187 | A concrete run in which a reconnect publishes in between and its uuid is deleted. |
| ExecDemux.ExecReader.constructor | apps/agent/src/docker.ts:701-706 | A reader starts with nothing collected and not truncated. |
| ExecDemux.ExecReader.OnData | apps/agent/src/docker.ts:723-742 | A chunk adds the stdout payloads of the frames it completes, up to the one that passes the cap, and keeps the unfinished frame; a finished reader ignores it. |
| ExecDemux.ExecReader.OnEnd | apps/agent/src/docker.ts:708-713 | The end of the stream finishes the read without changing what was collected. |
| ExecDemux.FramesAppend | apps/agent/src/docker.ts:723-732 | Reassembling from the unfinished tail plus a chunk gives the frames and the tail of the whole byte string. |
| ExecDemux.UpToCapIsShortest | apps/agent/src/docker.ts:734-740 | What is taken is everything when it fits the cap, and otherwise the shortest prefix over it: all but its last payload fit. |
| ExecDemux.StdoutIsOfTheBytes | apps/agent/src/docker.ts:708-742 | Stdout and the truncated flag depend on the concatenated bytes alone: the payloads of complete stdout frames up to the first past the cap, truncated exactly if there is one; a reader still going holds the unfinished tail and no complete frame. |
| ExecDemux.NothingBehindTheCap | apps/agent/src/docker.ts:708-742 | Once the bytes received pass the cap, no later chunk changes the answer. |
| ExecDemux.StdoutIsStreamOne | apps/agent/src/docker.ts:729-734 | Stdout is the payload of every frame of stream 1, in order, and of no other stream. |
| ExecDemux.MuxThenFrames | apps/agent/src/docker.ts:687-694 | Bytes framed as Docker frames them are taken apart into the same frames with nothing left. |
| ExecDemux.UInt32RoundTrip | apps/agent/src/docker.ts:728 | A length written big-endian is read back. |
| ExecDemux.MuxThenRead | apps/agent/src/docker.ts:687-742 | Whatever the chunks, framed output comes back as its stdout payloads in order, cut only by the cap and only there. |
| ObservationRunner.Bounded | apps/agent/src/observation.ts:51-54 | The bounded value lies within its limits, and an in-range number is rounded to a nearest integer, halves up. |
| ObservationRunner.CaptureRunner.constructor | apps/agent/src/observation.ts:63-64 | A runner starts without windows, timers or captures. |
| ObservationRunner.CaptureRunner.StopSession | apps/agent/src/observation.ts:66-71 | A stop clears the window's own timer and removes the window, and does nothing for an unknown session. |
| ObservationRunner.CaptureRunner.Tick | apps/agent/src/observation.ts:73-85 | A tick closes an expired window, leaves a busy one alone, and otherwise begins one capture with the window's parameters. |
| ObservationRunner.CaptureRunner.StartSession | apps/agent/src/observation.ts:102-148 | A start is refused without a kasmId, closes the window for interval zero, renews the existing window object with a new timer only if the interval changed, or opens a window and captures at once. |
| ObservationRunner.CaptureRunner.CaptureSettled | apps/agent/src/observation.ts:85-98 | A settled capture is published only into the window it was begun for, if that is still in the map and unexpired; otherwise the window is free again. |
| ObservationRunner.CaptureRunner.Land | apps/agent/src/observation.ts:96-98 | When a tick ends its window is no longer busy. |
| ObservationRunner.CaptureRunner.Serve | apps/agent/src/observation.ts:66-151 | Over a whole run of starts, stops, timers and completions the runner does what the step functions say. |
| ObservationRunner.StepKeepsInv | apps/agent/src/observation.ts:66-150 | Every start, renewal, stop, timer and completion, in any order, keeps the invariant. |
| ObservationRunner.OnlyWhileAskedFor | apps/agent/src/observation.ts:56-62 | Over every run, before each capture or publish stands an accepted start of its session that asked for just this container, width and id, with no stop in between and its deadline, at most 600 000 ms away, not passed. |
| ObservationRunner.NeverPublishedAfterAStop | apps/agent/src/observation.ts:86-93 | Over every interleaving, the capture behind a publish was begun for the same window object with no stop of the session in between, restarted or not. |
| ObservationRunner.NothingAfterTheEnd | apps/agent/src/observation.ts:66-93 | Over every run, from a stop, a start with interval zero or a tick past the deadline on, and until the session is started again, it has no window and no timer, and nothing of it is captured or published, captures in flight included. |
| ObservationRunner.StartOpens | apps/agent/src/observation.ts:102-148 | In every reachable state a start with a kasmId and an interval leaves its session one window with just what was asked for and a timer; the first captures at once, a renewal keeps the window object and what it has in flight, and its timer if the interval is the same. |
| ObservationRunner.TickCapturesExactly | apps/agent/src/observation.ts:73-84 | In every reachable state a tick begins a capture, of what the last start asked for, if and only if the last start still holds and nothing of the window is in flight. |
| ObservationRunner.CapturePublishesExactly | apps/agent/src/observation.ts:85-98 | In every reachable state a settled capture is published, under the last start's kasmId, if and only if it succeeded, its window is still the session's own and the last start still holds; otherwise the window is free again. |
| ObservationRunner.StartRefused | apps/agent/src/observation.ts:102-112 | A start without a kasmId changes nothing, and one with interval zero opens no window. |
| ObservationRunner.OneFlightAndOneTimer | apps/agent/src/observation.ts:80-97 | In every reachable state a window object has at most one capture or publish in flight and is busy exactly then, and live timers are one to one with open windows. |
| RefreshTokens.TokenTable.constructor | apps/api/src/modules/auth/auth.service.ts:332-339 | The table starts empty. |
| RefreshTokens.TokenTable.IssueTokens | apps/api/src/modules/auth/auth.service.ts:309-341 | Issuing adds one live token of the given user and family. |
| RefreshTokens.TokenTable.RefreshToken | apps/api/src/modules/auth/auth.service.ts:125-171 | A refresh answers and changes the table as specified: unknown, replayed, expired, unavailable user, or exchanged. |
| RefreshTokens.TokenTable.LogoutUser | apps/api/src/modules/auth/auth.service.ts:173-181 | A logout revokes the presented token if it is the user's, and nothing else. |
| RefreshTokens.TokenTable.RevokeAllOf | apps/api/src/modules/auth/auth.service.ts:50-56 | An expired license revokes every token of the user and no other. |
| RefreshTokens.TokenTable.Serve | apps/api/src/modules/auth/auth.service.ts:50-181 | Over a whole run of logins, refreshes, logouts and revocations the table does what the step functions say. |
| RefreshTokens.LoginStartsAFamily | apps/api/src/modules/auth/auth.service.ts:309-341 | A login adds one live token of a family of its own, with its user and deadline, and changes no other. |
| RefreshTokens.RefreshExactly | apps/api/src/modules/auth/auth.service.ts:125-171 | Exactly a signed, known, live, unexpired token of an active user is exchanged; it alone is revoked, its successor has the same user and family and a deadline of its own; only a replay changes the table otherwise. |
| RefreshTokens.LogoutEndsTheFamily | apps/api/src/modules/auth/auth.service.ts:173-181 | In every reachable state, after a logout with one's own live token every later refresh in its family is answered as reuse, and no other token has changed. |
| RefreshTokens.LogoutTouchesOnlyOnesOwn | apps/api/src/modules/auth/auth.service.ts:173-181 | A logout changes something only with a live token of one's own. |
| RefreshTokens.RevokeAllEndsTheUser | apps/api/src/modules/auth/auth.service.ts:50-56 | In every reachable state, revoking all kills every family of the user and changes no token of anybody else. |
| RefreshTokens.RotationIsSafe | apps/api/src/modules/auth/auth.service.ts:125-181 | Over every run a family has at most one live token and one user, no token is exchanged twice, and an exchanged token is revoked. |
| RefreshTokens.ReplayBurnsTheFamily | apps/api/src/modules/auth/auth.service.ts:135-152 | A revoked token presented again leaves its whole family revoked, whether or not it had expired, and touches no other row. |
| RefreshTokens.DeadStaysDead | apps/api/src/modules/auth/auth.service.ts:135-171 | A family without a live token never gets another. |
| RefreshTokens.NoRefreshAfterAReplay | apps/api/src/modules/auth/auth.service.ts:135-152 | After a replay every later refresh with any token of the family is answered as reuse, whatever happened in between. |
| RefreshTokens.SpentTokenIsAReplay | apps/api/src/modules/auth/auth.service.ts:168-170 | In every reachable state, using a token that was exchanged is detected as reuse and kills the family. |
| RefreshTokens.HonestChainStaysLive | apps/api/src/modules/auth/auth.service.ts:125-171 | However the clock runs and whatever other users and families do, a client that only presents the token it was last given holds a live token of its family, which is exchanged whenever presented in time. |
| RefreshTokens.RefreshIsReadThenWrite | apps/api/src/modules/auth/auth.service.ts:132-170 | In every reachable state an atomic refresh that issues a token is its read directly followed by its write, and that write is right. |
| RefreshTokens.LateWriteIsRight | apps/api/src/modules/auth/auth.service.ts:132-170 | When others act between the read and the write, the write keeps one live token per family and leaves dead families dead if and only if the token is still live by then. |
| RefreshTokens.TwoReadsBeforeAWrite | apps/api/src/modules/auth/auth.service.ts:132-170 | A concrete run in which two refreshes both read the token live and leave its family two live tokens. |
| RefreshTokens.InterleavedRefreshes | apps/api/src/modules/auth/auth.service.ts:132-170 | With the reads and writes of any number of refreshes interleaved, throughout every run each family has at most one live token and a dead one stays dead if and only if every write finds the token it read still live. |
| AccountRequests.Service.constructor | apps/api/src/modules/account-requests/account-requests.service.ts:79-81 | The service starts with no requests. |
| AccountRequests.Service.SubmitRequest | apps/api/src/modules/account-requests/account-requests.service.ts:187-244 | A submit is ignored for a taken address, a pending or approved request or a full queue, revives a rejected request in place, and otherwise adds a pending one. |
| AccountRequests.Service.OpenReview | apps/api/src/modules/account-requests/account-requests.service.ts:444-453 | A review begins only on a pending request, and an approval only if the address is free; it keeps what it read. |
| AccountRequests.Service.ClaimRequest | apps/api/src/modules/account-requests/account-requests.service.ts:323-396 | A claim decides a request that is still pending, an approval together with its account or not at all, and otherwise changes nothing but the review. |
| AccountRequests.Service.RemoveRequest | apps/api/src/modules/account-requests/account-requests.service.ts:407-411 | A removal deletes the request and frees its address, and nothing else. |
| AccountRequests.Service.Serve | apps/api/src/modules/account-requests/account-requests.service.ts:163-411 | Over a whole run the service does what the step functions say. |
| AccountRequests.SubmitExactly | apps/api/src/modules/account-requests/account-requests.service.ts:187-244 | In every reachable state a submit is for naught exactly if the address has an account or a waiting or approved request, or none and the queue is full; otherwise the address's one request waits with just what was submitted, and nothing else changes. |
| AccountRequests.OpenExactly | apps/api/src/modules/account-requests/account-requests.service.ts:444-453 | A review begins exactly on a waiting request, for an approval only if no account has its address, and holds what it read. |
| AccountRequests.ClaimExactly | apps/api/src/modules/account-requests/account-requests.service.ts:323-396 | A claim decides exactly a request that still waits, for an approval only if no account has the address or the name; it then makes one account with the address, name and hash of its review, or drops the hash of a rejected row. |
| AccountRequests.RemoveExactly | apps/api/src/modules/account-requests/account-requests.service.ts:407-411 | In every reachable state a removal takes the request and its address out, and nothing else. |
| AccountRequests.AccountsStayDistinct | apps/api/src/modules/account-requests/account-requests.service.ts:340-365 | As long as nobody else makes accounts that repeat an address or a name, no two accounts share one, however reviews interleave. |
| AccountRequests.StepKeepsInv | apps/api/src/modules/account-requests/account-requests.service.ts:163-411 | Every submit, early read, claim, removal and outside account change keeps the invariant. |
| AccountRequests.RowsTellTheTruth | apps/api/src/modules/account-requests/account-requests.service.ts:325-395 | In every reachable state a row is approved exactly if it links a created user, minted by an approval of it, with its address and for no other row; a rejected row links none and has an empty hash. |
| AccountRequests.AtMostOneWinner | apps/api/src/modules/account-requests/account-requests.service.ts:326-339 | Between two decisions of one request, in any interleaving, the request was submitted again and the first decision was a rejection. |
| AccountRequests.OneUserPerRequest | apps/api/src/modules/account-requests/account-requests.service.ts:325-365 | Over every run a request row mints at most one user. |
| AccountRequests.OneOfTwoClaims | apps/api/src/modules/account-requests/account-requests.service.ts:383-396 | Once one reviewer's claim has decided a request, another's gets the conflict and changes nothing, whatever happened in between short of submitting the request anew. |
| AccountRequests.LoserHasAWinner | apps/api/src/modules/account-requests/account-requests.service.ts:339-396 | A reviewer who gets the conflict lost to a decision or a removal after which the request was not submitted again. |
| AccountRequests.QueueHasRoom | apps/api/src/modules/account-requests/account-requests.service.ts:203-207 | A submit that adds a row adds one more pending one, and only while fewer than the ceiling are pending. |
| AccountRequests.CeilingHoldsExactly | apps/api/src/modules/account-requests/account-requests.service.ts:203-231 | Over every run the pending requests stay within the ceiling if and only if no rejected request is submitted again while the queue is full. |
| AccountRequests.PendingIsBounded | apps/api/src/modules/account-requests/account-requests.service.ts:203-231 | Over every run the pending requests are at most the ceiling and one for each time a rejected request was submitted again while the queue was full. |
| AccountRequests.RevivalPassesTheCeiling | apps/api/src/modules/account-requests/account-requests.service.ts:204-225 | A concrete run with more pending requests than the ceiling. |
| AccountRequests.ApprovedWithTheCurrentHash | apps/api/src/modules/account-requests/account-requests.service.ts:342-353 | For as long as it exists, an approved account has the name its reviewer gave and the address and password hash last submitted before the review's read; the row has the hash last submitted before the claim, equal unless the request was submitted anew in between. |
| AccountRequests.CurrentUnlessSubmittedAnew | apps/api/src/modules/account-requests/account-requests.service.ts:287-352 | With a hash of its own for each submission, an approval carries the row's current hash if and only if the request was not submitted anew since its review read it. |
| AccountRequests.StaleHashApproved | apps/api/src/modules/account-requests/account-requests.service.ts:287-352 | A concrete run in which it was, and the account gets a password the row no longer has. |
| TouchInput.WheelConserves | apps/web/src/lib/touch-input.ts:216-222 | The notch loop's scroll times the notch size plus what it leaves is the travel it was given, less than one notch is left, and the last state is idle. |
| TouchInput.TouchListener.constructor | apps/web/src/lib/touch-input.ts:74-91 | A new listener has no pointer, gesture or timer. |
| TouchInput.TouchListener.Click | apps/web/src/lib/touch-input.ts:107-113 | A click is move, press and release of one button at one point. |
| TouchInput.TouchListener.Release | apps/web/src/lib/touch-input.ts:122-128 | The release lets go of a dragged button where the finger last was, and stops the timer. |
| TouchInput.TouchListener.OnTouchStart | apps/web/src/lib/touch-input.ts:147-183 | A first finger arms the long press, any further finger releases the pointer and starts a gesture afresh. |
| TouchInput.TouchListener.OnTouchMove | apps/web/src/lib/touch-input.ts:185-246 | A move decides the two-finger gesture once and turns the wheel, or carries a one-finger drag from where the finger landed. |
| TouchInput.TouchListener.TurnWheel | apps/web/src/lib/touch-input.ts:216-222 | The wheel loop ends and sends one notch state and one idle state for each notch of travel. |
| TouchInput.TouchListener.OnTouchEnd | apps/web/src/lib/touch-input.ts:248-272 | The last finger lifted ends a drag or clicks; one of two lifted drops the gesture. |
| TouchInput.TouchListener.OnLongPressTimer | apps/web/src/lib/touch-input.ts:158-164 | The timer right-clicks where the finger is, if nothing was committed. |
| TouchInput.TouchListener.Serve | apps/web/src/lib/touch-input.ts:147-272 | Over a whole run the handlers do what the step functions say. |
| TouchInput.StepKeepsInv | apps/web/src/lib/touch-input.ts:122-272 | Fingers may also rest on other elements. An event keeps handlers and fingers in agreement (left held exactly while the one finger here drags, a gesture only with fingers here) if and only if the last finger lifted here leaves the list its handler waits for. |
| TouchInput.NothingStaysPressed | apps/web/src/lib/touch-input.ts:248-272 | Over every run, with fingers landing here or elsewhere, nothing is ever held without a finger on the element if and only if no finger lifts under a held button while another is anywhere on the glass. |
| TouchInput.EndReleasesExactly | apps/web/src/lib/touch-input.ts:248-272 | Under a committed drag the end of the touch releases left if and only if its list is empty. |
| TouchInput.FingerElsewhereKeepsLeft | apps/web/src/lib/touch-input.ts:249-271 | A concrete run after which left is held with no finger on the glass. |
| TouchInput.ButtonsFollowTheDrag | apps/web/src/lib/touch-input.ts:122-128 | Over every run in which the last finger lifted here leaves the list its handler waits for, the last state holds left exactly if a drag is committed and holds nothing else, and then one finger is on the element. |
| TouchInput.NobodyElsewhere | apps/web/src/lib/touch-input.ts:248-272 | With no finger on other elements that is every run. |
| TouchInput.OneFingerOneInteraction | apps/web/src/lib/touch-input.ts:11-22 | One uninterrupted finger yields exactly one left click, one right click, or one press, drag and release, decided by whether it leaves the slop or the timer runs out first. |
| TouchInput.OneFingerOnTheDesktop | apps/web/src/lib/touch-input.ts:107-272 | One uninterrupted finger makes the desktop see exactly one left press and release where it landed (a tap), one right press and release where it then is (the timer first), or one left press where it landed, the path it took, and one release where it was last (the slop first); nothing else is pressed or scrolled. |
| TouchInput.FirstFingerStartsAfresh | apps/web/src/lib/touch-input.ts:147-156 | A first finger starts afresh whatever the state before, and sends nothing. |
| TouchInput.FurtherFingerLetsGo | apps/web/src/lib/touch-input.ts:166-183 | A further finger releases a held button where the first finger was last, and otherwise sends nothing. |
| TouchInput.NoPressWithoutALanding | apps/web/src/lib/touch-input.ts:185-272 | Until a finger lands no state sent holds a button, so the end of a two-finger gesture clicks nothing. |
| TouchInput.FirstMoveDecides | apps/web/src/lib/touch-input.ts:188-210 | The first event with which two fingers mean anything decides the gesture for good: a pinch zooms, other movement pans if there is anything to pan and turns the wheel otherwise. |
| TouchInput.PinchedMeansRatio | apps/web/src/lib/touch-input.ts:199-205 | Comparing squares of distances is comparing the ratio of the distances with the threshold. |
| TouchInput.NotchesAtTheCentre | apps/web/src/lib/touch-input.ts:216-222 | What two fingers send is sent where their centre then is, and holds no button. |
| TouchInput.SpreadOfDistance | apps/web/src/lib/touch-input.ts:67 | A point some distance away in any direction is at that distance squared. |
| TouchInput.FingersAreApart | apps/web/src/lib/touch-input.ts:176-193 | Two fingers' distance is never zero: on one spot they count as one pixel apart. |
| TouchInput.CentreIsBetween | apps/web/src/lib/touch-input.ts:68-69 | The centre is as far from one finger as from the other on each axis. |
| TouchInput.ScrollFollowsTheFingers | apps/web/src/lib/touch-input.ts:166-226 | From the landing of two fingers on, in a wheel gesture 44 times notches up minus notches down plus the remainder is the centre's vertical travel since they landed, the remainder is under a notch, and any other gesture sends nothing. |
| WindowLedger.ObservationWindows.constructor | apps/web/src/lib/observation-windows.ts:46-53 | A wall starts owning nothing. |
| WindowLedger.ObservationWindows.SyncWith | apps/web/src/lib/observation-windows.ts:58-76 | A sync answers what to close and what to open, in order, and updates the ledger to match. |
| WindowLedger.ObservationWindows.RenewAll | apps/web/src/lib/observation-windows.ts:78-80 | Renewal names exactly the windows the wall owns. |
| WindowLedger.ObservationWindows.HandOffTo | apps/web/src/lib/observation-windows.ts:82-85 | A hand-off moves a window out of the wall's set for good. |
| WindowLedger.ObservationWindows.ReleaseAll | apps/web/src/lib/observation-windows.ts:87-91 | Leaving closes what the wall owns and leaves it owning nothing. |
| WindowLedger.LedgerIsExact | apps/web/src/lib/observation-windows.ts:46-93 | Over every run the wall owns exactly the windows whose last request was an opening, has handed off exactly those whose last request was a hand-off, and never both. |
| WindowLedger.HandedOffForGood | apps/web/src/lib/observation-windows.ts:48-53 | After a hand-off the wall never opens or closes that window again. |
| WindowLedger.NothingAfterAHandOff | apps/web/src/lib/observation-windows.ts:48-85 | From a hand-off on, whatever came before or comes after, the wall does not own the window and requests neither its opening nor its closing. |
| WindowLedger.LedgerFollowsTheEvents | apps/web/src/lib/observation-windows.ts:46-93 | Over every run the wall owns exactly what the last sync wanted and no hand-off or leaving took away, and has handed off exactly what was ever handed off. |
| WindowLedger.SyncRequestsExactly | apps/web/src/lib/observation-windows.ts:58-76 | In every reachable state a sync closes each owned window it leaves out once, opens each wanted window not handed off once, and requests nothing else. |
| WindowLedger.DedupKeepsOrder | apps/web/src/lib/observation-windows.ts:59 | The set of the wanted windows keeps their order of first appearance. |
| WindowLedger.SelectKeepsOrder | apps/web/src/lib/observation-windows.ts:61-73 | What is closed, kept and opened keeps the order of the set it comes from. |
| WindowLedger.SyncSettles | apps/web/src/lib/observation-windows.ts:58-76 | After a sync, whatever came before, the wall owns exactly the wanted windows it has not handed off. |
| WindowLedger.ReleaseClosesEachOnce | apps/web/src/lib/observation-windows.ts:87-91 | Leaving closes each open window once and no other, and no window is open afterwards. |
| LocaleMerge.MergeMessages | apps/web/src/i18n/request.ts:12-22 | The recursive loop over the override's entries, in any order, computes the merge. |
| LocaleMerge.OverrideWins | apps/web/src/i18n/request.ts:14-19 | Every text of the override is found at its path in the result. |
| LocaleMerge.MergeIsIdempotent | apps/web/src/i18n/request.ts:12-22 | Merging the same override twice is merging it once, arrays included. |
| LocaleMerge.EnglishFillsTheGaps | apps/web/src/i18n/request.ts:7-11 | When nothing is lost, every English path holds the override's text where it has one and the English text where it has none. |
| LocaleMerge.EveryTextSurvives | apps/web/src/i18n/request.ts:16-19 | Every English text path survives if and only if each replaced entry is replaced by one with text at all of its text paths. |
| LocaleMerge.IncompleteTranslationIsSafe | apps/web/src/i18n/request.ts:7-11 | For array-free overrides, if no path is an object on one side and text on the other, nothing is lost. |
| LocaleMerge.TextOverObjectLoses | apps/web/src/i18n/request.ts:16-19 | A concrete text over an object loses the text under it. |

## Left out

- JsNumber.Integral: takes a number in exponent notation at its exact value; rounding to a double is not modelled.
- GuacBridge.NothingLostOrSplit: starts at the first data event after the handshake, because bytes behind `args` in the handshake chunk are dropped by the handler, and holds while the browser is open.
- GuacBridge.QueueBound: takes a paused guacd socket to emit no data, and the cost of a frame as given by the socket.
- UuidRegistry.StoredIsTheLiveOwner: takes a clear as one store operation, which `UuidRegistry.DeleteAfterRead` takes apart.
- UuidRegistry.DeleteAfterRead: takes the read of a clear together with the close it belongs to; expiry of the stored key and crashes are not modelled, and uuids are distinct.
- RefreshTokens.RotationIsSafe: takes a refresh as one atomic step, although the code reads and updates the row in separate statements, which `RefreshTokens.InterleavedRefreshes` takes apart, and random families and token hashes as fresh; deletion of a user with all tokens is not modelled.
- AccountRequests.AtMostOneWinner: takes a submit and a removal as one step each; the code's separate queries inside a submit are not interleaved.
- AccountRequests.Service.OpenReview: takes the early read with its address check as one step, and the username an approval will use as given; the suffixing of taken usernames, groups, demo workspaces and expiry dates are not modelled.
- ObservationRunner.CaptureRunner.StartSession: reads the clock once for a start and the tick it runs, and leaves out error reporting and the content of a sample.
- ExecDemux.StdoutIsOfTheBytes: leaves out the read timeout, which may end the read at any chunk.
- TouchInput.ScrollFollowsTheFingers: computes with exact reals where the source has doubles; the rounding of sums is not modelled.
- TouchInput.OneFingerOneInteraction: gives points in page coordinates; the mapping to remote pixels and its clamping are left to the page, as are zooming and panning themselves and the removal of the listeners.
- LocaleMerge.MergeMessages: treats keys as plain names; `__proto__` and inherited properties are not modelled.
- UTF-8 decoding of socket data: the models start from decoded text.
- The guacd handshake and its parameters: a finite table of strings.
- JWT, password and TOTP checks, Prisma, Redis and sockets: parameters or steps of the models.
- The X11 queries, the WebP header and the shell script around the exec: parsing of small fixed formats.
