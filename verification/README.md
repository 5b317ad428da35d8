# OpenSwoole protocols and schedulers, modelled in Dafny

OpenSwoole is a PHP extension with coroutines, an HTTP/1 and HTTP/2 server and clients for both.
This project models the parts of it whose correctness is a property of whole runs, in imperative form
where the source updates state in place, and proves what those parts promise. `dafny verify dfyconfig.toml`
checks everything.

Most components have the same build: a pure state and a step function, an invariant with a lemma that every
step keeps it, theorems over every run, and a class with the fields and loops of the source whose methods are
proved to perform the steps of that state machine. The save and restore handlers of `ContextSwitch.Globals`
copy fields one by one, and their contracts read much like their bodies; what they are for is in the lemmas
about the functions they implement.

| file | what it models |
|---|---|
| `Futex.dfy` | wait and wakeup on a shared word: compare-and-set, FUTEX_WAIT and FUTEX_WAKE as separate steps of any number of processes |
| `Basics.dfy` | bytes, hexadecimal digits, pieces of a byte string |
| `Search.dfy` | first-occurrence search in bytes and characters |
| `EofSplitter.dfy` | the client's `recv` with `open_eof_check`: growing buffer, carried-over bytes, packets |
| `CoroutineKernel.dfy` | who runs: origin pointers, the user yield/resume table, cancellation, deferred resumes, the concurrency gate |
| `ContextSwitch.dfy` | what a switch does to the executor globals, the output buffers and the silenced error level |
| `Scheduler.dfy` | both together, over every run |
| `Http2Frames.dfy` | HEADERS and DATA frames of a stream, splitting a body, frames as bytes |
| `SessionWindow.dfy` | the send window a server stream opens with: SETTINGS, connection updates, sendfile |
| `FlowControl.dfy` | the server's flow-controlled respond loop against WINDOW_UPDATE frames that arrive at any moment |
| `Http2Response.dfy` | the frames of a server response: writes, then end |
| `ReceiveWindow.dfy` | receive windows and their replenishment, server and client |
| `Http2Client.dfy` | stream ids, END_STREAM on requests, pipelined delivery |
| `Cookie.dfy` | the client's Cookie printer and the server's parser |
| `Chunked.dfy` | chunked response bodies and trailers |
| `HeaderSearch.dfy` | the client's incremental search for the end of a response header |
| `Multipart.dfy` | the multipart Content-Length computed in advance, and the body sent afterwards |

## Where the code falls short of what it promises

In these places a natural promise is false of the code. The model follows the code, and a lemma states the
exact condition under which the promise holds.

- The splitter does not treat every `package_max_length` alike. Buffer sizes are rounded up to a multiple of 8
  when the buffer grows, and doubled in 32 bits. So the promised results come out for every stream and every
  cutting exactly when the limit is a multiple of 8 from 2^16 to 2^31 (`EofSplitter.CorrectExactlyWhenRegular`).
- A server stream opens with a session variable that connection-level WINDOW_UPDATE frames raise, that sendfile
  lowers, and whose value 0 is replaced by 65535. `SessionWindow.OpensRightExactly` says exactly when it is the
  peer's initial window; `SessionWindow.TooWide` shows two histories where it is not.
- `write` on an HTTP/2 response does not look at the stream window, an open stream does not follow a later
  setting, and `end` keeps to the window only in a coroutine with `send_yield` on, outside the coroutine server.
  So DATA can exceed what the peer granted (`Http2Response.WithinGrantExactly`, `Http2Response.WritesBypassWindow`);
  `Http2Response.UncontrolledEnd` is a plain `end` without coroutines.
- An HTTP/2 response ends without END_STREAM when `end` has nothing to send after writes, or when no trailer is
  encoded because every value is null or every name an integer (`Http2Response.ResponseFraming`).
- The same trailers leave an HTTP/1 chunked body unterminated (`Chunked.NullTrailerTruncates`,
  `Chunked.NumericTrailerTruncates`). Trailers also do not come out as given when a value holds a NUL or a line
  break, or a line exceeds the line buffer (`Chunked.ChunkedRoundTrip`).
- The variable for the connection's receive window begins with `http2_initial_window_size`, and on a client that
  connects again with what the last connection left, while the peer begins with 65535. For every beginning the
  model says exactly whether the two agree (`ReceiveWindow.AgreementExactly`), whether the variables are exact
  for every legal peer (`ReceiveWindow.SafeConfigurationExactly`: a full frame underflows the variable of a server
  configured below 16384), whether the peer can be stalled for ever (`ReceiveWindow.NeverStalledExactly`, and
  `ReceiveWindow.ReconnectStalls` for a client with default settings), and whether an increment overflows a window
  of the peer (`ReceiveWindow.NoOverflowExactly`).
- The HTTP/2 client skips DATA of a stream it no longer knows without charging the connection window. The peer
  never gets those bytes back (`ReceiveWindow.PeerAtRest`).
- An array that is not empty but has nothing to encode makes the HTTP/2 client's request fail after its HEADERS
  went out, with the stream registered and the id not advanced. The next request sends HEADERS on the same id
  (`Http2Client.EndStreamDiscipline`); `Http2Client.EndsTwice` is a run of three calls that sends DATA after
  END_STREAM. Ids also repeat, as 31-bit stream ids, after 2^30 requests (`Http2Client.StreamIds`).
- A write on a pipelined request goes out in one frame whose length field keeps 24 bits, so the peer reads the end
  of a longer write as frames (`Http2Client.LongWrite`, `Http2Frames.LongFrameIsCut`). With `http2_max_frame_size`
  0 the loop that sends a body never moves on (`Http2Client.TurnAdvances`).
- WINDOW_UPDATE increments are added with their reserved top bit (`FlowControl.ExactWithoutWrapOnly`).
- A coroutine that closes while in silence leaves the silenced level to its origin, unless the origin is in
  silence itself (`ContextSwitch.ShutSilencesExactly`, and over runs `Scheduler.SilenceIsolation`).
- In the last segment of a Cookie header, a name without a value overwrites the value of the name before it, and
  an empty value is dropped (`Cookie.LastSegmentExactly`, `Cookie.LastNameOverwrites`). Quote trimming from the
  left stops half way (`Cookie.TrimExactly`).
- The multipart Content-Length is too large when a part header overflows the 2048-byte buffer or holds a NUL
  (`Multipart.LengthExactly`), and wrong from 2^31 on (`Multipart.AnnouncedExactly`). The boundary is not checked
  against the contents, so a content with the delimiter in it is read as several parts
  (`Multipart.BodyReadsBackExactly`).

## Model

| member | source | states |
|---|---|---|
| `Futex.StepKeepsObligation` | ext-src/openswoole_atomic.cc:26-54 | every atomic step keeps: value 1 with sleepers means a waker still owes its FUTEX_WAKE or an awakened waiter has not yet tried its compare-and-set; for any int count |
| `Futex.RunInvariant` | ext-src/openswoole_atomic.cc:26-54 | over every interleaving, successful waits + value = initial value + successful sets, and the obligation is kept |
| `Futex.FutexProtocol` | ext-src/openswoole_atomic.cc:26-54 | for any number of processes and wakeup counts of any int: conservation, a binary value stays binary, no wakeup is lost, at rest no sleeper faces value 1; and every wait begun is still going on, took the token, met a value other than 0, left by timeout or signal, or found no token when awake, and every wakeup likewise |
| `Futex.WaitReturnsOnlyBy` | ext-src/openswoole_atomic.cc:26-41 | in whatever state: a wait comes back only by a step of its own, with the token, or because FUTEX_WAIT met a value other than 0, or by timeout or signal, or because the second compare-and-set failed |
| `Futex.SleepsUntilWoken` | ext-src/openswoole_atomic.cc:34-40 | a FUTEX_WAIT that meets 0 queues the caller, and only a wake that chose it or its own return takes it out |
| `Futex.SharedWord.CompareAndSet` | ext-src/openswoole_atomic.cc:27-27 | succeeds exactly when the word holds the expected value, and changes it only then |
| `Futex.SharedWord.Attempt` | ext-src/openswoole_atomic.cc:27-41 | the first and second compare-and-set of a wait are the corresponding machine steps |
| `Futex.SharedWord.FutexWait` | ext-src/openswoole_atomic.cc:34-40 | queues the caller exactly if the value is 0 at that step, otherwise the wait is over; with `Futex.SleepsUntilWoken` for what the queue means |
| `Futex.SharedWord.Publish` | ext-src/openswoole_atomic.cc:49-53 | the set from 0 to 1 obliges the caller to wake, a failed set does not |
| `Futex.WakeLoop` | ext-src/openswoole_atomic.cc:50-50 | FUTEX_WAKE with count n wakes min(max(1, n), sleepers) of the queue |
| `Futex.SharedWord.FutexWake` | ext-src/openswoole_atomic.cc:50-50 | wakes Woken(n) sleepers, whichever they are, and nobody else |
| `Search.Strnpos` | include/openswoole.h:307-316 | the loop returns the least position where the needle occurs, or -1 |
| `Search.FindInPrefix` | include/openswoole.h:307-316 | searching a prefix finds the first occurrence of the whole exactly when it lies inside the prefix |
| `EofSplitter.CallMeets` | ext-src/openswoole_client.cc:964-1043 | for a regular limit, one call returns the next packet of the unread bytes, or "no package eof" exactly when the next limit bytes hold no complete marker; with neither, it blocks, answers the peer's close or the error, as the socket goes on; it loses and repeats nothing, keeps length < size <= limit, and carries over less than a fresh buffer |
| `EofSplitter.RunIsPackets` | ext-src/openswoole_client.cc:964-1043 | repeated calls give the packets of the byte stream, a function in which neither buffer nor recv boundaries occur |
| `EofSplitter.CutIndependence` | ext-src/openswoole_client.cc:964-1043 | two ways of cutting the same stream give the same results, call by call |
| `EofSplitter.PacketsWellFormed` | ext-src/openswoole_client.cc:1000-1016 | every packet ends with the marker at its first occurrence and is within the limit |
| `EofSplitter.PacketsConserve` | ext-src/openswoole_client.cc:1000-1016 | without an overrun, packets + leftover = stream, and the leftover holds no marker |
| `EofSplitter.IrregularFails` | src/core/string.cc:125-142 | for every other limit, a stream and a cutting of it that give the wrong result |
| `EofSplitter.CorrectExactlyWhenRegular` | ext-src/openswoole_client.cc:964-1043 | all markers, streams and cuttings come out right if and only if the limit is a multiple of 8 in [2^16, 2^31] |
| `EofSplitter.Client.Recv` | ext-src/openswoole_client.cc:964-1043 | the loop with its jump terminates, equals the call function for any limit, meets the promise above for a regular one, and without a byte to read answers the three endings of the socket each by its own result |
| `CoroutineKernel.StepKeeps` | src/coroutine/base.cc:56-145 | every create, yield, resume, cancel, deferred resume, gate turn and close keeps the whole invariant |
| `CoroutineKernel.RunKeeps` | src/coroutine/base.cc:56-145 | so does every run |
| `CoroutineKernel.OriginChainSafety` | ext-src/openswoole_coroutine.cc:1150-1199 | in every reachable state, origins lead from the current coroutine to main without repetition; the user table holds exactly the coroutines in their own user yield, none of them on that chain; no null or freed coroutine is followed |
| `CoroutineKernel.CidsInOrder` | include/openswoole_coroutine.h:225-235 | in every run ids are 1, 2, 3, ... in the order of the creations that succeed, never reused |
| `CoroutineKernel.CreateMeaning` | ext-src/openswoole_coroutine.cc:841-867 | refused at the limit; otherwise the new coroutine runs at once at the gate, its creator is its origin and its parent and waits, and nobody else is touched |
| `CoroutineKernel.YieldMeaning` | src/coroutine/base.cc:56-103 | a user yield, a wait or a preemption: the origin runs again, the coroutine is parked as that kind of wait with its own registration, cancel function or deferred resume, and nobody else is touched |
| `CoroutineKernel.IoResumeMeaning` | src/coroutine/base.cc:105-118 | the target runs, its resumer is its origin and waits in a nested call, nobody else is touched |
| `CoroutineKernel.DeferredMeaning` | ext-src/openswoole_coroutine.cc:750-755 | the oldest deferred resume runs and leaves the queue; a coroutine that waited at the gate tests it again |
| `CoroutineKernel.CancelMeaning` | src/coroutine/base.cc:120-129 | a cancel of any argument resumes exactly a coroutine in its own user yield, which it unregisters, or in a wait that can be cancelled; anything else changes nothing |
| `CoroutineKernel.CloseMeaning` | src/coroutine/base.cc:131-147 | the origin runs again, the coroutine is gone, a counted one gives its slot back |
| `CoroutineKernel.PassGateMeaning` | ext-src/openswoole_coroutine.cc:741-762 | without a limit, below another coroutine or with a slot free the coroutine goes on to its function; otherwise control is at its origin and it is last in the queue |
| `CoroutineKernel.UserResumeMeaning` | ext-src/openswoole_coroutine.cc:1150-1167 | a resume of any argument runs exactly a coroutine in its own user yield and unregisters it; any other argument changes nothing |
| `CoroutineKernel.ReentrantYieldStays` | ext-src/openswoole_coroutine.cc:1156-1180 | a coroutine that yields again inside the nested resume stays registered, because the erase comes before the resume |
| `CoroutineKernel.ConcurrencyGate` | ext-src/openswoole_coroutine.cc:741-759 | in every reachable state the counter is the number of admitted unclosed top-level coroutines, within the limit, and every waiting one has exactly one deferred resume |
| `CoroutineKernel.GateTurn` | ext-src/openswoole_coroutine.cc:741-759 | a waiting coroutine whose turn comes is admitted exactly when a slot is free, and otherwise goes to the end of the queue |
| `ContextSwitch.SwitchIsolates` | ext-src/openswoole_coroutine.cc:557-586 | a switch keeps the loser's VM fields and output buffers, gives the winner its own back, touches nobody else, and leaks, shares or double-frees no copy |
| `ContextSwitch.SpawnIsolates` | ext-src/openswoole_coroutine.cc:694-705 | a new coroutine starts on its own VM stack with normal error handling, no exception, no trace and no output buffers; the creator is kept |
| `ContextSwitch.ShutIsolates` | ext-src/openswoole_coroutine.cc:588-637 | on close the origin gets its own view back and no copy is leaked |
| `ContextSwitch.SwitchSilences` | ext-src/openswoole_coroutine.cc:488-517 | a switch shows each coroutine the silenced level exactly when it is itself in silence |
| `ContextSwitch.ShutSilencesExactly` | ext-src/openswoole_coroutine.cc:588-637 | a close preserves that, and shows the origin its level, if and only if the closing coroutine is not in silence or its origin is |
| `ContextSwitch.Globals.SaveVm` | ext-src/openswoole_coroutine.cc:471-496 | the field-by-field save is the save function |
| `ContextSwitch.Globals.RestoreVm` | ext-src/openswoole_coroutine.cc:498-522 | the field-by-field restore is the restore function |
| `ContextSwitch.Globals.SaveOutput` | ext-src/openswoole_coroutine.cc:524-532 | output globals with handlers are copied out and reset, others leave a null pointer |
| `ContextSwitch.Globals.RestoreOutput` | ext-src/openswoole_coroutine.cc:534-540 | a copy is put back and freed, a null pointer changes nothing |
| `ContextSwitch.Globals.SwitchTasks` | ext-src/openswoole_coroutine.cc:567-586 | on_yield and on_resume: the visible state is what had been saved for the winner, and the loser's is saved |
| `ContextSwitch.Globals.Start` | ext-src/openswoole_coroutine.cc:841-867 | create saves the creator and sets up a fresh context on fresh VM fields |
| `ContextSwitch.Globals.BeginSilenceHandler` | ext-src/openswoole_coroutine.cc:271-276 | records the level and enters silence |
| `ContextSwitch.Globals.EndSilenceHandler` | ext-src/openswoole_coroutine.cc:278-282 | leaves silence with the recorded level |
| `ContextSwitch.Globals.OnClose` | ext-src/openswoole_coroutine.cc:588-637 | ends the output, drops the context, restores the origin |
| `Scheduler.StepKeeps` | ext-src/openswoole_coroutine.cc:557-637 | kernel and executor agree on who lives and runs, and every event respects every coroutine's view |
| `Scheduler.RunOfKernel` | src/coroutine/base.cc:56-147 | seen without the executor, every run is a run of the coroutine kernel |
| `Scheduler.EventOfStep` | src/coroutine/base.cc:56-147 | and every step of the kernel is the step of an event |
| `Scheduler.ContextIsolation` | ext-src/openswoole_coroutine.cc:471-637 | over every run: a coroutine that regains control sees exactly the VM fields and output-buffer stack it had when it lost control |
| `Scheduler.OutputCopies` | ext-src/openswoole_coroutine.cc:524-540 | in every reachable state the running coroutine holds no saved copy, every copy has exactly one owner, and none was used or freed after being freed |
| `Scheduler.SilenceIsolation` | ext-src/openswoole_coroutine.cc:471-522 | over every run without nested silence, the running coroutine sees its own level in every state if and only if no coroutine closes in silence into an origin that is not in silence |
| `Scheduler.Runtime.Yield` | src/coroutine/base.cc:56-65 | saves and restores through the callback and goes back to the origin |
| `Scheduler.Runtime.Resume` | src/coroutine/base.cc:105-118 | restores the target through the callback and makes the current coroutine its origin |
| `Scheduler.Runtime.CreateCo` | ext-src/openswoole_coroutine.cc:841-867 | refused at the limit, otherwise the new coroutine runs at once; keeps the invariant |
| `Scheduler.Runtime.UserYield` | ext-src/openswoole_coroutine.cc:1169-1185 | registers, then yields; keeps the invariant |
| `Scheduler.Runtime.IoYield` | src/coroutine/base.cc:73-103 | parks in a wait, cancelable or not; keeps the invariant |
| `Scheduler.Runtime.IoResume` | src/coroutine/base.cc:105-118 | resumes a coroutine whose event came; keeps the invariant |
| `Scheduler.Runtime.Preempt` | ext-src/openswoole_coroutine.cc:292-297 | queues a deferred resume and yields; keeps the invariant |
| `Scheduler.Runtime.EnterSilence` | ext-src/openswoole_coroutine.cc:271-276 | enters silence; keeps the invariant |
| `Scheduler.Runtime.LeaveSilence` | ext-src/openswoole_coroutine.cc:278-282 | leaves silence; keeps the invariant |
| `Scheduler.Runtime.UserResume` | ext-src/openswoole_coroutine.cc:1150-1167 | false for anything not in the table, otherwise erases and resumes; keeps the invariant |
| `Scheduler.Runtime.Cancel` | src/coroutine/base.cc:120-129 | runs the cancel function of a cancelable wait, false otherwise; keeps the invariant |
| `Scheduler.Runtime.PassGate` | ext-src/openswoole_coroutine.cc:741-759 | one turn of the gate loop is the step that `CoroutineKernel.PassGateMeaning` spells out; keeps the invariant |
| `Scheduler.Runtime.RunDeferred` | ext-src/openswoole_coroutine.cc:750-755 | resumes the oldest deferred coroutine; keeps the invariant |
| `Scheduler.Runtime.Close` | src/coroutine/base.cc:131-147 | gives up the slot, drops the coroutine and returns to the origin; keeps the invariant |
| `Http2Frames.SplitCarries` | ext-src/openswoole_http2_server.cc:480-511 | the frames of a body are non-empty, within the frame size, concatenate to it, and carry END_STREAM on the last one only when asked |
| `Http2Frames.AsMeantExactly` | include/openswoole_http2.h:160-180 | a peer that parses the bytes gets back, for each frame, type 1 with END_HEADERS exactly for HEADERS and type 0 without it exactly for DATA, its END_STREAM, its stream id without the top bit and its content, if and only if each has less than 2^24 bytes |
| `Http2Frames.LongFrameIsCut` | include/openswoole_http2.h:173-180 | a longer DATA frame is read as one of the length modulo 2^24, followed by the rest of its data as frames |
| `FlowControl.ClosedForm` | ext-src/openswoole_http2_server.cc:601-639 | in every interleaving, when parked or done exactly min(body, initial window + increments) bytes are out, never more; it is done exactly if the body fits that; the clamp is never taken; END_STREAM only when the body is complete |
| `FlowControl.ExactWithoutWrapOnly` | ext-src/openswoole_http2_server.cc:1032-1046 | the window variable is what the peer means in every state of a run if and only if no update sets the reserved bit or overflows 32 bits |
| `FlowControl.WakeMakesProgress` | ext-src/openswoole_http2_server.cc:608-613 | a parked responder woken by a positive increment v next sends min(remaining, v) bytes |
| `FlowControl.Stream.OnWindowUpdate` | ext-src/openswoole_http2_server.cc:1032-1046 | adds the increment modulo 2^32 and is a step of the machine |
| `FlowControl.Stream.SendBody` | ext-src/openswoole_http2_server.cc:480-511 | sends a slice frame by frame, with updates arriving between frames |
| `FlowControl.Stream.Send` | ext-src/openswoole_http2_server.cc:480-511 | one frame is out, and the updates that arrive meanwhile are steps of the run, each once and in order |
| `FlowControl.Stream.Park` | ext-src/openswoole_http2_server.cc:608-613 | the coroutine is marked as waiting exactly while it is parked, and the next update of the stream wakes it |
| `FlowControl.Stream.Respond` | ext-src/openswoole_http2_server.cc:601-639 | the loop performs a run of the machine, stops parked or done, what is out is the closed form, and it is done exactly if the body fits window and increments |
| `SessionWindow.OpensRightExactly` | ext-src/openswoole_http2_server.cc:43-56 | for every history of settings, connection updates and files, a stream opens with the peer's initial window if and only if that is positive and the drift since it was set is 0 modulo 2^32, or it is 65535 and the variable is 0 |
| `SessionWindow.OpensRightWithoutFiles` | ext-src/openswoole_http2_server.cc:1033-1035 | without sendfile and overflow: if and only if the peer's value is positive and no positive connection update followed it; otherwise the stream opens wider |
| `SessionWindow.TooWide` | ext-src/openswoole_http2_server.cc:51-55 | a connection update of 1000000, and a setting of 0, open streams wider than the peer granted |
| `SessionWindow.Session.OnSetting` | ext-src/openswoole_http2_server.cc:906-908 | the setting overwrites the variable |
| `SessionWindow.Session.OnConnectionUpdate` | ext-src/openswoole_http2_server.cc:1033-1035 | the update is added modulo 2^32 |
| `SessionWindow.Session.OnSentFile` | ext-src/openswoole_http2_server.cc:708-713 | a file sent is subtracted modulo 2^32 |
| `SessionWindow.Session.OpenStream` | ext-src/openswoole_http2_server.cc:43-56 | the stream's window, and exactly when it is the peer's |
| `Http2Response.ResponseFraming` | ext-src/openswoole_http2_server.cc:438-658 | for every sequence of writes and one end, however flow control cut the body: the header block first, the trailer block last if there is one, payloads concatenate to writes + body within the frame size, END_STREAM once and last if and only if the response terminates the stream, otherwise nowhere |
| `Http2Response.WithinGrantExactly` | ext-src/openswoole_http2_server.cc:592-639 | with the grant counted from the peer's settings, later ones included: once end is at rest, DATA stays within it if and only if all data fits, or end is flow-controlled and writes plus opening window fit the peer's initial window |
| `Http2Response.WritesBypassWindow` | ext-src/openswoole_http2_server.cc:532-556 | for a stream that opened with the peer's value: if and only if everything fits, or end is flow-controlled and nothing was written before |
| `Http2Response.ControlledEnd` | ext-src/openswoole_http2_server.cc:592-639 | in a coroutine, with send_yield, outside the coroutine server, without writes, on a stream that opened with the peer's value: in every run at rest end has sent min(body, peer's grant) bytes |
| `Http2Response.UncontrolledEnd` | ext-src/openswoole_http2_server.cc:592-599 | in the coroutine server, with send_yield off, or outside a coroutine: the whole body whatever the window, 265537 bytes against a grant of 65535 |
| `Http2Response.ResponseAsMeant` | ext-src/openswoole_http2_server.cc:480-511 | a peer reads the bytes of a response as the frames meant if and only if header, trailer, pieces of writes and body frames are all shorter than 2^24; a frame size below 2^24 is enough for the data |
| `Http2Response.Response.SendHeader` | ext-src/openswoole_http2_server.cc:438-478 | END_STREAM on HEADERS only when asked and there is no body |
| `Http2Response.Response.SendBody` | ext-src/openswoole_http2_server.cc:480-511 | the splitting loop appends exactly the split frames |
| `Http2Response.Response.Write` | ext-src/openswoole_http2_server.cc:532-556 | headers on first use, then the data, never END_STREAM |
| `Http2Response.Response.End` | ext-src/openswoole_http2_server.cc:558-658 | with the three conditions of the guard written out: under flow control the data out is the writes and min(body, window + increments) of the body, also when it stays parked, and it completes exactly if the body fits; otherwise it completes; a complete response has the framing stated above |
| `ReceiveWindow.AccountingExactly` | ext-src/openswoole_http2_server.cc:982-994 | in every state the window equals initial + announced - received if and only if the first non-empty frame fits the initial window |
| `ReceiveWindow.WindowRange` | ext-src/openswoole_http2_server.cc:982-994 | then it lies in [MAX/4, MAX], increments lie in 1..MAX, and no 24-bit length can underflow it |
| `ReceiveWindow.ConnectionAccounting` | ext-src/openswoole_http2_client_coro.cc:709-724 | over every run with streams opening and closing, connection and stream windows are all exact and in range |
| `ReceiveWindow.ChargedInTotal` | ext-src/openswoole_http2_server.cc:962-994 | over every run the connection is charged exactly the bytes that arrive on open streams before it closes, and only DATA can close it, on the server |
| `ReceiveWindow.AgreementExactly` | ext-src/openswoole_http2_client_coro.cc:680-724 | with both ends modelled and frames under way in both directions: in every state of every run of a legal peer the two connection windows differ by exactly what is under way, if and only if the variable begins with 65535 and no DATA byte arrived for a stream that is not open |
| `ReceiveWindow.SafeConfigurationExactly` | ext-src/openswoole_http2_server.cc:82-98 | for every value the variable begins with: all window variables are exact in every state of every run of a legal peer, whose frames have at most 16384 bytes and fit both its windows, if and only if this is the client or the value is at least 16384 |
| `ReceiveWindow.FirstFrameUnderflows` | ext-src/openswoole_http2_server.cc:982-984 | a server that begins with less than 16384: the run whose first full frame wraps its variable |
| `ReceiveWindow.PeerAtRest` | ext-src/openswoole_http2_client_coro.cc:680-724 | with nothing under way the peer may send the local window less what it began above 65535 and less the bytes that were not charged; and what each stream may send |
| `ReceiveWindow.NeverStalledExactly` | ext-src/openswoole_http2_client_coro.cc:709-724 | no legal peer that loses no byte is ever stalled if and only if the variable begins below MAX/4 + 65535, and with at least 16384 on the server or 1 on the client |
| `ReceiveWindow.ReconnectStalls` | ext-src/openswoole_http2_client_coro.cc:428-495 | one byte received on a first connection with default settings, and a run of the second connection that stalls its peer |
| `ReceiveWindow.NoOverflowExactly` | ext-src/openswoole_http2_client_coro.cc:713-723 | no window at a legal peer ever exceeds the maximum if and only if the variable begins with at least 65535 on the server, or with 65535 or 0 on the client |
| `ReceiveWindow.Receiver.ChargeOne` | ext-src/openswoole_http2_server.cc:982-994 | charges one window and announces back up to the maximum below a quarter |
| `ReceiveWindow.Receiver.OnData` | ext-src/openswoole_http2_server.cc:962-994 | the window part of a DATA frame is a step of the machine and sends exactly the increments due |
| `ReceiveWindow.Receiver.OnOpen` | ext-src/openswoole_http2_server.cc:936-949 | a new stream begins with 65535, one that is open keeps its window; a step of the machine |
| `ReceiveWindow.Receiver.OnClose` | ext-src/openswoole_http2_client_coro.cc:181-190 | the stream and its window are gone, the others stay; a step of the machine |
| `Http2Client.StreamIds` | ext-src/openswoole_http2_client_coro.cc:1177-1273 | in every run the ids returned are 1, 3, 5, ..., and no two are the same 31-bit stream id if and only if there are at most 2^30 |
| `Http2Client.WithinLimit` | ext-src/openswoole_http2_client_coro.cc:1206-1212 | right after a creation the open streams are within the peer's limit, and an accepted request has its stream in the map |
| `Http2Client.SendMeaning` | ext-src/openswoole_http2_client_coro.cc:1129-1150 | a request without headers or room leaves no trace; otherwise a new stream carries the request's pipeline and pipelined-reading flags and nothing else, one that is open stays as it is, and the id is issued unless an array has nothing to encode |
| `Http2Client.LimitInForce` | ext-src/openswoole_http2_client_coro.cc:565-568 | the limit of the peer's last SETTINGS decides whether a request goes out |
| `Http2Client.ClosedForGood` | ext-src/openswoole_http2_client_coro.cc:652-660 | after a reset or END_STREAM, in every run, the stream does not come back and nothing more is handed out for it unless its id is given again; other streams stay |
| `Http2Client.RequestShape` | ext-src/openswoole_http2_client_coro.cc:1177-1273 | HEADERS then DATA carrying the body; END_STREAM once and last if and only if the request is not pipelined and its data is classified as empty or encodes to something; only HEADERS for an array with nothing to encode |
| `Http2Client.EndStreamDiscipline` | ext-src/openswoole_http2_client_coro.cc:1152-1326 | for every run: a peer reads the bytes sent as the frames meant, and each stream has HEADERS first, at most one END_STREAM and no frame after it, if and only if no accepted request follows one given up after its HEADERS, at most 2^30 were accepted, and nothing sent in one frame has 2^24 bytes or more |
| `Http2Client.EndsTwice` | ext-src/openswoole_http2_client_coro.cc:1245-1248 | the three calls after which DATA with END_STREAM follows END_STREAM |
| `Http2Client.LongWrite` | ext-src/openswoole_http2_client_coro.cc:1294-1309 | a write of 2^24 bytes is an empty DATA frame with END_STREAM followed by the data as frames |
| `Http2Client.TurnAdvances` | ext-src/openswoole_http2_client_coro.cc:1152-1175 | a turn of the loop of send_data moves on if and only if the frame size is positive |
| `Http2Client.SetFrameHeader` | include/openswoole_http2.h:173-180 | the nine bytes of a frame header, with the length cut to 24 bits |
| `Http2Client.Client.Transmit` | ext-src/openswoole_http2_client_coro.cc:1152-1175 | appends the bytes of each frame in order |
| `Http2Client.DeliveryConservation` | ext-src/openswoole_http2_client_coro.cc:680-765 | for every run and any mix of recv and read: after END_STREAM the responses concatenate to the DATA received, only the last is not a pipeline one, and the stream has left the map; before that the rest is in the buffer |
| `Http2Client.ReadIsPrompt` | ext-src/openswoole_http2_client_coro.cc:728-758 | in pipelined reading every DATA frame is handed out as it arrives, with nothing left in the buffer |
| `Http2Client.RecvIsWhole` | ext-src/openswoole_http2_client_coro.cc:728-758 | plain recv of a stream returns exactly one response, with all its data, not marked as pipeline |
| `Http2Client.RecvIsPiecewise` | ext-src/openswoole_http2_client_coro.cc:728-758 | recv of a request that asked for pipelined reading returns one response for each DATA frame, with its payload |
| `Http2Client.Client.SendData` | ext-src/openswoole_http2_client_coro.cc:1152-1175 | the splitting loop produces exactly the split frames |
| `Http2Client.Client.SendRequest` | ext-src/openswoole_http2_client_coro.cc:1177-1273 | 0 and no change when refused; 0 with HEADERS sent, the stream kept and the id unchanged for an array with nothing to encode; otherwise the new id; always a step of the machine |
| `Http2Client.Client.WriteData` | ext-src/openswoole_http2_client_coro.cc:1275-1326 | refused unless the stream is an unfinished pipelined request, and for an array with nothing to encode; otherwise one frame and a step of the machine, and the bytes sent are those of the frames |
| `Http2Client.Client.ParseFrame` | ext-src/openswoole_http2_client_coro.cc:680-765 | a step of the machine that hands out the response it delivers |
| `Cookie.DecodeEncode` | ext-src/openswoole_http_client_coro.cc:1028-1033 | decoding an encoded value gives it back |
| `Cookie.DecodeUnescaped` | ext-src/openswoole_http_request.cc:355-360 | without an escape only plus signs change, into blanks; a percent sign that starts no escape stays |
| `Cookie.DecodeEscape` | ext-src/openswoole_http_request.cc:355-360 | an escape in digits of either case stands for the one byte they spell |
| `Cookie.EncodedPlain` | ext-src/openswoole_http_client_coro.cc:1028-1033 | an encoded value has only letters, digits and the signs % + - . _, and a value of such bytes without % and + is encoded to itself |
| `Cookie.TrimDoubleQuote` | ext-src/openswoole_http_request.cc:98-123 | the two loops are the trim function |
| `Cookie.TrimExactly` | ext-src/openswoole_http_request.cc:98-123 | all outer quotes go if and only if no more than half the length, rounded up, are in front, or all are quotes |
| `Cookie.TrimMeaning` | ext-src/openswoole_http_request.cc:98-123 | exactly which part of a value stays: quotes in front go up to half the length, rounded up, and all of those behind |
| `Cookie.UnquotedMeaning` | ext-src/openswoole_http_request.cc:98-123 | the full trim removes quotes only and leaves none outside |
| `Cookie.ParseCookie` | ext-src/openswoole_http_request.cc:297-403 | the character loop reads, on every input, what a reading by semicolon-separated segments gives, length limits included |
| `Cookie.PrintCookies` | ext-src/openswoole_http_client_coro.cc:1010-1040 | the loop prints the entries that are not skipped, with separators by position in the array |
| `Cookie.RoundTripExactly` | ext-src/openswoole_http_request.cc:297-403 | parsing what was printed gives back exactly the printed entries if and only if each has a usable name and a value that fits |
| `Cookie.LastSegmentExactly` | ext-src/openswoole_http_request.cc:376-402 | exactly which last segments are read like the others, whatever came before |
| `Cookie.LastNameOverwrites` | ext-src/openswoole_http_request.cc:376-402 | in a=1;b the name b becomes the value of a |
| `Chunked.HexValue` | src/core/base.cc:477-493 | the digits of a size stand for that size |
| `Chunked.Dec2Hex` | src/core/base.cc:477-493 | the loop produces those digits for any 64-bit value without exhausting its buffer |
| `Chunked.ReadAllChunks` | ext-src/openswoole_http_response.cc:273-290 | chunks of any writes read back as their concatenation, empty writes leaving no trace |
| `Chunked.OnlyEndTerminates` | ext-src/openswoole_http_response.cc:226-291 | before end, no reader sees a complete message |
| `Chunked.ChunkedRoundTrip` | ext-src/openswoole_http_response.cc:682-708 | after any writes and trailers, end leaves one header block; without writes it announces the length of the body if and only if the user's Content-Length says so, or there is none and the answer is not an empty one to HEAD; a chunked body reads back as the writes and every trailer given a value, nothing left over, if and only if no trailer was set, or one is shown and every value has a name that is not an integer, no NUL, no line break and fits the line buffer |
| `Chunked.TrailerMeaning` | ext-src/openswoole_http_response.cc:1069-1098 | a trailer call refuses names of 128 bytes or more; otherwise it changes the value under the stored name only, which is the lower-cased name if it holds no NUL; names keep their order and a new one comes last |
| `Chunked.LinesExact` | ext-src/openswoole_http_response.cc:462-497 | the printed lines are never longer than the lines of all values, and the same if and only if every trailer is whole |
| `Chunked.IntegerKeyMeaning` | ext-src/openswoole_http_response.cc:478-481 | the names that are skipped are the shortest decimal forms of the 64-bit integers, and no others |
| `Chunked.ReadInverse` | ext-src/openswoole_http_response.cc:462-497 | whatever trailers are read determine the bytes that were sent |
| `Chunked.NullTrailerTruncates` | ext-src/openswoole_http_response.cc:669-680 | a single null trailer leaves the message unterminated |
| `Chunked.NumericTrailerTruncates` | ext-src/openswoole_http_response.cc:478-481 | so does a single trailer 1 with the value x |
| `Chunked.Response.Write` | ext-src/openswoole_http_response.cc:226-291 | a step of the machine; false for empty data, which still sends the header |
| `Chunked.Response.SetTrailer` | ext-src/openswoole_http_response.cc:1069-1098 | refuses long names, otherwise stores under the lower-cased key buffer, of which the bytes after a NUL are what the call found there; a step of the machine |
| `Chunked.Response.BuildTrailer` | ext-src/openswoole_http_response.cc:462-497 | the loop prints the trailers that are not null and not under an integer key, cut at NUL and at the line buffer, and counts their bytes |
| `Chunked.Response.SendTrailer` | ext-src/openswoole_http_response.cc:669-680 | sends nothing when there were no lines |
| `Chunked.Response.End` | ext-src/openswoole_http_response.cc:682-770 | a step of the machine, with the user's Content-Length and the HEAD case |
| `HeaderSearch.ShortSearch` | ext-src/openswoole_http_client_coro.cc:1410-1421 | restarting four bytes before the old end finds the same position as searching everything |
| `HeaderSearch.Detection` | ext-src/openswoole_http_client_coro.cc:1394-1427 | however the response arrives, the search stops after the same recv as a full rescan, with the same bytes, or with an error exactly when the buffer is full without an end |
| `HeaderSearch.VerdictUnique` | ext-src/openswoole_http_client_coro.cc:1394-1427 | only one result agrees with the full rescan |
| `HeaderSearch.Receiver.OnRecv` | ext-src/openswoole_http_client_coro.cc:1410-1427 | one turn of the loop is a step of the search |
| `HeaderSearch.Receiver.ReceiveHeader` | ext-src/openswoole_http_client_coro.cc:1394-1427 | the loop returns what the full rescan gives |
| `Multipart.LengthExactly` | ext-src/openswoole_http_client_coro.cc:1059-1217 | the computed length is never less than the bytes sent, and equal if and only if every part header fits its buffer and holds no NUL |
| `Multipart.BodyReadsBackExactly` | ext-src/openswoole_http_client_coro.cc:1113-1217 | a reader that splits the body at its boundary gets exactly the fields and files with their names, file names, types and contents, files from their offset on, if and only if every part header fits its buffer without NUL, no header has an empty line and no content the delimiter |
| `Multipart.ReadInverse` | ext-src/openswoole_http_client_coro.cc:1113-1217 | the parts that are read determine the bytes that were sent |
| `Multipart.AnnouncedExactly` | ext-src/openswoole_http_client_coro.cc:161-165 | the announced 32-bit length is then right if and only if the body is shorter than 2^31 |
| `Multipart.BaseMeaning` | ext-src/openswoole_http_client_coro.cc:1893-1902 | the default file name is what follows the last slash of the path |
| `Multipart.Client.AddFile` | ext-src/openswoole_http_client_coro.cc:1841-1916 | refuses exactly missing or empty files and ranges outside the file; the entry added has its true size |
| `Multipart.Client.AddData` | ext-src/openswoole_http_client_coro.cc:1918-1956 | the entry added has the size of its content |
| `Multipart.Client.ContentLength` | ext-src/openswoole_http_client_coro.cc:1059-1110 | the two loops add up the computed length |
| `Multipart.Client.Send` | ext-src/openswoole_http_client_coro.cc:1059-1217 | announces the computed length and sends the body |

## Left out

- Send failures, timeouts of I/O, RST_STREAM and GOAWAY while a responder is parked: the sending theorems are about successful sends. The server does not keep to the peer's connection window at all, and nothing is claimed about it.
- The 32-bit wrap of a stream's send window is modelled; the theorems about the closed form assume it does not happen, and `FlowControl.ExactWithoutWrapOnly` shows that this is needed.
- HPACK, zlib, llhttp, OpenSSL: header blocks are opaque byte strings and bodies are not compressed or padded.
- PHP's urlencode and urldecode, its storing of numeric names as integer keys, and the kernel's FUTEX_WAKE are not part of the repository; the model writes out their known behaviour.
- A request or a write is one event, although its sends can yield: a stream deleted by an early response or a reset while they do is not modelled.
- Settings changed on a client object while it is connected, and padding.
- Fiber contexts, bailout, fatal errors, nested silence, changes of max_concurrency during a run: they depend on Zend internals.
- The `open_length_check` branch of the client's `recv`, the non-futex form of atomic wait, and the cookie parser with url decoding switched off.
- Channel, Lock, Process, PostgreSQL, curl and the other wrappers around the operating system or other libraries.
- Chunked.ChunkedRoundTrip: other header lines, upgrades to WebSocket and compression are not modelled.
- Multipart.LengthExactly: a file is assumed not to change between addFile and the request.
- Scheduler.SilenceIsolation: nested silence is excluded; the source keeps a single saved level per coroutine.
- HeaderSearch.Detection: the parser that consumes the response after the header is not modelled.
