# uzel message fabric — a Dafny model of its core

uzel connects applications on a set of hosts. Each host runs a relay (the
`userver` application). Leaf applications talk only to the relay of their
own node, and relays talk to one another. All traffic is newline-framed
JSON: a message is a property-tree header (`from.a`, `from.n`, `to.a`,
`to.n`, ...) plus a body, which is either a tree embedded under the header
key `"body"` or raw characters on the following line.

This project models the sequential decision logic of that fabric as pure
Dafny functions over immutable data and proves what the code promises:

- **AccuLine**: cutting a chunked character stream into lines and
  carrying the unterminated tail over to the next chunk.
- **InputProcessor**: turning lines into messages, authenticating the
  first message of a connection, dispatching the rest.
- **Messages**: header-derived addressing (`updateDest`, `setDest`,
  `setFromLocal`, `updateFrom`) and the wire form of `str` / `move_tostr`.
- **PTree**: the small part of boost property trees the core uses.
- **Priorities** and **Decimal**: the priority enumeration and its text
  codecs (`operator<<`, `operator>>`, `get_value`, `put_value`), with
  `std::to_string`, `std::from_chars` and `int` stream extraction.
- **Dump**: the bounded, newline-escaping log renderer.
- **StrandDispatcher**: the snapshot-vector handler registry with removal
  by id. **SingleDispatcher**: the single-slot registries.
- **Outgoing**: the per-host status machine of the outgoing connection
  manager, its periodic tick, and the decision of how many sessions to
  open to a resolved address.
- **Sessions**: one connection as an event machine. It has a FIFO of
  serialized frames written one at a time, a read loop that feeds the
  input processor, and the start-up that queues the authentication
  message.
- **NetServer**: the relay's tables (sessions per IP, local applications,
  channels to remote nodes), the accept cap, routing and the
  authentication hook. **NetLeaf**: the leaf's peer policy and its
  outgoing-manager set-up.
- **UConfig**: node identity and the comma-split list of remote hosts.

JSON itself is abstract. A writer `enc: Tree -> string` and a reader
`dec: string -> Option<Tree>` are parameters. `Codec(enc, dec)` says the
reader reads back every tree the writer writes, and `Compact(enc)` says
written JSON holds no raw line break. On those two assumptions alone the
model proves the wire round trip: a stream of `move_tostr` frames fed to
`processNewInput` in an authenticated connection dispatches exactly those
messages, in order, and leaves the processor as it was
(`InputProcessor.ReceiveFrames`).

Sockets, timers and completions become events and parameters:

- the clock is a `now` argument, in nanoseconds of the steady clock;
- the node index is a function `connected: string -> Option<bool>`;
- sessions and channels are opaque ids;
- what the server asks of them comes back as a list or set of actions.

## Where the code and its documentation disagree

The model follows the code in each case.

- **Two-line messages are never delivered.** The comment at
  src/uzel/inputprocessor.h:25-29 describes big messages sent as a
  header line followed by a raw body line. The code resets the pending
  header after every header line, whether or not it had a `"body"` child
  (src/uzel/inputprocessor.cpp:30). So a header line without `"body"` is
  dropped, and the raw-body branch (src/uzel/inputprocessor.cpp:38-40)
  runs only when the pending header is the empty tree a failed parse left
  behind (src/uzel/inputprocessor.cpp:17-18). A session stops reading
  after such a failure, so that branch is never reached.
  - `InputProcessor.RawFrameBodyReadAsHeader` shows the result for a
    raw-body frame as written by `str()`/`move_tostr()`: its body line is
    parsed as the next header.
  - `InputProcessor.RunNoRawBodies` shows that no message with a raw body
    ever comes out of a session's read loop.
- **`str()` of a structured body is not what the receiver expects.** It
  writes the header line and then the body tree as a second line
  (src/uzel/msg.cpp:80-82). The receiver drops the first line and reads
  the body line as a header. Only `move_tostr()` (src/uzel/msg.cpp:100-103)
  produces the one-line form the receiver understands. The session's
  by-copy `putOutQueue` (src/uzel/session.cpp:105-113) uses `str()`.
- **The outgoing manager's constructor does not match its declaration.**
  src/uzel/OutgoingManager.h:88-92 declares it with a `ConnectedFn`
  callback. app/userver/OutgoingManager.cpp:15-25 defines it with a node
  table and asks `m_nodeToSession.find(peer)->second.connected()`
  (app/userver/OutgoingManager.cpp:175-188). The model takes the callback
  form. An unknown node reads as `None`; the code logs that case as
  impossible and skips it.
- **The authentication message's constructor has no definition.**
  src/uzel/session.cpp:31 builds it with `Msg("", "", body)`, a
  three-argument constructor declared at src/uzel/msg.h:32 but not defined
  in msg.cpp. The model builds it with the `Msg(Addr, body)` constructor
  (src/uzel/msg.cpp:32-39) and empty destination fields, which gives a
  service message from this application.
- **The session files are an older interface than their callers use.**
  src/uzel/session.h:26 declares `session(socket, int priority)`, and
  src/uzel/session.cpp:9 defines `session(socket)`. The server and the
  outgoing manager construct sessions with a context, a direction and an
  address (app/userver/netserver.cpp:89, app/userver/OutgoingManager.cpp:223).
  They also call members that neither session file declares or defines:
  - `peerIsLocal`, `peerApp` and `peerNode` (app/userver/netserver.cpp:188-199,
    src/uzel/NetLeaf.cpp:51-58, app/userver/OutgoingManager.cpp:172-173);
  - `remoteIp` and `s_closed` (app/userver/netserver.cpp:73-75, 105);
  - `gracefullClose` (app/userver/netserver.cpp:92, src/uzel/NetLeaf.cpp:54);
  - `direction` and `authenticated` (app/userver/OutgoingManager.cpp:166-169).

  The model reads the peer accessors as the input processor's
  authenticated peer. `peerApp` and `peerNode` become `peer.app` and
  `peer.node`, and `peerIsLocal` becomes `IsLocalNode(cfg, peer.node)`,
  the same test the processor's policy applies (`NetServer.Auth`,
  `NetLeaf.LeafAuth`). `NetLeaf.LeafAcceptsProcessorPeers` depends on this
  reading: a locality test on the remote IP address instead could refuse a
  peer the processor accepted. The remaining members are inputs or
  effects:
  - `remoteIp` is the `ip` argument of `NetServer.OnSessionCreated`,
    `OnSessionClosed` and `Accept`;
  - `direction`, `authenticated` and `peerNode` make up `Outgoing.SessionInfo`;
  - `s_closed` is the close event (`Outgoing.OnCreatedSessionClosed`,
    `NetServer.OnSessionClosed`);
  - `gracefullClose` is an action.

## Model

| member | source | states |
|---|---|---|
| AccuLine.AddNewInput | src/uzel/acculine.h:18-21 | the new block replaces the current one; the carried remainder is kept, and a remainder without line breaks stays so |
| AccuLine.FindEol | src/uzel/acculine.h:33 | find_first_of('\n'): none exactly when the text has no line break, else the first position holding one |
| AccuLine.GetNextCmd | src/uzel/acculine.h:29-48 | an empty block gives none and changes nothing; a block without '\n' joins the remainder and gives none; otherwise the remainder plus the text before the first '\n' is returned, the block is consumed through that '\n' and the remainder cleared, and remainder+block == line + "\n" + what is left; returned lines never hold '\n' |
| AccuLine.NextCmdOfLine | src/uzel/acculine.h:33-47 | a block that starts with a newline-free line and '\n' hands out exactly the remainder glued to that line, and leaves the rest of the block |
| AccuLine.EmptyLineIsReturned | src/uzel/acculine.h:40-47 | a '\n' at the start of the block with no remainder yields the empty line, not a skip |
| AccuLine.EmptyLinesExample | src/uzel/acculine.h:40-47 | draining "\n\n" yields two empty lines |
| AccuLine.DrainConserves | src/uzel/acculine.h:29-48 | calling getNextCmd until none loses nothing: the lines, each followed by '\n', then the new remainder, equal the old remainder followed by the block |
| AccuLine.DrainLinesHaveNoEol | src/uzel/acculine.h:33-46 | no line handed out by a drain holds '\n', and the remainder stays free of line breaks |
| AccuLine.FeedConserves | src/uzel/acculine.h:18-48 | over any sequence of blocks, each drained in turn, the returned lines with their '\n' followed by the final remainder are the starting remainder followed by all blocks concatenated |
| AccuLine.FeedFromEmpty | src/uzel/acculine.h:18-52 | from a fresh accumulator, the lines with their '\n' plus the unterminated tail are exactly the stream |
| PTree.Put | src/uzel/msg.cpp:55-56 | put(path, value) sets that path and leaves every other path's data as it was |
| PTree.Child | src/uzel/inputprocessor.cpp:23-26 | the subtree under a key holds exactly the paths below that key, with their data |
| PTree.EraseChild | src/uzel/inputprocessor.cpp:27 | erase(key) removes exactly the paths under the key and keeps every other path and its data |
| PTree.PutChild | src/uzel/msg.cpp:101-102 | put_child(key, c) makes the paths under key exactly those of c, with c's data, keeps the paths not under key, and the key is present exactly when c is not empty |
| PTree.ChildOfPutChild | src/uzel/msg.cpp:101-102 | the child read back after put_child is the subtree that was put |
| PTree.EraseOfPutChild | src/uzel/inputprocessor.cpp:27 | erasing the child that was put gives the original tree without that child |
| PTree.EraseAbsentChild | src/uzel/inputprocessor.cpp:27 | erasing a key that is not there changes nothing |
| Decimal.ToDecimal | src/uzel/priority.h:58 | std::to_string of a non-negative number: a non-empty run of digits without a leading zero |
| Decimal.FromChars | src/uzel/priority.h:46-49 | from_chars into int succeeds only with a value in the 32-bit int range |
| Decimal.FromCharsOfToDecimal | src/uzel/priority.h:46 | from_chars reads back the value to_string wrote, whatever non-digit text follows |
| Decimal.SkipSpace | src/uzel/priority.h:27 | the leading-whitespace skip of stream extraction leaves a suffix that does not start with whitespace |
| Decimal.ReadInt | src/uzel/priority.h:27 | `is >> int` succeeds only with a value in the int range, consumes at least one character, and stops before any further digit |
| Decimal.ReadIntOfToDecimal | src/uzel/priority.h:21 | stream extraction reads back the value `os << int` wrote, and leaves exactly the text after it |
| Priorities.FromIntegral | src/uzel/priority.h:16 | _from_integral_nothrow succeeds exactly for 0, 10, 11 and 255 after conversion to the 16-bit underlying type, and returns the enumerator with that value |
| Priorities.ToIntegral | src/uzel/priority.h:16 | _to_integral gives one of 0, 10, 11 and 255, all inside the 16-bit underlying type |
| Priorities.ToIntegralInRange | src/uzel/priority.h:16 | every enumerator's value fits the 16-bit underlying type and int |
| Priorities.FromToIntegral | src/uzel/priority.h:16 | low=0, high=10, control=11, undefined=255 are distinct and each converts back to its enumerator |
| Priorities.PutValue | src/uzel/priority.h:57-59 | put_value (and operator<<) text is read by from_chars and by stream extraction as the enumerator's value, with nothing left over |
| Priorities.GetValue | src/uzel/priority.h:44-55 | none when from_chars fails, otherwise exactly the enumerator with the parsed value, or none when there is no such enumerator |
| Priorities.GetValueOfPutValue | src/uzel/priority.h:44-59 | get_value(put_value(p)) == p for every priority, even with non-digit text appended |
| Priorities.LenientSuffixExample | src/uzel/priority.h:46-47 | the end position is not checked: "10x" reads as high |
| Priorities.GetValueRejectsExample | src/uzel/priority.h:46-54 | "5" (not an enumerator), "x10" and "+10" (no number for from_chars) give none |
| Priorities.WideValueWrapsExample | src/uzel/priority.h:50 | "65546" is narrowed to the 16-bit type and reads as high |
| Priorities.Extract | src/uzel/priority.h:24-35 | operator>>: the stream stays good exactly when an int is read and names an enumerator, which then becomes the priority; otherwise the priority is unchanged, and an undeclared value also fails the stream after the number |
| Priorities.ExtractOfPutValue | src/uzel/priority.h:19-35 | writing a priority with << and reading it with >> gives it back, whatever the variable held before, and leaves the following text |
| Priorities.ExtractFailureKeeps | src/uzel/priority.h:27-33 | a failed extraction never changes the priority |
| Dump.Escape | src/uzel/dump.h:26-31 | '\n' is rendered as the two characters '\\' 'n', any other character as itself |
| Dump.RenderHasNoEol | src/uzel/dump.h:26-31 | the rendering of any buffer holds no raw line break |
| Dump.RenderLength | src/uzel/dump.h:26-31 | the rendering is never shorter than the buffer, and a buffer without '\n' is rendered verbatim |
| Dump.RenderNotInjective | src/uzel/dump.h:27-30 | a line break and a backslash followed by 'n' render alike |
| Dump.Print | src/uzel/dump.h:15-35 | maxsize < 5 is exactly the error case; otherwise the output starts with "[", is the whole rendered buffer and "]" when it fits in maxsize-3 characters, else the first maxsize-3 characters rendered and "...]", and has no raw line break |
| Dump.DumpDefault | src/uzel/dump.h:52 | dump() uses the bound 200 |
| UConfig.IsLocalNodeExact | src/uzel/uconfig.cpp:28-31 | isLocalNode holds for the node name and for no other name, so "localhost" is local only on a node of that name |
| UConfig.Remotes | src/uzel/uconfig.cpp:33-41 | no returned host name contains a comma |
| UConfig.JoinCommaPieces | src/uzel/uconfig.cpp:36-39 | the pieces between commas, joined again with commas, give the configured text back |
| UConfig.CommaPiecesOfJoin | src/uzel/uconfig.cpp:36-39 | comma-free names joined with commas are cut back into exactly those names |
| UConfig.RemotesOfJoin | src/uzel/uconfig.cpp:36-39 | a list of comma-free names with no whitespace next to a separator and no empty last name is returned unchanged from its comma-joined text |
| UConfig.RemotesOfTwo | src/uzel/uconfig.cpp:36-39 | for "x,y", the first name loses its trailing and the second its leading whitespace |
| UConfig.RemotesKeepsOuterSpace | src/uzel/uconfig.cpp:36-39 | " a, b " gives " a" and "b ": whitespace not next to a comma is kept |
| UConfig.RemotesDropsSeparatorSpace | src/uzel/uconfig.cpp:36 | whitespace on both sides of a comma goes with the separator |
| Messages.Classify | src/uzel/msg.cpp:144-166 | service exactly when to.n and to.a are both empty; local-broadcast exactly when to.n is the local node and to.a is "*"; broadcast exactly when to.n is "*" and not the local node; remote exactly for any other non-empty to.n; local otherwise |
| Messages.UpdateDest | src/uzel/msg.cpp:144-166 | the cached destination becomes Addr(to.a, to.n) with missing fields as "", the type follows the classification, and header, body and source are untouched |
| Messages.DestPredicates | src/uzel/msg.cpp:172-196 | on a message whose cached fields are in step with its header: isBroadcast, isLocalBroadcast, isRemote and isLocal are each exactly their condition on to.n and to.a, none holds exactly for a service message, and fromLocal is isLocalNode of from.n |
| Messages.UpdateFrom | src/uzel/msg.cpp:139-142 | the cached source becomes Addr(from.a, from.n) with missing fields as "", and nothing else changes |
| Messages.Incoming | src/uzel/msg.cpp:17-30 | a received message starts with its cached source, destination and type in step with its header |
| Messages.SetDest | src/uzel/msg.cpp:48-59 | to.n and to.a are written only when both destination fields are set, "localhost" becoming the node name, and no other path changes; otherwise the header is untouched; the cached fields are recomputed either way |
| Messages.SetFromLocal | src/uzel/msg.cpp:61-68 | from.n and from.a become this node and application, the cached source agrees with them, and no other path changes |
| Messages.ToDest | src/uzel/msg.cpp:32-39 | a new message from this application with a structured body, addressed to dest when both fields are set and a service message otherwise, with consistent cached fields |
| Messages.Forward | src/uzel/msg.cpp:41-46 | forwarding keeps the body, makes this application the source, and readdresses only when both dest fields are set |
| Messages.FromLocalOfOwnMessages | src/uzel/msg.cpp:184-187 | fromLocal holds for every message this node builds, stamps or forwards |
| Messages.Str | src/uzel/msg.cpp:71-89 | a raw body goes out as header line, body characters and '\n'; a structured body as two lines, header then body |
| Messages.MoveToStr | src/uzel/msg.cpp:91-106 | a structured body goes out as one line: the header with the body put under "body"; a raw body as with str() |
| InputProcessor.AuthPolicy | src/uzel/inputprocessor.cpp:52-89 | an accepted source has a non-empty application and node; outside the relay, only the relay is accepted; the relay never accepts another relay of its own node; a relay whose node is local exactly when this application is not the relay is always accepted |
| InputProcessor.AuthPolicyCases | src/uzel/inputprocessor.cpp:52-89 | an empty source application or node is refused; the relay accepts exactly a local non-relay or a remote relay; any other application accepts exactly the relay of its own node |
| InputProcessor.ProcessMsg | src/uzel/inputprocessor.cpp:92-102 | once a peer is known every message is dispatched; before that a refused message signals rejection only and leaves the peer unset, an accepted one records the peer, signals authentication and then dispatches the same message |
| InputProcessor.SplitBody | src/uzel/inputprocessor.cpp:23-28 | a header line carrying "body" yields one message whose header no longer has "body" and whose body is that subtree, with consistent cached fields |
| InputProcessor.HandleLine | src/uzel/inputprocessor.cpp:14-40 | with no pending header, a line succeeds exactly when it parses; after a success no header is pending; a failure leaves the empty tree pending, emits nothing and keeps the peer |
| InputProcessor.Pump | src/uzel/inputprocessor.cpp:13-41 | a failed parse ends the loop with the empty tree pending; when it runs through, the accumulator is drained and no header is pending; an authenticated peer is kept |
| InputProcessor.PumpOkIffLinesParse | src/uzel/inputprocessor.cpp:13-42 | with no header pending, the loop runs to the end exactly when every complete line of the block parses |
| InputProcessor.FirstFailure | src/uzel/inputprocessor.cpp:13-35 | the position of the first line that does not parse, or the number of lines when every line parses; every line before it parses |
| InputProcessor.HandleLines | src/uzel/inputprocessor.cpp:14-40 | reference for the loop body applied to each line of a list in turn; it neither reads nor changes the accumulator |
| InputProcessor.PumpStopsAtFirstFailure | src/uzel/inputprocessor.cpp:13-41 | with no header pending, the loop produces exactly the events of the lines before the first unparsable line, handled in order, and the same peer; it returns true exactly when there is no such line, and otherwise leaves the lines after it undrained (the catch returns at once) |
| InputProcessor.ProcessNewInput | src/uzel/inputprocessor.cpp:9-43 | processNewInput returns true exactly when every complete line parses; the unterminated tail stays in the accumulator; a failure leaves the empty tree pending |
| InputProcessor.ProcessNewInputStopsAtFirstFailure | src/uzel/inputprocessor.cpp:9-43 | over the lines of the new block: true exactly when no line fails; the events are those of the lines before the first failing one, handled in order, and on success those of every line; after a failure the lines past the failing one are still in the accumulator |
| InputProcessor.ReceiveOneLine | src/uzel/inputprocessor.cpp:23-28 | the line move_tostr writes for a structured message is parsed back into the same message |
| InputProcessor.HandleOneLine | src/uzel/inputprocessor.cpp:14-30 | an authenticated processor dispatches the message of a move_tostr line and keeps its state |
| InputProcessor.PumpFrames | src/uzel/inputprocessor.cpp:13-41 | a stream of move_tostr frames is dispatched message by message, in order and unchanged, and the processor returns to its state |
| InputProcessor.ReceiveFrames | src/uzel/inputprocessor.cpp:9-43 | a stream of move_tostr frames given to processNewInput in one block returns true, dispatches exactly those messages in order, and leaves the processor as it was |
| InputProcessor.PumpNoRawBodies | src/uzel/inputprocessor.cpp:30-40 | with no header pending, every message the loop produces has a structured body |
| InputProcessor.HeaderOnlyLineDropped | src/uzel/inputprocessor.cpp:23-30 | a header line without "body" produces nothing and the loop continues with the next line as if it had not been there |
| InputProcessor.LastLineAsHeader | src/uzel/inputprocessor.cpp:14-36 | the last line of a block is read as a header: unparsable, it fails the block; without "body", it is consumed silently |
| InputProcessor.RawFrameBodyReadAsHeader | src/uzel/inputprocessor.cpp:14-40 | a raw-body frame as str() writes it is never delivered: its header line is dropped and its body line is read as a header |
| InputProcessor.ProcessNewInputKeepsPendingEmpty | src/uzel/inputprocessor.cpp:17-30 | the only header that can ever be pending is the empty tree a failed parse leaves |
| InputProcessor.RunNoRawBodies | src/uzel/inputprocessor.cpp:30-40 | over a connection that stops reading at the first failure, no header is pending after a successful block and no message carries a raw body |
| InputProcessor.Run | src/uzel/session.cpp:59-77 | feeding blocks in turn until one fails: a failure leaves the empty tree pending, an authenticated peer is kept, and an empty pending header stays the only one possible |
| StrandDispatcher.Dispatch | src/uzel/dispatcher.cpp:6-26 | the cname's handlers run first, in vector order, only when the message is to this application; then every catch-all handler runs, in vector order |
| StrandDispatcher.RemoveId | src/uzel/dispatcher.cpp:37-40 | remove_if keeps exactly the entries with another id |
| StrandDispatcher.RemoveIdAppend | src/uzel/dispatcher.cpp:37-40 | removal works piecewise, so the kept entries keep their order |
| StrandDispatcher.RemoveAbsentId | src/uzel/dispatcher.cpp:37-40 | removing an id that is not present changes nothing |
| StrandDispatcher.Disconnect | src/uzel/dispatcher.cpp:28-55 | a dispatcher that is gone is left alone; an absent cname or catch-all vector is left alone; otherwise the targeted vector loses exactly the id's entries and is erased or reset when left empty, and every other vector is unchanged |
| StrandDispatcher.DisconnectKeepsNoEmptyBuckets | src/uzel/dispatcher.cpp:34-51 | disconnect never leaves an empty vector installed |
| StrandDispatcher.DispatchAfterCnameDisconnect | src/uzel/dispatcher.cpp:34-42 | after disconnecting an id from a cname, dispatching runs the same handlers minus that id's |
| StrandDispatcher.DispatchAfterAnyPostDisconnect | src/uzel/dispatcher.cpp:43-50 | after disconnecting an id from the catch-all vector, dispatching runs the same handlers minus that id's catch-alls |
| StrandDispatcher.DisconnectIdempotent | src/uzel/dispatcher.cpp:28-55 | disconnecting twice is the same as once |
| SingleDispatcher.Register | src/uzel/dispatcher.h:9-11 | the handler is stored under its cname, replacing any earlier one; other cnames are untouched |
| SingleDispatcher.Dispatch | src/uzel/dispatcher.h:13-18 | at most one handler runs: the one registered for the cname, exactly when there is one |
| SingleDispatcher.DispatchWithSession | src/uzel/dispatcher.h:31-36 | the session dispatcher calls the same handlers, each with the session |
| SingleDispatcher.DispatchRegistered | src/uzel/dispatcher.h:9-18 | a registered handler is called exactly once for its cname |
| SingleDispatcher.RegisterOtherCname | src/uzel/dispatcher.h:9-11 | registering one cname leaves the dispatch of every other cname unchanged |
| SingleDispatcher.RegisterReplaces | src/uzel/dispatcher.h:9-11 | the later registration wins |
| SingleDispatcher.DispatchUnregistered | src/uzel/dispatcher.h:13-18 | a message with an unregistered cname reaches no handler |
| Outgoing.NewRemoteHost | src/uzel/OutgoingManager.h:22-27 | a new target starts in status initial, stamped now, with the given name, service and wanted count |
| Outgoing.SetStatus | src/uzel/OutgoingManager.h:29-32 | the status is set and the timestamp refreshed even when the status is unchanged; name, service and wanted count stay |
| Outgoing.WholeSeconds | app/userver/OutgoingManager.cpp:79 | duration_cast to seconds rounds a non-negative duration down to whole seconds |
| Outgoing.ShouldResolve | app/userver/OutgoingManager.cpp:70-90 | an initial host is due; a host that is resolving, connecting or connected is not; any other host is due only after the reconnect delay has passed since its status changed |
| Outgoing.RetryDelay | app/userver/OutgoingManager.cpp:75-82 | a failed or closed host is due exactly when at least 31 whole seconds have passed since its status changed |
| Outgoing.StartConnectingHost | app/userver/OutgoingManager.cpp:27-32 | the local node is never registered; an existing entry is kept; a new one starts initial with the port as service and the default wanted count |
| Outgoing.StartConnectingHostIdempotent | app/userver/OutgoingManager.cpp:27-32 | registering a host again, at any time, changes nothing |
| Outgoing.StartResolving | app/userver/OutgoingManager.cpp:93-101 | starting a resolution sets the status to resolving |
| Outgoing.Tick | app/userver/OutgoingManager.cpp:63-91 | a tick starts resolving exactly the hosts that are initial or failed/closed for longer than the delay, marks them resolving, and leaves every other host as it was |
| Outgoing.TickIdempotent | app/userver/OutgoingManager.cpp:63-91 | a second tick at the same moment starts nothing and changes nothing |
| Outgoing.ReconnectAfterDelay | app/userver/OutgoingManager.cpp:75-82 | a failed or closed host is picked up by the first tick at least 31 seconds later |
| Outgoing.Decide | app/userver/OutgoingManager.cpp:150-212 | with no sessions for the host, create the wanted count; already connected exactly when some outgoing authenticated session's node is fully connected; wait only with enough outgoing sessions and some of them unauthenticated; a creation brings the outgoing count up to the wanted count, or one past it when it is reached already |
| Outgoing.CreationEffects | app/userver/OutgoingManager.cpp:220-242 | every created session is announced, then watched for closing, then connected |
| Outgoing.ScanBucket | app/userver/OutgoingManager.cpp:164-190 | the scan stops exactly when some outgoing, authenticated session's node is fully connected; otherwise it counts the outgoing and the unauthenticated outgoing sessions |
| Outgoing.CreateSessions | app/userver/OutgoingManager.cpp:220-242 | the creation loop's effects for n sessions, in order |
| Outgoing.ConnectResolved | app/userver/OutgoingManager.cpp:104-246 | a resolution error sets resolving_error and pokes; otherwise the decision is followed: already connected sets connected and waiting sets connecting, each without creating anything and without touching a host already in that status; creating n sessions sets connecting and emits the creation effects of n sessions; name, service and wanted count never change |
| Outgoing.OnCreatedSessionClosed | app/userver/OutgoingManager.cpp:227-231 | a created session closing marks its host closed and pokes |
| Outgoing.IncomingIgnored | app/userver/OutgoingManager.cpp:164-190 | an incoming session in the bucket never changes the decision |
| Outgoing.OnlyFullyConnectedCounts | src/uzel/OutgoingManager.h:61-75 | an unknown node and a partly connected node lead to the same decision |
| Outgoing.CreationBound | app/userver/OutgoingManager.cpp:192-211 | below the wanted count the outgoing sessions end exactly at it; the count goes past it only by one, and only when every outgoing session is authenticated |
| Sessions.NewSession | src/uzel/session.cpp:9-15 | a new session has an empty queue, no write in flight, no read pending, and a fresh processor |
| Sessions.DoWrite | src/uzel/session.cpp:80-86 | do_write on an empty queue does nothing; otherwise it starts writing the front frame |
| Sessions.PutOutQueue | src/uzel/session.cpp:105-123 | exactly one frame is appended at the tail, earlier frames untouched; a write starts only when the queue was empty; at most one write stays in flight |
| Sessions.PutOutQueueOneWrite | src/uzel/session.cpp:108-112 | a new write starts only when none was in flight |
| Sessions.PutMsg | src/uzel/session.cpp:105-123 | a copied message is queued as str(), a moved one as move_tostr() |
| Sessions.WriteDone | src/uzel/session.cpp:88-100 | success pops exactly the front frame onto the wire and writes on while frames remain; an error keeps the queue and stops writing; sent-then-queued frames are unchanged |
| Sessions.StallAfterWriteError | src/uzel/session.cpp:90-91 | after a write error, later frames only pile up and no write ever starts again |
| Sessions.AuthMsg | src/uzel/session.cpp:28-31 | the start-up message comes from this application, with body auth.pid and no destination |
| Sessions.Start | src/uzel/session.cpp:26-33 | start queues the authentication message (moved) and then issues the first read |
| Sessions.ConnectDone | src/uzel/session.cpp:48-56 | a failed connect reports the host name and does not start; success starts the session |
| Sessions.SignalOf | src/uzel/session.cpp:12-14 | a rejection raises no session signal; authentication becomes s_auth and a dispatch becomes s_dispatch, with the same message |
| Sessions.Signals | src/uzel/session.cpp:12-14 | reference: the signals of the events in order; when nothing is rejected, one signal per event at the same position |
| Sessions.HandleEvents | src/uzel/session.cpp:12-14 | a rejection closes the socket and otherwise the open state stays; the signals are exactly those of the events in order; m_msg1 becomes the message of the last authentication, and is unchanged without one; the queue is untouched |
| Sessions.ReadDone | src/uzel/session.cpp:59-77 | a read error ends reading; otherwise the block goes to the processor, reading continues exactly when it handled every line, and the signals are those of the processor's events in order |
| Sessions.SignalsOfDispatches | src/uzel/session.cpp:12-14 | dispatch events for a list of messages become one s_dispatch per message, in order |
| Sessions.ReadFrames | src/uzel/session.cpp:59-77 | an authenticated session that reads a stream of move_tostr frames signals a dispatch of each message in order, keeps reading and keeps its processor |
| Sessions.Disconnect | src/uzel/session.cpp:126-129 | disconnect closes the socket |
| Sessions.Step | src/uzel/session.cpp:26-129 | one event writes at most one frame to the wire and never takes one back; only a read completion touches the processor; put, write completion, start and close raise no signal |
| Sessions.Run | src/uzel/session.cpp:80-123 | over a run of events, the frames on the wire only grow, by at most one per event |
| Sessions.StepKeeps | src/uzel/session.cpp:80-123 | every event keeps at most one write in flight and keeps written plus queued frames equal to what was put in, in order |
| Sessions.RunFifo | src/uzel/session.cpp:80-123 | over any run of events, the frames on the wire followed by those still queued are exactly the frames put in, in order |
| Sessions.StartQueuesAuthFirst | src/uzel/session.cpp:26-33 | a fresh session's first frame is the authentication message, being written, with a read pending |
| NetServer.OnSessionCreated | app/userver/netserver.cpp:71-78 | the session joins its IP's set; every other entry is unchanged |
| NetServer.OnSessionClosed | app/userver/netserver.cpp:103-106 | the session leaves its IP's set; every other entry is unchanged |
| NetServer.CreatedThenClosed | app/userver/netserver.cpp:71-106 | a session created and then closed leaves its IP's set as it was |
| NetServer.Accept | app/userver/netserver.cpp:82-100 | an accepted session is indexed first, then closed if its IP has more than the maximum and started otherwise; the acceptor is always re-armed |
| NetServer.AcceptCap | app/userver/netserver.cpp:88-96 | a new session starts exactly when fewer than 10 sessions from its IP were indexed before it |
| NetServer.Route | app/userver/netserver.cpp:110-119 | every target is routed to itself |
| NetServer.FindAddRemote | app/userver/netserver.cpp:122-133 | the channel to the node is found, or exactly one is added; nothing else changes |
| NetServer.FindAddRemoteIdempotent | app/userver/netserver.cpp:122-133 | a second lookup adds nothing |
| NetServer.HandleLocalMsg | app/userver/netserver.cpp:136-142 | a local message goes to the session of its destination application, or is dropped |
| NetServer.HandleLocalBroadcastMsg | app/userver/netserver.cpp:144-151 | a local broadcast goes to every local session |
| NetServer.HandleBroadcastMsg | app/userver/netserver.cpp:154-158 | a broadcast goes to every remote channel, one send per channel |
| NetServer.HandleRemoteMsg | app/userver/netserver.cpp:161-177 | a remote message goes to the channel of its node, created if missing |
| NetServer.Auth | app/userver/netserver.cpp:180-202 | a local peer takes over an earlier same-application session's messages and replaces it in the table; a remote peer's session is added to its node's channel |
| NetServer.LocalMsgAfterAuth | app/userver/netserver.cpp:186-197 | after a local application authenticates, its messages go to the new session only |
| NetServer.RemoteMsgAfterAuth | app/userver/netserver.cpp:186-201 | after a remote peer authenticates, messages to its node use its channel without creating another |
| NetLeaf.LeafAuth | src/uzel/NetLeaf.cpp:49-68 | a peer on another node, or a local peer that is not the relay, is closed with "remote connection refused"; exactly the local relay joins the channel |
| NetLeaf.LeafAcceptsProcessorPeers | src/uzel/NetLeaf.cpp:49-68 | in a leaf, every peer the input processor authenticated is also accepted by the leaf |
| NetLeaf.LeafSend | src/uzel/NetLeaf.cpp:71-74 | send hands the message to the channel unchanged |
| NetLeaf.LeafOutgoing | src/uzel/NetLeaf.cpp:26-38 | the leaf's manager wants one session and registers only "localhost", in status initial |
| NetLeaf.LeafConnected | src/uzel/NetLeaf.cpp:31-33 | the leaf's node callback answers the channel's state whatever node is asked about |
| NetLeaf.LeafConnectedStops | src/uzel/NetLeaf.cpp:30-34 | with the channel connected, any authenticated outgoing session makes the manager create nothing |
| NetLeaf.LeafOnLocalhostNode | src/uzel/NetLeaf.cpp:36 | a leaf on a host whose node name is literally "localhost" registers no target |

## Left out

- Asynchrony: sockets, the acceptor, async completions, strands, timers (`scheduleNext`, `start`, the 15-second refresh cadence) and `poke` timing. Completions are events; a poke is an effect.
- JSON reading and writing, and the lazy parse of a raw body (`pbody`). JSON is the abstract pair `enc`/`dec`.
- Property trees are modelled by the data at each path. Child order, duplicate keys and a child whose subtree is empty are not represented, so a message whose structured body is the empty tree is outside the round-trip lemmas.
- `remote.cpp` and the channel's internals (`send`, `addSession`, `connected`); the channel is an opaque name and the server returns actions.
- `takeOverMessages`, `gracefullClose`, `cname()` and `toMe()` are defined outside the modelled files, and so are the session members `peerIsLocal`, `peerApp`, `peerNode`, `remoteIp`, `direction`, `authenticated` and `s_closed`. `takeOverMessages` and `gracefullClose` are actions, and `cname` and `toMe` are inputs to the dispatchers. For the session members, see the section on where the code and its documentation disagree.
- Exceptions thrown by handlers and their handling.
- The iteration order of `std::map`/`std::unordered_map`: broadcasts and a tick are sets.
- The `registerHandler` of the strand dispatcher, which is not defined in the modelled files; the model starts from any registry.
- `setAddr` in `connectResolved`, which records the resolved address and decides nothing.
- Logging and console output, INI reading and `host_name()`; the configuration is given.
- The stale duplicate generations (src/uzel/uzel.cpp, app/userver/ConnectionManager.*, app/userver/session.*, src/uzel/netclient.cpp, app/uclient) and demo applications.
- Decimal.ReadInt: states the value range, that at least one character is read and that no digit follows, but not that the rest is a suffix of the input.
- Priorities.Extract: how much of the stream a failed read consumes is not modelled; the unread text is then the input.
- UConfig.Remotes: the contract states only that no name holds a comma; the full result is stated for canonical lists and two names, not for inputs with empty pieces, whose handling depends on the regular expression library.
- StrandDispatcher.Disconnect: a null vector pointer stored in the map is not represented; an absent key stands for it.
- Outgoing.ConnectResolved: the status is set to connecting once on a creating path; the code sets it again after the loop, which within one instant of the model is the same state.
- Outgoing.WholeSeconds: the contract covers non-negative durations; the steady clock never goes back.
