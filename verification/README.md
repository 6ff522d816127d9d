# PPCB: a verified model

PPCB moves a string of bytes from a client to a server, over TCP, over UDP, or over UDP
with retransmission (UDPR). This project models the C code of all three transports and
proves what the protocol promises, and where the code keeps less than the promise, exactly
when it does keep it.

## What is modelled

- **Packets and memory** (`Packets`, `WireFormat`, `StructMemory`, `Network`). The packed
  big-endian layouts, also written out in digits; `init_*`, `ntoh_*` and `cast_buff_to` on
  byte arrays, on a little-endian host. A struct that is cast over without being initialised
  holds arbitrary bytes: they are part of each receive event (`Env`), and every statement
  holds for all of them.
- **Chunking** (`Chunks`, `ChunkBuffers`). The counters of the send loops with their 32-bit
  fields, and what `strncpy` does to a chunk.
- **The server's sessions** (`UdpSession`, `UdpSessionProperties`, `UdpSessionInvariants`,
  `UdpServer`). A session is a fold of `Step` over an arbitrary script of timeouts, errors
  and datagrams from anywhere; the session loop is a fold of `ServerStep`. The classes
  `Socket` and `Handler` hold the receive loops as the code has them, and are proved equal
  to the folds. `Session.accepted` gets one element at exactly the points where the code's
  print calls stand commented out: the payload those calls would be handed.
- **Printing** (`Printing`). The print function is `printf("%.*s")`, which stops at the first
  NUL. `Printed` is what comes out when every accepted payload is handed to it.
- **What is said** (`Answers`, `Repeats`, `Patience`). Every packet the server sends, in
  answer to what and to whom, over all datagrams, for a running session and an idle server;
  what it does with a CONN or a DATA packet in every one of its states; and how often either
  end says something again when it hears nothing.
- **The UDPR client** (`UdprClientSpec`, `UdprClientProperties`, `UdprClient`,
  `FirstSpeaker`). A step function over receive events, with sends that may fail, and the
  class `Endpoint` with the connection, send, ACC and RCVD loops, proved equal to it.
- **The closed UDPR system** (`Protocol`, `Safety`, `FifoWindow`, `Termination`, `Fate`,
  `Witnesses`, `Repetition`, `ClosedSystem`, `ServerSimulation`, `EndToEnd`, `Outcomes`).
  One client and one server exchange encoded datagrams over one of three networks:
  `Unreliable` (loss, duplication, reordering), `NoCopies` (loss, reordering), `Fifo`
  (loss). Either end can time out or see a receive error at any moment, and the server can
  drop a session and start another from a CONN that is still under way. `Protocol` is the
  same system with counters in place of bytes; safety, the window and termination are
  proved there by induction over runs and carried to the bytes by a simulation that goes
  both ways. `Outcomes` says which runs deliver and which failures can happen.
- **Other clients** (`SharedServer`). The client and the server among arbitrary other
  traffic, with sessions of others in between, over a network that may deliver anything
  ever sent, at any time.
- **Plain UDP** (`PlainUdp`, `UdpPair`): the client class, the exact condition for a
  delivery, and what a confirmed client can conclude.
- **TCP** (`TcpFraming`, `TcpSession`, `Tcp`): client and server over a stream whose `read`
  and `write` return as little as they like, `Transmit`, which joins the two, and the exact
  condition for RCVD over any stream.
- **Input** (`InputVector`, `WholeInput`): the growing buffer the client reads standard
  input into, and the way from there to the server's output.

Below, the *input* is standard input, and the *data* of a transfer is what the client's
buffer holds of it.

A failed send of the server is a lost packet, except that a CONACC that cannot be sent
starts no session (`Env.sendOk`). The clients look at the result of every send: it is an
input of the model (`sends`), and `sent` lists what they handed to `sendto`.

## Where the code and its documentation part

The model follows the code. Each point is proved.

- Every copy is a `strncpy`, which turns everything after a NUL into NULs: those into the
  client's buffer, in blocks as they were read and when it grows, and those of the chunks.
  The accepted bytes are the input exactly when the buffer's copies met no byte after a NUL
  and no chunk has one (`WholeInput.AcceptedIsInput`, for UDPR, UDP and TCP in
  `UdprFaithful`, `UdpFaithful`, `TcpFaithful`); their number is always right. Either half
  can fail alone: a NUL that ends a chunk, but not the block it was read in, costs the rest
  of its block (`WholeInput.NulWithinBlock`), and one that ends a short read costs what
  follows it in its chunk (`WholeInput.NulBetweenReads`). For the data alone, and for the
  buffer alone: `Chunks.PayloadsSpellData`, `InputVector.ContentsExactly`.
- Printing stops at the first NUL of each payload. What comes out is the input, or has as
  much as its length, exactly when the input has no NUL (`WholeInput.PrintedIsStdin`); and
  likewise for the data (`Printing.PrintedIsData`, `PlainUdp.UdpEndToEnd`,
  `EndToEnd.DeliveredBytes`, `TcpFraming.TcpRoundTrip`). A NUL at the end is carried by the
  payload and not printed (`Printing.TrailingNulLost`).
- README.md:38 promises that packets received before are ignored: CONN and DATA by the
  server, CONACC and ACC by the client. For each, over every state, when the code does:
  - An old CONN at the server: while a session of its sender runs that has accepted nothing;
    and, if the server is idle, only if its CONACC cannot be sent (`Repeats.ConnAtServer`).
    After the first DATA it ends the session, which can happen exactly on networks that
    reorder and from two packets on (`Outcomes.LateConnViolates`). At an idle server it
    begins the transfer anew: on every network after a session that gave up
    (`Outcomes.OldConnBegins`), and otherwise after a complete one, see below.
  - An old DATA at the server: while a session of its sender, under its session id, runs and
    is past it (`Repeats.DataAtServer`). A server that is done answers it with CONRJT, on
    every network, FIFO channels included (`Outcomes.OldDataRefused`).
  - An old CONACC at the client: while it waits for the first ACC
    (`UdprClientProperties.OldConaccAtClient`). After that the client fails, which can
    happen exactly on networks that reorder, before the final wait from two packets on
    (`Outcomes.LateConaccFails`, `Outcomes.FinalConaccFails`).
  - An old ACC at the client: always before the final wait; there, where the client is given
    package id 0, only ACC 0 (`UdprClientProperties.OldAckInFinalWait`). On FIFO channels no
    ACC is left by then (`EndToEnd.FifoFinalWait`); otherwise a completed transfer can fail
    this way exactly from two packets on (`Outcomes.OvertakenAck`).
- A transfer can be completed, and printed, twice: exactly if the network copies packets, or
  if it reorders them and there are at most seven, so that the client's eight
  retransmissions can make up a second one (`Outcomes.AtMostOnce`).
- A UDP client is confirmed by RCVD alone. A session of another client under the same session
  id and without data sends its RCVD to the address left behind, and so can confirm a client
  of whose data nothing was accepted (`UdpPair.Misled`); but for that a confirmed client has
  a session that accepted everything (`UdpPair.ConfirmedMeans`,
  `UdpPair.ConfirmableExactly`). A UDPR client is safe from it, since it counts ACCs
  (`SharedServer.SafeAmongOthers`).
- A client can fail although the server has everything: when the last ACC is lost, it takes
  RCVD for a missed ACC, sends the last packet again, meets a server that is done, and fails
  on its CONRJT (`Outcomes.LostLastAck`). So a delivered client implies a complete server
  (`EndToEnd.AcceptedIsPrefix`) and not the other way round. Once the server is idle and no
  CONN left, the client can still be delivered exactly if RCVD and all ACCs it waits for are
  in its channel (`Outcomes.DeliveryDecided`); on FIFO channels these are RCVD and the last
  ACC (`Outcomes.LastPacketsDecide`).
- The send loops compare a 64-bit size with a 32-bit count and end exactly for sizes below
  2^32 (`Chunks.LoopEnds`).
- A session with declared size 0 skips its loop and sends RCVD to the address the previous
  session left behind (`UdpSessionInvariants.EmptySession`).
- The server accepts DATA without payload, although a packet has 1 to 64000 bytes by
  README.md:6 (`UdpSessionProperties.JudgeMeansParse`).
- Whether a CONRJT shorter than nine bytes ends a connecting client depends on uninitialised
  memory exactly if its bytes so far agree with the session id
  (`UdprClientProperties.StaleMattersExactly`).
- The client takes the IP address of the first datagram for the server's, without comparing
  it with the address it called. It then behaves as if only the server existed exactly if
  that datagram came from the server's IP (`FirstSpeaker.FirstDatagramDecides`); otherwise
  the server might as well have sent nothing (`FirstSpeaker.StrangerFirst`), and anyone on
  the server's port can complete the transfer in its place (`FirstSpeaker.AnyoneDelivers`).
- The input buffer doubles at most once per push. That suffices exactly when the block that
  first brings the total to 16384 bytes does not bring it past 32768
  (`InputVector.FitsExactly`, `InputVector.ShortFirstRead`).

## Model

| member | source | states |
|---|---|---|
| EndToEnd.AcceptedIsPrefix | server_UDP_lib.c:437-508 | on any of the three networks, in every reachable state and across any number of abandoned and restarted sessions: each session has accepted exactly the first chunks of the client's data, as many as its id says; a client past the RCVD wait implies a session that accepted all of them |
| EndToEnd.StepRefines | client_UDPR_lib.c:154-267 | every action of client, server or network on encoded bytes, over any stale memory, is the action of the counter protocol (simulation step) |
| EndToEnd.RunRefines | client_UDPR_lib.c:346-395 | every run of the code on a network is a run of the counter protocol, and safe |
| EndToEnd.RunRealised | server_UDP_lib.c:510-585 | every run of the counter protocol is a run of the code |
| EndToEnd.DeliveredBytes | server_UDP_lib.c:490-498 | in every reachable state of every network a complete session has accepted as many bytes as the data has, exactly the data iff no chunk has another byte after a NUL; and has printed the data, or as many bytes, iff it has no NUL |
| EndToEnd.FifoWindowHolds | client_UDPR_lib.c:190-261 | on lossy FIFO channels a running session is level with the client or one packet ahead; no session ends by violation or overshoot; no session but the last accepted anything; the client meets no late CONACC and no ACC from the future |
| EndToEnd.FifoFinalWait | client_UDPR_lib.c:105-131 | on lossy FIFO channels, once the client waits for RCVD only RCVD and CONRJT are in its channel |
| EndToEnd.RunsEnd | client_UDPR_lib.c:288-380 | without duplication every run, with all its losses, timeouts and restarts, has at most 4 ceil(size/64000) + 214 steps |
| EndToEnd.RunsComplete | server_UDP_lib.c:510-585 | every run without duplication can be continued, within that bound, to a state in which the client has returned, the server is idle, the channels are empty and nothing more can happen |
| Safety.StepSafe | server_UDP_lib.c:448-507 | one step keeps the invariant: DATA i in flight has i at most the client's id, ACC i in flight means some session accepted 0..i, RCVD in flight means some session is complete |
| Safety.AlwaysSafe | client_UDPR_lib.c:288-342 | that invariant holds in every reachable state of every network |
| Safety.ProgressIsTrue | client_UDPR_lib.c:359-394 | a client past packet i implies one session that accepted 0..i; a delivered client implies a session that received everything |
| FifoWindow.StepWindow | server_UDP_lib.c:374-418 | one FIFO step keeps both channels sorted by first-send order and the server level with or one ahead of the client |
| FifoWindow.AlwaysWindow | server_UDP_lib.c:437-508 | that window invariant holds in every state reachable on FIFO channels |
| FifoWindow.StopAndWait | client_UDPR_lib.c:190-261 | no session ends by a violation or overshoot, the client meets none of its violation branches, and once anything was accepted no session follows |
| FifoWindow.NoAckWhileClosing | client_UDPR_lib.c:105-131 | no ACC is on its way while the client waits for RCVD |
| Termination.StepSpends | server_UDP_lib.c:322-345 | every step that does not copy a packet lowers a weighted measure over packets in flight, chunks left, both retransmit budgets and CONNs to come |
| Termination.RunsAreShort | client_UDPR_lib.c:288-380 | so a run without copies has at most 4n + 214 steps for n packets |
| ClosedSystem.ClientHearsFollows | client_UDPR_lib.c:154-267 | on the encoding of any server packet, over any stale memory, the client's step is the protocol's |
| ClosedSystem.ClientAloneFollows | client_UDPR_lib.c:163-180 | on a timeout or receive error likewise |
| ServerSimulation.SessionHearsPiece | server_UDP_lib.c:437-508 | on DATA i a running session accepts exactly chunk i, passes over an old one, or refuses a future one, as the protocol does |
| ServerSimulation.ServerHearsFollows | server_UDP_lib.c:510-585 | on any packet of the client, idle or in a session, the server's step is the protocol's |
| ServerSimulation.ServerAloneFollows | server_UDP_lib.c:322-345 | on a timeout or receive error likewise |
| Outcomes.DeliveryDecided | client_UDPR_lib.c:154-267 | on every network: once the server is idle and no CONN left, some continuation delivers the client iff it is delivered or RCVD and every ACC from its id on are in its channel |
| Outcomes.LastPacketsDecide | client_UDPR_lib.c:214-235 | on FIFO channels, once a session is complete, some continuation delivers iff RCVD is in the channel and the last ACC is too or was taken |
| Outcomes.PerfectNetworkDelivers | client_UDPR_lib.c:346-395 | every FIFO run of takes with working sends has at most 2n + 3 steps, can go on until it has them all, and has delivered exactly then |
| Outcomes.PerfectRunExists | client_UDPR_lib.c:346-395 | for every nonempty transfer there is such a run |
| Outcomes.LostLastAck | client_UDPR_lib.c:214-235 | for every nonempty transfer: of an otherwise calm FIFO run only the last ACC is lost; the server is complete, from the loss on nothing delivers, and the run ends in CONRJT |
| Outcomes.OvertakenAck | client_UDPR_lib.c:105-131 | with n packets on a network: if it reorders and n is 2 or more, some run without losses, copies or errors completes every session and fails the client in the final wait by an old ACC; otherwise no run at all fails by an ACC from the future |
| Outcomes.LateConaccFails | client_UDPR_lib.c:190-212 | failing by a CONACC after the first ACC: in some run without losses or copies if the network reorders and n is 2 or more, in no run otherwise |
| Outcomes.FinalConaccFails | client_UDPR_lib.c:105-141 | failing by a CONACC in the final wait, every session complete: in some run without losses or copies if the network reorders, in no run otherwise |
| Outcomes.LateConnViolates | server_UDP_lib.c:374-378 | a CONN after the first DATA ends the session: in some run without losses or copies if the network reorders and n is 2 or more; otherwise no session ever ends by a violation |
| Outcomes.OldConnBegins | server_UDP_lib.c:510-585 | on every network, for every nonempty transfer, some run without losses or copies has an idle server with one session begin another on a repeated CONN |
| Outcomes.OldDataRefused | server_UDP_lib.c:545-550 | on every network, for every nonempty transfer, some run without losses or copies has an idle server with the transfer complete answer its last DATA, sent again, with CONRJT |
| Outcomes.AtMostOnce | server_UDP_lib.c:510-585 | two sessions can complete the same transfer iff the network copies, or it reorders and n < MAX_RETRANSMITS; in the latter case by timeouts alone |
| Repetition.RunConserves | client_UDPR_lib.c:288-380 | in every run without copies: one for each session, one for each packet accepted, the packets under way to the server and those the client can still send are never more than 1 + n + 8 |
| Repetition.CompletedBounded | server_UDP_lib.c:437-508 | so without copies c complete sessions need c (n + 1) <= 1 + n + 8 |
| Fate.SettledFate | client_UDPR_lib.c:154-267 | the same decision in the counter protocol, for all three networks |
| Fate.HopelessStep | server_UDP_lib.c:518-557 | no step of a settled world makes a lost delivery possible again |
| Witnesses.CalmOnLine | server_UDP_lib.c:437-508 | a calm FIFO run is in exactly the state its length says |
| Witnesses.SinglePacketRun | server_UDP_lib.c:374-418 | with one packet, on every network: no violation at the server, no late CONACC and no future ACC at the client |
| Witnesses.Nested | client_UDPR_lib.c:346-395 | each network can do what the stricter ones can, with the same result |
| SharedServer.SafeAmongOthers | server_UDP_lib.c:43-133 | among arbitrary other clients, sessions and outsiders, with any loss, repetition and delay: each session with the client has accepted exactly the first chunks of its data; a client past i packets has a session that accepted i; a delivered one has a session that accepted all |
| SharedServer.ServerStepGood | server_UDP_lib.c:510-585 | whatever the server hears, every ACC it has sent to the client names a packet accepted in a session with the client, under whatever ids others come |
| SharedServer.AdvanceMeansAck | client_UDPR_lib.c:237-263 | the client goes on only for the whole ACC of its current id, from the pinned address and the server's port |
| UdpSessionProperties.JudgeMeansParse | server_UDP_lib.c:223-263 | over any stale memory a datagram is accepted iff it is a whole DATA packet of the session with the current id and at most 64000 bytes, and passed over iff it is a whole older DATA or, before the first DATA, an 18-byte CONN |
| UdpSessionProperties.StaleOnlyInRefusals | server_UDP_lib.c:347-429 | stale memory can change nothing but the refusal sent for a datagram shorter than a DATA header |
| UdpSessionProperties.StaleMemoryIrrelevant | server_UDP_lib.c:437-508 | over whole scripts, what is accepted and how the session ends do not depend on stale memory |
| UdpSessionProperties.ForeignAnswer | server_UDP_lib.c:76-122 | over any stale memory, a nonempty datagram from elsewhere gets: of CONN type, CONRJT with its session iff it has CONN's size; of DATA type, always one RJT, with its own ids as far as it holds them; otherwise no answer |
| UdpSessionProperties.NonInterference | server_UDP_lib.c:43-133 | deleting all datagrams of other senders from a script changes neither the accepted bytes, nor the outcome, nor any packet sent to the peer, for UDP and UDPR |
| UdpSessionProperties.DuplicateInvisible | server_UDP_lib.c:347-429 | an old DATA, or an 18-byte CONN before the first DATA, inserted anywhere leaves accepted bytes, sends and outcome as they were |
| UdpSessionProperties.OldConnInSession | server_UDP_lib.c:374-378 | a CONN from the peer of a running UDPR session leaves it unchanged iff no DATA was accepted, and otherwise ends it silently |
| Repeats.ConnAtServer | server_UDP_lib.c:510-585 | over every state of the server a UDPR CONN changes nothing but the reply address iff a session of its sender runs and has accepted nothing, or the server is idle and its CONACC cannot be sent; otherwise an idle server begins a session, a session of the sender ends as a violation, and in a session of another it gets CONRJT |
| Repeats.DataAtServer | server_UDP_lib.c:437-508 | over every state of the server a DATA packet changes nothing but the reply address iff a UDPR session of its sender with its session id runs and is past its id; otherwise it is accepted as the next, ends the session, or is refused with CONRJT (idle) or RJT (another's session) |
| UdpSessionProperties.UdprRefinesUdp | server_UDP_lib.c:437-508 | a UDPR session that completes does so as a plain UDP session would on just the packets it accepted |
| UdpSessionProperties.UdpWithinUdpr | server_UDP_lib.c:265-320 | a script that completes under UDP completes under UDPR with the same bytes |
| UdpSessionInvariants.RunCounted | server_UDP_lib.c:437-507 | bytes_recvd is the true sum at every moment and never wraps, it stays below declared + 64000, the id counts the accepted packets, is_first_DATA_packet means none, and completion is first reached at exact equality |
| UdpSessionInvariants.RunHonest | server_UDP_lib.c:489-502 | every ACC and RCVD goes to the peer, every ACC names a packet accepted before, and RCVD is sent iff the accepted sizes sum to the declared size |
| UdpSessionInvariants.RetransmitsLast | server_UDP_lib.c:336-343 | curr_package_id - 1 in a retransmitted ACC is the id accepted last and does not underflow |
| UdpSessionInvariants.RunWithinBudget | server_UDP_lib.c:322-345 | over any script at most 1 + accepted + 8 CONACC and ACC datagrams together, the starting CONACC counted in the base |
| UdpSessionInvariants.EverySession | server_UDP_lib.c:559-584 | all of these for every session as the session loop starts it, after whatever the server sent before, of what the session itself sends; declared size 1 to 2^64 - 64000 |
| UdpSessionInvariants.RunAfter | server_UDP_lib.c:510-585 | what the server sent before a session neither changes it nor is changed by it |
| UdpSessionInvariants.EmptySession | server_UDP_lib.c:437-508 | with declared size 0 RCVD is sent at once, to the address left by the previous session |
| UdpSessionInvariants.AcceptingDelivers | server_UDP_lib.c:448-498 | the events at which a session accepts are DATA packets under consecutive ids that carry exactly the accepted payloads |
| UdpSessionInvariants.UdpReceivesExactly | server_UDP_lib.c:265-320 | a UDP session completes with given payloads iff the peer's events begin with exactly their DATA packets in order and the sizes first reach the declared size at the end, exactly |
| Answers.NextAnswer | server_UDP_lib.c:484-507 | the next DATA is answered by nothing (UDP) or its ACC (UDPR), followed by RCVD if the count is reached, or (UDPR) by RJT with the id after it if it is passed |
| Answers.UdpAnswer | server_UDP_lib.c:291-301 | any other nonempty datagram of the peer ends a UDP session with exactly one RJT, with the id the datagram holds |
| Answers.UdprAnswer | server_UDP_lib.c:347-429 | any other nonempty datagram of the peer of a UDPR session, by first byte, length and fields: no DATA, no answer; other session, RJT with the id waited for; older id, no answer; else RJT with its id; open only for DATA shorter than its id |
| Answers.UdpSessionSays | server_UDP_lib.c:265-320 | all a UDP session says to its peer over every script: nothing while it runs, one RCVD if it completes, one RJT with the id held by the datagram that was not the next DATA, nothing at any other end |
| Answers.UdpConfirms | client_UDP_lib.c:168-198 | with all chunks in order the session says exactly CONACC and RCVD, and the UDP client that hears just these is confirmed |
| Answers.OvershotSays | server_UDP_lib.c:501-507 | a UDPR session that got too much ends with RJT under the number of packets accepted |
| Answers.OthersAnswer | server_UDP_lib.c:76-122 | whoever else speaks during a session gets its own answer by type and size, leaves its address, and changes nothing else |
| Answers.IdleAnswer | server_UDP_lib.c:518-584 | whatever an idle server hears: a whole CONN with protocol 2 or 3 begins a session of that kind after one CONACC if that can be sent; any other nonempty datagram gets one CONRJT with the session id it holds; nothing else is answered |
| Answers.SessionEnds | server_UDP_lib.c:510-585 | a session that ends leaves itself in the log and, in the static address of its kind only, the sender of the last datagram |
| Patience.ServerPatience | server_UDP_lib.c:322-345 | with r retransmissions used, each of the next 8 - r timeouts sends CONACC or the last ACC once more and the one after gives up |
| Patience.SessionEndsAtOnce | server_UDP_lib.c:287-290 | a UDP session ends at the first timeout, any session at an error or an empty datagram of its peer, and says nothing |
| UdpServer.ServerRunsSession | server_UDP_lib.c:510-585 | the session loop resumes at the event, and with the state, at which a session's own loop stopped |
| UdpServer.Socket.AnswerForeign | server_UDP_lib.c:76-122 | sends exactly the reply of the specification to another sender |
| UdpServer.Socket.ReadDataToBuffer | server_UDP_lib.c:43-133 | result, buffer, address and sends of the filtering loop are those of NextRead |
| UdpServer.Socket.CheckIfCorrectDataPacket | server_UDP_lib.c:223-263 | the code is CheckData of the struct after the cast |
| UdpServer.Socket.HandleRetValue | server_UDP_lib.c:347-429 | the verdict is HandleRetVal and exactly its refusal is sent |
| UdpServer.Handler.UdpDataReceive | server_UDP_lib.c:265-320 | the loop's final state, sends and script position are those of the UDP session fold |
| UdpServer.Handler.DoRetransmission | server_UDP_lib.c:322-345 | counter and packet of a retransmission |
| UdpServer.Handler.UdprDataReceive | server_UDP_lib.c:437-508 | the loop's final state, sends and script position are those of the UDPR session fold |
| UdpServer.Handler.AwaitConn | server_UDP_lib.c:518-557 | the idle server starts a session, refuses or ignores as the specification does |
| UdpServer.Handler.UdpServerHandler | server_UDP_lib.c:510-585 | over a whole script: the sessions, their order, the live one and all sends are those of ServerRun |
| UdprClientProperties.AckMeansParse | client_UDPR_lib.c:187-263 | over any stale memory, while waiting for ACC id: the whole ACC id advances, older ACCs and an early CONACC are ignored, RCVD resends, everything else ends the client and sends nothing |
| UdprClientProperties.CloseMeansParse | client_UDPR_lib.c:99-148 | while waiting for RCVD: the whole RCVD delivers, ACC 0 is ignored, everything else ends the client |
| UdprClientProperties.OldAckInFinalWait | client_UDPR_lib.c:105-131 | in the final wait an ACC of the transfer is ignored iff its id is 0 |
| UdprClientProperties.OldConaccAtClient | client_UDPR_lib.c:190-212 | once connected, a CONACC of the session is ignored iff the client waits for the first ACC |
| UdprClientProperties.ReplyMeansParse | client_UDPR_lib.c:45-67 | while connecting only the whole CONACC leads to DATA; only for a CONRJT under nine bytes that agrees with the session id so far is the verdict open |
| UdprClientProperties.StaleMattersExactly | client_UDPR_lib.c:45-55 | two contents of the uninitialised struct lead to different verdicts iff the datagram is such a CONRJT |
| UdprClientProperties.RunAccounted | client_UDPR_lib.c:288-380 | over every script at most 1 + ceil(size/64000) + 8 CONN and DATA datagrams, each CONN or a chunk already reached, with one count per retransmission |
| UdprClientProperties.EveryClient | client_UDPR_lib.c:346-395 | the whole client from its start, over every script and whichever sends fail: within that budget, only its own packets, and every chunk sent if it is delivered |
| UdprClientProperties.FailedSendsAreErrors | client_UDPR_lib.c:318-323 | a run in which sends fail is the run on the script with receive errors put in, so that what holds of every script holds of it |
| Patience.ClientPatience | client_UDPR_lib.c:163-180 | with r retransmissions used, each of the next 8 - r timeouts sends the outstanding CONN or DATA once more and the one after ends the client |
| Patience.NeverAnswered | client_UDPR_lib.c:359-380 | a client that is never answered sends CONN nine times and fails at the ninth timeout, not before |
| Patience.OtherWaits | client_UDPR_lib.c:70-98 | in the final wait a timeout ends the client; an error does so there and in the ACC wait, and counts as a timeout while it connects |
| Patience.EmptyToClient | helper_func.c:148-161 | a datagram without bytes is a timeout or an error, whoever sent it |
| UdprClientProperties.StaleInvisible | client_UDPR_lib.c:190-256 | an older ACC, or a CONACC before the first ACC, inserted anywhere leaves the client's sends and result as they were |
| UdprClientProperties.OutsidersInvisible | helper_func.c:135-179 | once a server is pinned, deleting every nonempty datagram of others changes nothing |
| FirstSpeaker.FirstIpRules | helper_func.c:162-172 | from the start the client behaves as if nobody existed but the IP address of the first nonempty datagram, on the server's port |
| FirstSpeaker.ServerFirst | helper_func.c:162-172 | if that is the server's, only the server is heard |
| FirstSpeaker.StrangerFirst | helper_func.c:162-172 | if it is not, deleting everything the server sends changes nothing |
| FirstSpeaker.OneStranger | helper_func.c:162-172 | one foreign datagram before a faultless server's answers: delivered iff it has the server's IP |
| FirstSpeaker.AnyoneDelivers | helper_func.c:162-172 | the answers of a faultless server, all from one address, deliver the client iff the port is the server's, whatever the IP |
| FirstSpeaker.FirstDatagramDecides | helper_func.c:162-172 | whatever follows the first datagram, the client behaves as if only the server existed: iff that datagram has the server's IP |
| UdprClient.Endpoint.WaitForServerResponse | helper_func.c:135-179 | what the pinning and filtering loop returns, where it stops and whom it pins |
| UdprClient.Endpoint.InitConnection | client_UDPR_lib.c:21-68 | sends CONN and classifies the response, or the failed send, as the client's step does |
| UdprClient.Endpoint.ExamineAck | client_UDPR_lib.c:187-263 | one packet in the ACC wait is handled as by the client's step |
| UdprClient.Endpoint.HandleAck | client_UDPR_lib.c:154-267 | the ACC loop does what the client's run does until it advances, resends or ends |
| UdprClient.Endpoint.SendPiece | client_UDPR_lib.c:288-315 | one turn of the send loop hands exactly the DATA packet of the current chunk to sendto and says whether that worked |
| UdprClient.Endpoint.SendData | client_UDPR_lib.c:269-344 | the send loop, under any interleaving of resends and failing sends, runs the client from its first chunk to the final wait or its end |
| UdprClient.Endpoint.ExamineClose | client_UDPR_lib.c:99-148 | one packet in the final wait is handled as by the client's step |
| UdprClient.Endpoint.HandleRcvd | client_UDPR_lib.c:70-152 | the final wait ends as the client's run does |
| UdprClient.Endpoint.Connect | client_UDPR_lib.c:359-380 | the connection loop with its retransmissions runs the client as far as its first DATA |
| UdprClient.Endpoint.UdprClientHandler | client_UDPR_lib.c:346-395 | over a whole script and whichever sends fail, the imperative client ends in the state of RunOver |
| ChunkBuffers.ChunkBuffer.Fill | client_UDPR_lib.c:288-315 | after memset, strncpy and init_DATA the front of the reused struct is the encoded packet and the rest is as it was |
| PlainUdp.UdpEndToEnd | client_UDP_lib.c:73-126 | over any loss, repetition and reordering of an honest client's datagrams the session completes iff chunks 0 to n-1 come first and in order, with no timeout or error before the last; then it accepted every chunk and printed the data iff it has no NUL |
| PlainUdp.UdpClient.SendData | client_UDP_lib.c:73-126 | hands chunks 0 to k-1 to sendto once each in order: all of them, or up to and including the first that fails |
| PlainUdp.UdpClient.AwaitHead | client_UDP_lib.c:33-71 | succeeds iff the next response is exactly the expected CONACC or RCVD of the session |
| PlainUdp.UdpClient.UdpClientHandler | client_UDP_lib.c:168-198 | CONN, then, iff it was sent and the first response is CONACC, the chunks as far as sends work; confirmed iff all worked and RCVD is the next response |
| UdpPair.RcvdMeans | server_UDP_lib.c:265-320 | among any other traffic, RCVD of the transfer was sent to the client iff a session of it received everything, or a session of another under its id, without data, found its address left behind |
| UdpPair.ConfirmedMeans | client_UDP_lib.c:128-198 | a client confirmed by what the server sent it has a session that accepted all its chunks, or such a session of another misleads it |
| UdpPair.ConfirmableExactly | client_UDP_lib.c:168-198 | the client can be confirmed by what the server sent it iff its CONACC was sent and one of the two sessions exists |
| UdpPair.Misled | server_UDP_lib.c:265-320 | every client can be confirmed with nothing of it accepted: its CONN arrives twice and then that of a stranger without data |
| TcpFraming.TcpRoundTrip | server_TCP_lib.c:262-312 | whatever the reused struct held, the server on the client's stream receives every chunk, answers RCVD and leaves exactly the padding of the last frame; the bytes received are the data iff no chunk has another byte after a NUL, those printed iff the data has no NUL |
| TcpFraming.FrameServed | client_TCP_lib.c:88-134 | one fixed-size frame read by declared length leaves exactly its padding in front of what follows |
| TcpFraming.StreamServed | server_TCP_lib.c:262-312 | from any frame on the server receives the remaining chunks |
| TcpFraming.TakenGrows | server_TCP_lib.c:305-311 | over any stream, the payloads taken so far stay a prefix of those taken at the end |
| TcpSession.TcpReceivesExactly | server_TCP_lib.c:262-324 | over every byte stream and for declared sizes up to 2^64 - 64000: RCVD after given payloads iff the stream begins with them under headers 0, 1, .. and their sizes first reach the declared size at the end, exactly; what follows stays unread |
| TcpSession.TcpRefusesExactly | server_TCP_lib.c:269-305 | over every byte stream: RJT with a given id after given payloads iff the stream begins with them, they are not yet enough, and what follows is no good header for the next packet or declares too much (its id), or is a good header with its payload cut off (the id after it); and what that leaves unread |
| TcpSession.TcpEnds | server_TCP_lib.c:262-324 | the session ends with RCVD of its session or with an RJT of it, by how it ended |
| TcpSession.ServesExactly | server_TCP_lib.c:262-324 | the same from any turn of the session loop |
| Tcp.Stream.Readn | common.c:54-70 | over any short reads the next n bytes of the stream, fewer only at its end; nothing is skipped or read twice |
| Tcp.Stream.Writen | common.c:73-90 | over any short writes exactly the bytes given, on an error a proper prefix of them |
| Tcp.TcpClient.SendWhole | client_TCP_lib.c:38-54 | writes the whole fixed-size struct, on an error a proper prefix |
| Tcp.TcpClient.SendData | client_TCP_lib.c:88-134 | writes the stream of all frames, on an error a prefix of it |
| Tcp.TcpServer.GetDataMetainfo | server_TCP_lib.c:92-130 | succeeds iff the next 21 bytes are a good header, when reads do not fail, and consumes exactly them |
| Tcp.TcpServer.ReadDataToBuf | server_TCP_lib.c:175-190 | reads exactly the declared bytes, or the stream has ended |
| Tcp.TcpServer.ServePacket | server_TCP_lib.c:269-311 | one turn of the loop takes or refuses a packet as ReadPacket does |
| Tcp.TcpServer.ServeSession | server_TCP_lib.c:262-324 | over any short reads: payloads, reply, ending and unread rest are those of Serve; after a failed read the payloads are a prefix |
| Tcp.Transmit | server_TCP_lib.c:262-324 | client and server over one connection with any fragmentation: the chunks are received, the padding stays, and the print is the data iff it has no NUL |
| Packets.ParseEncode | packet_structures.h:17-80 | reading back a written packet gives every field, for all seven types |
| Packets.EncodeParse | packet_structures.h:17-80 | a byte string that parses is the encoding of what it parses to |
| Packets.EncodeInjective | packet_structures.c:12-86 | different packets have different encodings |
| WireFormat.Layout | packet_structures.h:17-80 | every packet byte for byte: the type as a number, and the fields as big-endian digits computed by division |
| WireFormat.OneByteOnTheWire | packet_structures.c:33-50 | the 22 bytes of a DATA packet with one byte of payload |
| WireFormat.Numbers | constants.h:13-33 | protocol bytes, buffer sizes, packet size and (protconst.h:9) the retransmission limit, as numbers |
| WireFormat.ClientSeesWhole | helper_func.c:148-152 | a datagram that passes for a packet of the server after the client's buffer was that packet, whole |
| WireFormat.ClientJudgesLength | helper_func.c:135-179 | up to 200 bytes the client judges a datagram by its own length |
| WireFormat.ServerJudgesLength | server_UDP_lib.c:50-58 | up to 64032 bytes the server does; and it accepts none of more than 64021 |
| StructMemory.SwappedHostValue | packet_structures.c:153-191 | reading byte-swapped memory on a little-endian host gives the number in network order, at every width |
| StructMemory.HeadSurvivesCast | packet_structures.c:199-207 | any packet cast to any struct of nine bytes or more gives the right type and session id |
| StructMemory.CastBuffTo | packet_structures.c:199-207 | overwrites the common prefix and keeps the stale rest |
| StructMemory.InitConn | packet_structures.c:12-19 | the struct becomes the encoding of CONN |
| StructMemory.InitHead | packet_structures.c:21-31 | the struct becomes the encoding of CONACC, CONRJT or RCVD |
| StructMemory.InitNumbered | packet_structures.c:68-80 | the struct becomes the encoding of ACC or RJT |
| StructMemory.InitData | packet_structures.c:33-50 | refuses exactly more than 64000 bytes; header, copied payload and untouched tail of the struct |
| StructMemory.NtohConn | packet_structures.c:153-157 | the host reads the session id and size in network order |
| StructMemory.NtohHead | packet_structures.c:159-167 | the host reads the session id in network order |
| StructMemory.NtohNumbered | packet_structures.c:176-186 | the host reads session and package id in network order |
| StructMemory.NtohDataInfo | packet_structures.c:169-174 | the host reads session, id and length in network order |
| StructMemory.DataInfoRoundTrip | packet_structures.c:199-207 | DATA encoded, cast over any struct and swapped gives its fields back |
| Chunks.ChunkSize | client_UDP_lib.c:79-124 | every chunk has 1 to 64000 bytes, only the last can be short, and exactly the last ends at the size |
| Chunks.PayloadsTotal | client_UDPR_lib.c:277-342 | the first k payloads have exactly the bytes counted |
| Chunks.StrncpyIdentity | packet_structures.c:47 | strncpy keeps a string iff nothing but NULs follows a NUL |
| Chunks.StrncpyAt | packet_structures.c:47 | byte for byte: NUL after a NUL, otherwise the same |
| Chunks.PayloadsSpellData | client_UDPR_lib.c:288-315 | the payloads concatenate to the data iff no chunk has another byte after a NUL |
| Chunks.NulFreeDataSpelled | client_UDP_lib.c:79-124 | so they do for NUL-free data |
| Chunks.LoopCounts | client_UDPR_lib.c:277-342 | below 2^32 bytes, bytes_sent is the offset of the current chunk and bytes_left the rest, at every loop head |
| Chunks.LoopEnds | client_UDP_lib.c:79-124 | the loop ends iff the size is below 2^32, and then after the last chunk and not before |
| Printing.PrintedIsData | helper_func.c:100-104 | what is printed of the data's payloads is never longer than it, and is the input, or as long, iff it has no NUL |
| Printing.CopyPrintsAlike | helper_func.c:100-104 | what strncpy turned into NULs would not have been printed either |
| Printing.TrailingNulLost | helper_func.c:100-104 | a NUL at the end is carried and not printed |
| InputVector.FitsExactly | my_vec.c:38-47 | over all reads every push fits after at most one doubling iff the block that first reaches 16384 bytes in all does not pass 32768 |
| InputVector.FullBlocksFit | my_vec.c:105-129 | so it does when all reads but the last fill the block |
| InputVector.ShortFirstRead | my_vec.c:38-47 | a read of 16383 bytes and then a full one overrun the buffer |
| InputVector.CapacityByTotals | my_vec.c:13-47 | for every input that fits, up to 2^63 bytes: the capacity is 16384 times a power of two, at least the total, above it unless the buffer is filled to the last byte (told by the totals), and at most twice the larger of the total and 16384 |
| InputVector.MovesByTotals | my_vec.c:38-47 | a push moves the contents iff it reaches a size of the buffer that the total was below, or had just filled |
| InputVector.SizesGrow | my_vec.c:13-20 | every such size is doubled while that fits into 64 bits, and then becomes 2^64 - 1 |
| InputVector.ContentsExactly | my_vec.c:13-47 | the contents have the input's length and differ only in bytes turned NUL; they are the input iff no copy met a byte after a NUL |
| InputVector.NulFreeUndisturbed | my_vec.c:13-47 | no copy does for NUL-free input, across every reallocation |
| WholeInput.AcceptedIsInput | my_vec.c:105-129 | for every standard input the accepted bytes of a complete transfer have its length, and are the input iff no copy into the vector met a byte after a NUL and no chunk has one |
| WholeInput.PrintedIsStdin | helper_func.c:100-104 | and what is printed is the input, or as long, iff the input has no NUL |
| WholeInput.NulWithinBlock | my_vec.c:38-47 | two full reads with one NUL, the last byte of chunk 0: they fit and no chunk has a byte after a NUL, yet the accepted bytes are not the input |
| WholeInput.NulBetweenReads | client_UDPR_lib.c:288-315 | two short reads with a NUL at the end of the first: the vector holds the input, yet the accepted bytes are not the input |
| WholeInput.UdprFaithful | client_UDPR_lib.c:288-315 | both conditions for every complete session of every UDPR run |
| WholeInput.UdpFaithful | client_UDP_lib.c:79-124 | both conditions for every session completed by an honest UDP client |
| WholeInput.TcpFaithful | client_TCP_lib.c:88-134 | both conditions for every TCP transfer |
| InputVector.MyVec.Reallocate | my_vec.c:13-32 | doubles the capacity, saturating, and keeps the contents as strncpy copies them |
| InputVector.MyVec.PushBack | my_vec.c:38-47 | appends the block as strncpy copies it, growing once if needed; says whether the copy stays inside the buffer, which it does iff the block fits after that |
| InputVector.MyVec.ReadStdin | my_vec.c:105-129 | over all reads: no copy leaves the buffer iff the first growth fits, and then contents and capacity are those of the specification |

## Left out

- Sockets, `setsockopt`, signals and the `finish` flag, name resolution, `main`, arguments, real time and `errno`: timeouts, errors and the arrival of datagrams are arbitrary events.
- `client_tests_lib.c`, the print functions, `save_to_file`, the CSV results and `err.c`: measuring and logging.
- `TCP/`, `TCP_concurrent/` and `UDP/`: sample programs outside the protocol.
- Random session ids: a session id is given, and nothing says that two differ.
- Eventual success of UDPR: the code can fail the client after the server has finished, see above; safety, termination and the existence of a delivering run are proved instead.
- Other clients in the theorems about windows, delivery and termination: there the client may meet CONRJT or RJT because the server serves someone else. Safety is proved with them (`SharedServer.SafeAmongOthers`).
- Timeouts and receive errors of an idle server: they change nothing (`UdpSession.Idle`), so they are not actions of the closed system and do not count as steps of its runs.
- The TCP handshake: `accept`, CONN and CONACC, the client's wait for RCVD, and closing; the session starts after CONACC.
- Replies to truncated datagrams of other senders: they carry fields of uninitialised structs and are as arbitrary as those.
- Big-endian hosts, a failing `malloc`, and the library functions `memcpy`, `memset` and `strncpy` themselves, which are given by what they leave in memory.
- `my_vec_push_back`, `my_vec_get`, `my_vec_print` and `my_vec_destruct`: not on the path of a transfer.
- Empty transfers in the closed system and for TCP: the server's side of one is `UdpSessionInvariants.EmptySession`.
- Inputs of 2^32 bytes or more: `Chunks.LoopEnds` shows that the clients never finish sending them. Declared sizes above 2^64 - 64000, for which bytes_recvd could wrap.
- The bound of 200 bytes on a response and of 64032 on a datagram are modelled as truncation; IP fragmentation and ICMP errors are not.
- InputVector.MyVec.PushBack: a copy past the buffer has no meaning in C; the call ends there with false, and what C does afterwards is not modelled.
- UdpServer.Handler.UdprDataReceive: its local variables are one record `s`, and the retransmission counter the code changes through a pointer is a field of it.
- UdpServer.Handler.UdpDataReceive: its local variables are one record `s` in the same way.
- `sendto` that sends only part of a datagram: it counts as a failed send, as in the code.
- Tcp.TcpServer.ServeSession: whether the reply itself arrives is not modelled, only that exactly one is sent and which.
