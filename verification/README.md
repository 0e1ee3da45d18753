# Verified model of the relay

The relay forwards payloads between named users. A server keeps one send queue per TCP
connection and a registry of who is logged in where; a blocking client library separates the
deliveries it receives from the replies to its own requests. Both sides speak a 24-byte
little-endian header followed by a MessagePack body, and passwords are digested with SHA-256.

This project states the behaviour of those parts in Dafny and proves it. `dafny verify
dfyconfig.toml` checks everything.

## How it is organised

| file | what it holds |
|---|---|
| `Wire.dfy` | frames, envelopes, their encoded sizes |
| `SendQueue.dfy`, `TcpSession.dfy` | the per-connection queue: a state machine over every interleaving of sends, kicks, stops and write completions, and the session object that takes its steps |
| `Registry.dfy`, `RelayServer.dfy` | the containers behind the server's mutex, as a state machine with histories, and the object whose loops implement it |
| `RoundRobin.dfy` | fairness of the round-robin picker and its wrapping counter |
| `Posted.dfy`, `Routing.dfy` | the registry and all send queues together: routing order, delivery order |
| `Handler.dfy` | `handle_client_frame` as a list of effects |
| `Client.dfy` | the client's waiting loops, as functions and as the methods that run them; sequence numbers |
| `RequestReply.dfy`, `CallAnswers.dfy` | client, handler and send queue together, end to end: no foreign reply; own answers; no call forgotten |
| `Relay.dfy` | the whole relay: the handler's effects carried out one at a time on the registry and the sessions; where deliveries come from, sending order, kicks |
| `SignOn.dfy` | what the first frame after a login may be, and the race behind it |
| `Accounts.dfy` | the relay and the user table together: the account that a name stands for, and who is signed on to it |
| `NameCache.dfy` | the user table, its three-statement update, and the two username caches in front of it |
| `DeliverLength.dfy` | the 32-bit lengths in a DELIVER frame |
| `Protocol.dfy`, `FrameIo.dfy` | header codec, framing, short reads and writes |
| `Primes.dfy`, `Sha256.dfy` | the first 64 primes; FIPS 180-4 as functions (`Fips180`), and the in-place implementation (`Sha256`) |
| `Arithmetic.dfy`, `Seqs.dfy`, `Options.dfy` | quotients and remainders; lists without repetition; optional values |

State machines are total step functions over records. A run is a sequence of events; an event
that is not enabled changes nothing, so a theorem about every sequence of events is a theorem
about every run. History fields (`sends`, `completed`, `logins`, `routed`, ...) are only written.
Objects that the source updates in place are classes whose methods are proved to take exactly
the steps of the corresponding machine.

Assumptions, all about the platform: a strand runs its closures one at a time in posting order;
a region under the mutex is atomic; a write completes with success or failure at any time; reads
of another session's fields (`logged_in_`, `last_hb_`, whether the socket is open) see some
current value; an id of the user table is never reused.

## Where the code and its documentation differ

The model follows the code in each case.

- `deliver/docs/protocol.md:35` says that a user's `recv_mode` is fixed for the life of the
  process. The code forgets it when the user's last registered connection goes:
  `Registry.ReceiveModePeriod` gives the exact period, `Registry.ModeChangesAfterOffline` a run
  in which the mode changes.
- A kicked peer is documented to get KICK and then be closed (`deliver/docs/delivery.md:86`). A
  kick that runs while a write is in flight loses its notice:
  `SendQueue.KickNoticeWrittenIffIdle` says exactly when it is written,
  `SendQueue.KickNoticeLost` gives the run.
- A login is registered before it is answered, so a DELIVER can come first and `sign_on` then
  fails. `SignOn.SignOnFails` gives the run, for every delivery that fits the queue.
  `SignOn.SignOnSucceedsUnlessOvertaken` says exactly when, for an answer that fits the queue and
  a connection to which something other than a kick notice has been written: if and only if a
  routing decision made before the answer was posted chose the connection and its copy is within
  the high-water mark. `SignOn.ChosenYetSucceeds` shows that being chosen is not enough: a larger
  copy is dropped, and sign-on gets its answer.
- An account update runs up to three statements, and setting a field to the value it has is an
  error. A request that renames an account and repeats its role therefore fails after the
  rename, and the cached old name keeps routing to the account:
  `NameCache.RenameWithSameRoleMisroutes` gives the request, `NameCache.StepCoherentIff` the
  exact condition, read off the request and the row. A lookup between the two halves of an
  account deletion leaves a dead entry: `NameCache.DeleteRowCoherentIff`,
  `NameCache.LookupDuringDeleteLeavesDeadEntry`.
- Round robin is unfair over a window in which its counter wraps, unless the number of open
  connections divides 2^64: `RoundRobin.FairOnEveryWindowIff` for the picker,
  `RoundRobin.RoundRobinFairOnEveryRunIff` for the server's runs.

## Model

| member | source | states |
|---|---|---|
| `SendQueue.StepKeepsInv` | deliver/server/src/main.cpp:190-294 | every step of a session (post, run the next closure, complete a write with or without error, close the socket) keeps the whole invariant: one writer, conservation, byte count, kick state, accounting of sends |
| `SendQueue.SingleWriterNoLostWakeup` | deliver/server/src/main.cpp:263-294 | in every run at most one write is outstanding, `writing_` says whether one is, and a non-empty queue that was neither stopped nor failed has one |
| `SendQueue.QueueConservation` | deliver/server/src/main.cpp:217-244 | in every run: sends that ran = accepted + dropped + ignored; and until a kick runs, accepted = completed ++ queue, `pending_bytes_` is the queue's total and within the high-water mark, the frame in flight is the queue's head |
| `SendQueue.CompletedIsAcceptedPrefix` | deliver/server/src/main.cpp:263-294 | in every run, kicked or not, what was written is a prefix of what was accepted, followed at most by the kick notice |
| `SendQueue.QueueDrains` | deliver/server/src/main.cpp:278-292 | from any invariant state without kick, stop or write error, as many successful completions as the queue is long leave it empty and every accepted frame written, with no further send to restart the writer |
| `SendQueue.FailureStopsSession` | deliver/server/src/main.cpp:222-275 | after a write error, or under `disconnect` any drop, a stop is already posted and running what is posted stops the session |
| `SendQueue.KickFinality` | deliver/server/src/main.cpp:190-202 | after a kick runs, in every continuation: nothing more is accepted, at most one more write completes, it is the notice exactly if nothing was in flight and else the frame in flight, and it completes exactly when the kick has closed the connection |
| `SendQueue.KickNoticeWrittenIffIdle` | deliver/server/src/main.cpp:278-291 | a kick notice is only ever the last frame written; a kick that has closed the connection got its notice out if and only if no write was in flight when it ran |
| `SendQueue.KickNoticeLost` | deliver/server/src/main.cpp:193-200 | a run in which the peer is kicked and cut off without a notice, for any notice and any frame that fits the queue |
| `TcpSessions.TcpSession.constructor` | deliver/server/src/main.cpp:304-316 | a new session is the machine's initial state |
| `TcpSessions.TcpSession.SendFrame` | deliver/server/src/main.cpp:217-219 | posts one send closure and changes nothing else |
| `TcpSessions.TcpSession.KickNotifyAndClose` | deliver/server/src/main.cpp:190-192 | posts one kick closure and changes nothing else |
| `TcpSessions.TcpSession.Stop` | deliver/server/src/main.cpp:204-206 | posts one stop closure and changes nothing else |
| `TcpSessions.TcpSession.DoWrite` | deliver/server/src/main.cpp:263-267 | hands the queue's head to the transport, unless empty or stopped |
| `TcpSessions.TcpSession.OnSend` | deliver/server/src/main.cpp:219-243 | the send closure takes the machine's send step: ignore, drop, drop and stop, or enqueue and start the writer |
| `TcpSessions.TcpSession.OnKick` | deliver/server/src/main.cpp:192-201 | the kick closure takes the machine's kick step |
| `TcpSessions.TcpSession.OnStop` | deliver/server/src/main.cpp:206-214 | the stop closure takes the machine's stop step |
| `TcpSessions.TcpSession.RunOne` | deliver/server/src/main.cpp:190-244 | the strand runs its oldest closure as the machine's next step |
| `TcpSessions.TcpSession.OnWritten` | deliver/server/src/main.cpp:270-293 | a write completion, with or without error, takes the machine's completion step |
| `TcpSessions.TcpSession.OnWriteOk` | deliver/server/src/main.cpp:276-292 | the successful branch pops the queue's head whatever it is by then, subtracts with a floor of zero, and closes or continues |
| `TcpSessions.TcpSession.CloseAfterReading` | deliver/server/src/main.cpp:1124-1128 | the end of the read loop closes the socket and leaves `stopped_` alone |
| `Registry.StepKeepsInv` | deliver/server/src/main.cpp:345-372 | accept, login, removal, compaction, routing, touch and close each keep the registry invariant, which includes the deque's equation with the login history |
| `Registry.RegistryConsistent` | deliver/server/src/main.cpp:1064-1071 | after every run: deques hold 1 to max distinct registered sessions of that user and are pairwise disjoint, `user_recv_mode_` has the same keys, `rr_next_index_` no others, `all_` has no repetition and lies between the open registered sessions and the registered ones |
| `Registry.DequeIsLoginHistory` | deliver/server/src/main.cpp:965-973 | after every run a user's deque is the login-order list of its sessions neither evicted nor removed, and an entry exists exactly when that list is not empty |
| `Registry.LoginEvictsOldest` | deliver/server/src/main.cpp:965-976 | after every run, a login splits old deque ++ newcomer into victims ++ new deque, evicts one exactly when the user was at the limit, never the newcomer, and leaves other users alone |
| `Registry.RemovingEvictedChangesNothing` | deliver/server/src/main.cpp:354-371 | when an evicted session's read loop ends, no deque, mode or counter changes |
| `Registry.ReceiveModePeriod` | deliver/server/src/main.cpp:949-963 | from the login that brings a user online until the deque empties, the stored mode and the mode granted to every login are that first login's, the notice appears exactly for logins that asked otherwise, and the counter starts at zero |
| `Registry.ModeChangesAfterOffline` | deliver/server/src/main.cpp:365-369 | a run in which the user goes offline and the next login sets any other mode |
| `Registry.SweepKicksExactlyTheOverdue` | deliver/server/src/main.cpp:751-766 | the members of the copy of `all_` are examined one after another, each in its own later state of the run: each is kicked exactly if it is open, logged in and overdue when examined, at most once; and a registered session missing from the copy is never open during the sweep, so none overdue is missed |
| `Registry.RecipientsSound` | deliver/server/src/main.cpp:1010-1041 | recipients are distinct open sessions of the user; none exactly when none is open; one under round robin; a prefix, up to the cap, under broadcast, and all when the cap is no smaller than the connection limit |
| `RelayServers.EraseSession` | deliver/server/src/main.cpp:348-353 | the erase loop removes the first occurrence and nothing else |
| `RelayServers.CollectOpen` | deliver/server/src/main.cpp:1016-1020 | the collecting loop yields the open sessions in deque order |
| `RelayServers.UpToCap` | deliver/server/src/main.cpp:1023-1034 | the broadcast loop reaches the first sessions up to the cap |
| `RelayServers.EvictOverflow` | deliver/server/src/main.cpp:967-971 | the eviction loop splits off exactly the oldest sessions above the limit, in order |
| `RelayServers.CompactOpen` | deliver/server/src/main.cpp:462-475 | compacting `all_` in place while reading it leaves exactly the open sessions in order, and counts them, the logged-in ones, their users and their pending bytes |
| `RelayServers.RelayServer.AcceptClient` | deliver/server/src/main.cpp:642-648 | takes the registry's accept step and returns the new id |
| `RelayServers.RelayServer.RegisterLogin` | deliver/server/src/main.cpp:944-973 | takes the registry's login step; the returned mode, notice and victims are those of the history |
| `RelayServers.RelayServer.RemoveSession` | deliver/server/src/main.cpp:345-372 | takes the registry's removal step |
| `RelayServers.RelayServer.SnapshotStats` | deliver/server/src/main.cpp:460-477 | takes the registry's compaction step and reports the open sessions, the logged-in ones, the distinct users and the pending bytes among them |
| `RelayServers.RelayServer.DeliverToUser` | deliver/server/src/main.cpp:1010-1041 | posts to exactly the machine's recipients, in order, and advances the counter as the machine does |
| `RelayServers.RelayServer.CheckHeartbeats` | deliver/server/src/main.cpp:759-765 | kicks exactly the members of the copy that are overdue in the state in which each is read, in order |
| `RoundRobin.FairWindow` | deliver/server/src/main.cpp:1036-1038 | over any k consecutive picks each of n positions gets k/n rounded down or up, if the counter does not wrap in the window or n divides 2^64 |
| `RoundRobin.UnfairAcrossWrap` | deliver/server/src/main.cpp:1036-1038 | if n does not divide 2^64, a concrete window over the wrap is not fair |
| `RoundRobin.FairOnEveryWindowIff` | deliver/server/src/main.cpp:1036-1038 | the picker is fair on every window if and only if n divides 2^64 |
| `RoundRobin.PowersOfTwoDivideWrap` | deliver/server/src/main.cpp:1036-1038 | every power of two up to 2^64 meets that condition |
| `RoundRobin.SteadyStep` | deliver/server/src/main.cpp:1036-1038 | any step that leaves a user's open connections as they are leaves the mode, and moves the counter only if it is a delivery to that user |
| `RoundRobin.DeliveryFollowsPick` | deliver/server/src/main.cpp:1016-1041 | after any run, whatever else happened in it, throughout which a round-robin user's open connections were the same, the next delivery goes where the wrapped counter, moved by the deliveries to that user, points |
| `RoundRobin.RoundRobinFair` | deliver/server/src/main.cpp:1016-1041 | after any run and over any further run in which a round-robin user's n open connections stay the same, with every interleaving of other events, each of them receives k/n, rounded down or up, of the k deliveries to the user, under that condition |
| `RoundRobin.UnfairFrom` | deliver/server/src/main.cpp:1036-1038 | from any state with a round-robin user online whose number of open connections does not divide 2^64, a run of deliveries after which a further, steady one over the wrap is not fair |
| `RoundRobin.RoundRobinFairOnEveryRunIff` | deliver/server/src/main.cpp:1016-1041 | after any run, a round-robin user with n open connections is served fairly over every further stretch of every run in which they stay the same, if and only if n divides 2^64 |
| `Posted.SessionKeepsPosted` | deliver/server/src/main.cpp:217-294 | no step of a session loses, adds or reorders the frames of any kind that were posted to it; a post appends |
| `Routing.StepKeepsInv` | deliver/server/src/main.cpp:1010-1041 | every step of the whole server keeps: the registry's invariant, every session's, and that the deliveries posted to each session are the copies it was chosen for, in routing order |
| `Routing.EveryCopyAccountedFor` | deliver/server/src/main.cpp:1010-1041 | in every run, the copies a connection was chosen for are, in order, those whose send closure ran followed by those still posted |
| `Routing.DeliveriesFollowRoutingOrder` | deliver/server/src/main.cpp:1010-1041 | in every run, the DELIVER frames written to a connection are true copies of decisions that chose it, none twice, in routing order, despite drops, kicks and stops |
| `Routing.SameOrderEverywhere` | deliver/server/src/main.cpp:1021-1034 | no two connections are sent the copies of two decisions in opposite orders |
| `Routing.CaughtUpMeansExactlyOnce` | deliver/server/src/main.cpp:217-244 | a connection without drop, kick or stop whose strand and queue are empty has been sent every copy it was chosen for, exactly once |
| `Handler.GetStrIsFirst` | deliver/server/src/main.cpp:782-798 | the string found is that of the first entry which has the key and holds a string, if there is one, and nothing is found if not |
| `Handler.HasKey` | deliver/server/src/main.cpp:800-812 | true if and only if some entry has the key |
| `Handler.GetU64IsFirst` | deliver/server/src/main.cpp:814-833 | a number is found exactly if the first entry which has the key and holds an integer holds that non-negative one |
| `Handler.GetObjIsFirst` | deliver/server/src/main.cpp:849-861 | the value found is that of the first entry which has the key |
| `Handler.OneAnswerOrStop` | deliver/server/src/main.cpp:1136-1565 | every frame ends in exactly one answer under its own number, or in exactly one stop and no other effect; the stop comes exactly for a body that is no map and for a frame other than LOGIN before login |
| `Handler.AnswerNamesOperation` | deliver/server/src/main.cpp:1212-1250 | after login, a positive answer names the operation asked for, a negative one names none, a heartbeat's is always positive |
| `Handler.RoutedExactlyWhen` | deliver/server/src/main.cpp:1227-1241 | a payload is routed if and only if the sender is logged in and the DATA body has that payload and that non-empty destination, under the frame's number |
| `Handler.RegisteredExactlyWhen` | deliver/server/src/main.cpp:917-942 | a session is registered if and only if it was not yet logged in, the LOGIN body is complete, the address allowed and the account accepted; before login nothing else happens |
| `Handler.LoginOutcome` | deliver/server/src/main.cpp:919-942 | a registration records the name, mode and account that the body and the database gave; a refusal carries 1003 exactly for an incomplete body, else 1001 exactly for an address not allowed, else 1002 |
| `Handler.KickedAndDeletedExactlyWhen` | deliver/server/src/main.cpp:1297-1546 | an account is kicked if and only if an administrator asks to kick that id or to delete that known id, and deleted if and only if one asks to delete it |
| `Handler.AdminEffectsNeedAdmin` | deliver/server/src/main.cpp:1252-1546 | kicks and table changes come only from a logged-in administrator's CONTROL frame |
| `Handler.DeleteKicksFirst` | deliver/server/src/main.cpp:1526-1546 | an account is deleted only directly after its sessions were kicked |
| `ClientSpec.ReplyWaitConserves` | deliver/client/src/forwarder_sdk.cpp:539-638 | a wait for any reply, however it ends, sets aside exactly the deliveries it read, in order |
| `ClientSpec.DeliveryWaitConserves` | deliver/client/src/forwarder_sdk.cpp:661-688 | a wait for a delivery returns the only delivery it read, or read none |
| `ClientSpec.DeliveriesConserved` | deliver/client/src/forwarder_sdk.cpp:539-693 | after any sequence of calls, failing ones included, deliveries returned ++ deliveries set aside = deliveries read, in arrival order, and nothing read is lost |
| `ClientSpec.AwaitReturnsOwnReply` | deliver/client/src/forwarder_sdk.cpp:507-638 | a call that returns got a positive reply with its own number and operation |
| `ClientSpec.ControlLoopsAgree` | deliver/client/src/forwarder_sdk.cpp:574-606 | the two differently written loops that wait for a CONTROL reply behave alike on every input |
| `ClientSpec.SeqClosedForm` | deliver/client/src/forwarder_sdk.cpp:31-37 | the k-th sequence number is (k mod (2^31 - 1)) + 1 |
| `ClientSpec.SeqDistinctWithinPeriod` | deliver/client/src/forwarder_sdk.cpp:31-37 | sequence numbers are never 0, fit 31 bits, and are pairwise distinct within 2^31 - 1 calls |
| `Clients.Client.TakeSeq` | deliver/client/src/forwarder_sdk.cpp:33-37 | returns and stores the successor in the 31-bit cycle without 0 |
| `Clients.Client.NextEvent` | deliver/client/src/forwarder_sdk.cpp:508-514 | the head of every loop hands over the next input item and leaves `in_order_` empty |
| `Clients.Client.SignOn` | deliver/client/src/forwarder_sdk.cpp:507-534 | the loop computes the waiting function for a login: result, deliveries set aside, input left; `in_order_` is empty |
| `Clients.Client.DrainServerAck` | deliver/client/src/forwarder_sdk.cpp:539-572 | the same for an acknowledgement with a given number and operation |
| `Clients.Client.DrainControlFull` | deliver/client/src/forwarder_sdk.cpp:574-606 | the same for a CONTROL reply |
| `Clients.Client.ExpectHeartbeatOk` | deliver/client/src/forwarder_sdk.cpp:614-638 | the same for a heartbeat's reply |
| `Clients.Client.RecvDeliver` | deliver/client/src/forwarder_sdk.cpp:661-688 | the same for a delivery, those set aside first |
| `RequestReply.OneTaskPerFrame` | deliver/server/src/main.cpp:1136-1565 | whatever effects a frame has, its session's strand gets exactly one task: the reply, or a stop |
| `RequestReply.StepKeepsInv` | deliver/client/src/forwarder_sdk.cpp:539-688 | every step of client, server and session keeps: replies posted are the answers owed, and at most one call is outstanding between the two ends, the one in progress |
| `RequestReply.RepliesInRequestOrder` | deliver/server/src/main.cpp:1136-1565 | in every run requests are handled in sending order, and the replies posted are, one for one and in that order, the answers to the frames handled, each under its frame's number |
| `RequestReply.NoMismatchedReply` | deliver/client/src/forwarder_sdk.cpp:539-688 | a signed-on client that always waits never meets a reply that is not its own: in every run, with any interleaving of background heartbeats, deliveries, dropped replies, kicks and stops, a failing call failed by refusal, kick or end of stream |
| `CallAnswers.CallsEndOnOwnAnswers` | deliver/client/src/forwarder_sdk.cpp:539-606 | in every run, every send and CONTROL call that returned or was refused ended on the answer which the server gave to the very frame that this call had sent, and returned exactly if that answer was positive |
| `CallAnswers.NoCallLeftWaiting` | deliver/client/src/forwarder_sdk.cpp:539-638 | in every run without drop, kick or stop, once all frames are handled, all that was posted is written and all that was written is read, no call is waiting, unless for a delivery |
| `Relay.WorldHasItsRun` | deliver/server/src/main.cpp:1136-1565 | with frames handled one effect at a time and everything else in between, the registry and the sessions go through one of their own runs, so every theorem about those holds |
| `Relay.DeliveryProvenance` | deliver/server/src/main.cpp:1227-1241 | in every run, every DELIVER written carries payload, destination and number of a DATA frame that was handled, the id of the connection which sent it, and the name under which that connection was signed on by an accepted LOGIN frame of its own |
| `Relay.SenderOrderKept` | deliver/server/src/main.cpp:1005-1042 | in every run, of two deliveries written to one connection that come from one sender, the first carries an earlier DATA frame of the sender than the second |
| `Relay.KicksInFull` | deliver/server/src/main.cpp:974-976 | in every run, the sessions kicked so far for an eviction or an order are, in order and each once, the beginning of its distinct victims, the rest being still due from its connection; victims are sessions of the account concerned; a kick posted is on the strand, has run, or met a stop |
| `Relay.KickOrderTakesDeque` | deliver/server/src/main.cpp:1044-1054 | an order to kick an account, at any moment of any run, has exactly the account's deque at that moment as its victims, whatever happens later |
| `Relay.OnlyAdministrators` | deliver/server/src/main.cpp:1253-1257 | in every run, whoever kicks an account or changes a table asked for it in a CONTROL frame and was signed on by a LOGIN that was granted the administrator's role |
| `Relay.AccountNamed` | deliver/server/src/main.cpp:1297-1546 | in every run, the account kicked or deleted is the one that the frame names |
| `Relay.DeletedAfterKicks` | deliver/server/src/main.cpp:1537-1543 | whenever an account is about to be deleted, every session that its deque held when the deletion was ordered has been kicked |
| `Relay.RecipientsOfAccount` | deliver/server/src/main.cpp:1010-1041 | in every run, whoever was chosen by a routing decision is signed on to the account that the payload was routed to |
| `Accounts.ReachableByName` | deliver/server/src/main.cpp:981-1008 | in every run of relay and user table together without an update of the failing kind, each routing decision went to the account that the table had under the payload's name at that moment |
| `Accounts.ReachableByTable` | deliver/server/src/main.cpp:933-940 | in every run, whoever was granted an account by LOGIN claimed the name, password and role that the table then had for it |
| `Accounts.DeliveredToNamedAccount` | deliver/server/src/main.cpp:1005-1042 | in every run of relay and user table together without an update of the failing kind, a DELIVER for a name is written only to a connection that was signed on, with the name, password and role which the table then had, to the very account that the table had under that name when the payload was routed |
| `SignOn.SignOnSucceedsIff` | deliver/client/src/forwarder_sdk.cpp:503-535 | sign-on succeeds if and only if the first thing that arrives, heartbeat replies aside, is the positive LOGIN reply |
| `SignOn.FirstWrittenIsFirstPosted` | deliver/server/src/main.cpp:217-294 | in every run the first frame written is the first frame posted, unless it is a kick notice or the first frame posted exceeds the high-water mark |
| `SignOn.SignOnSucceedsUnlessOvertaken` | deliver/client/src/forwarder_sdk.cpp:507-534 | for every connection in every run of the whole server whose first reply is the positive answer to its login, once something other than a kick notice is written to it: if a routing decision made before the answer was posted chose the connection and its copy is within the high-water mark, sign-on fails on a delivery; if not, it gets its answer, provided that is within the mark |
| `SignOn.ChosenYetSucceeds` | deliver/server/src/main.cpp:222-234 | the run in which a chosen connection signs on: a copy above the high-water mark is posted before the answer and dropped |
| `SignOn.FirstWrittenIsFirstFitting` | deliver/server/src/main.cpp:217-244 | in every run the first frame written, if it is no kick notice, is the first of those posted that is within the high-water mark |
| `SignOn.SignOnFails` | deliver/server/src/main.cpp:965-972 | the failing run, for every delivery that fits the queue: login, routing, answer, one write, and sign-on throws |
| `SignOn.SignOnOnTheServer` | deliver/client/src/forwarder_sdk.cpp:507-534 | for every connection in every run of the whole server to which something other than a kick notice has been written, some posted frame is within the high-water mark: if the first such frame is the login reply, sign-on gets it, and if it is a delivery, sign-on fails |
| `SignOn.DeliveryOvertakesIff` | deliver/server/src/main.cpp:1010-1041 | while nothing is posted to a connection, a routing decision makes a delivery its first frame if and only if the connection is among the recipients |
| `SignOn.RegisteredBeforeReply` | deliver/server/src/main.cpp:965-972 | the beginning of that run: a registered connection is a recipient and nothing has been posted to it yet |
| `SignOn.EachSessionHasItsRun` | deliver/server/src/main.cpp:158-317 | in every run of the whole server each session has gone through some run of the send-queue machine, so every theorem about the machine holds of it |
| `NameCache.UpdateSucceedsIff` | deliver/server/src/main.cpp:2000-2089 | an account update succeeds if and only if it asks for something, every field asked for differs from the row's, a new name is free, and no statement meets a database error |
| `NameCache.UpdateOutcome` | deliver/server/src/main.cpp:2030-2089 | after the up to three statements no other row has changed, and the row bears the new name exactly if the rename went through, even if a later statement failed |
| `NameCache.StepCoherentIff` | deliver/server/src/main.cpp:1506-1515 | from a coherent state, one handler (login, lookup, add, update, delete) leaves every cached pair a row of the table if and only if it is not an update whose rename goes through, which also sets the password or the role to the value it has or meets a database error there, while the old name or the id is cached |
| `NameCache.CachesCoherent` | deliver/server/src/main.cpp:945-947 | in every run of atomic handlers without such an update, both caches agree with the table, whose names stay unique |
| `NameCache.FirstLoginMakesAccount` | deliver/server/src/main.cpp:1636-1704 | the first login under a name makes the account; whatever happens to other accounts, later logins under it get the same id, and exactly those with the same password and role |
| `NameCache.CachedRoutingAgrees` | deliver/server/src/main.cpp:981-992 | in a coherent state resolving a name through the cache gives what the table gives, and keeps coherence |
| `NameCache.DeleteRowCoherentIff` | deliver/server/src/main.cpp:1537-1546 | deleting the row keeps coherence if and only if neither cache holds the account at that moment |
| `NameCache.LookupDuringDeleteLeavesDeadEntry` | deliver/server/src/main.cpp:1538-1543 | from any coherent state, a lookup between clearing the caches and deleting the row makes the cache answer for a name that the table no longer has |
| `NameCache.RenameWithSameRoleMisroutes` | deliver/server/src/main.cpp:2023-2026 | the failing request, new name and same role: from any coherent state with the name cached it is answered with an error, the rename stays, and the old name routes to the account although the table no longer has it |
| `NameCaches.Caches.RememberLogin` | deliver/server/src/main.cpp:946-947 | the region writes the login step's two cache entries |
| `NameCaches.Caches.ResolveName` | deliver/server/src/main.cpp:981-992 | the cache, else the table, whose answer is remembered: the lookup step and its result |
| `NameCaches.Caches.RememberRename` | deliver/server/src/main.cpp:1510-1515 | the region takes the successful update step on the caches |
| `NameCaches.Caches.Forget` | deliver/server/src/main.cpp:1538-1542 | the region clears both entries of the account |
| `DeliverLength.EntriesFitTogether` | deliver/server/src/main.cpp:1105-1116 | two different entries of a body share its length |
| `DeliverLength.NoLengthTruncation` | deliver/server/src/main.cpp:892-909 | for every accepted `max_body_len`, every admitted LOGIN and every admitted DATA frame, the routed envelope is shorter than 2^32 bytes, so the casts into the bin length and `body_len` are exact |
| `DeliverLength.WrittenLengthsExact` | deliver/server/src/main.cpp:768-780 | in every run of the relay under an accepted limit in which the reader admitted every frame, every DELIVER written has an exact payload length and an exact `body_len`, and is 24 bytes longer than its envelope |
| `DeliverLength.TruncatesWithoutCap` | deliver/server/src/main.cpp:118-119 | without the cap on `max_body_len` there are admitted frames whose envelope does not fit |
| `Endian.ReadU16` | deliver/client/include/fwd/endian.hpp:14-17 | the little-endian value of two bytes |
| `Endian.ReadU32` | deliver/client/include/fwd/endian.hpp:19-24 | the little-endian value of four bytes |
| `Endian.ReadU64` | deliver/client/include/fwd/endian.hpp:26-35 | the little-endian value of eight bytes |
| `Endian.WriteU16` | deliver/client/include/fwd/endian.hpp:37-40 | stores the two-byte field and leaves the bytes before and after it alone |
| `Endian.WriteU32` | deliver/client/include/fwd/endian.hpp:42-47 | stores the four-byte field and leaves the bytes before and after it alone |
| `Endian.ReadsWhatWasWritten` | deliver/client/include/fwd/endian.hpp:14-47 | reading a field that was written gives back every value that fits it |
| `Endian.WritesWhatWasRead` | deliver/client/include/fwd/endian.hpp:14-47 | writing a value that was read gives back the bytes |
| `Protocol.PackLe` | deliver/client/include/fwd/protocol.hpp:31-41 | the seven writes produce the header's layout |
| `Protocol.UnpackInvertsPack` | deliver/client/include/fwd/protocol.hpp:31-53 | unpacking a packed header gives the header, for all field values |
| `Protocol.PackInvertsUnpack` | deliver/client/include/fwd/protocol.hpp:31-53 | packing an unpacked header gives the bytes, for all 24-byte strings |
| `FrameIo.ParseInvertsWireIff` | deliver/client/include/fwd/frame_io.hpp:48-74 | a packed frame followed by anything is read back as itself followed by the same, if and only if its header is valid and its body within the limit and below 2^32 |
| `FrameIo.StreamRoundTrip` | deliver/client/include/fwd/frame_io.hpp:48-74 | any list of such frames, concatenated, decodes to the same list and the same rest |
| `FrameIo.StreamUnambiguous` | deliver/client/include/fwd/frame_io.hpp:48-74 | two lists of such frames with the same bytes hold the same frames |
| `FrameIo.SendAll` | deliver/client/include/fwd/frame_io.hpp:20-29 | whatever pieces the socket takes, success means that all bytes were sent once, in order, and failure that a prefix was |
| `FrameIo.RecvExact` | deliver/client/include/fwd/frame_io.hpp:31-40 | whatever pieces arrive, success means that the buffer holds the next bytes of the stream and no more were taken |
| `FrameIo.RecvFrame` | deliver/client/include/fwd/frame_io.hpp:59-74 | a returned frame is the one at the head of the stream, and on a reliable socket one is returned exactly when there is one |
| `FrameIo.SendFrame` | deliver/client/include/fwd/frame_io.hpp:48-56 | sends the frame's bytes, header first, with the body's length in the header |
| `FrameIo.Transfer` | deliver/client/include/fwd/frame_io.hpp:20-74 | frames sent and received over any chunking arrive as the same list |
| `Fips180.BitwiseBits` | deliver/client/include/fwd/sha256.hpp:39-43 | the arithmetic form of and, or and xor is the gate applied to every bit |
| `Fips180.RotrBits` | deliver/client/include/fwd/sha256.hpp:12 | bit i of a word rotated right by n is bit (i + n) mod 32 of the word |
| `Fips180.RoundConstantsAreCubeRoots` | deliver/client/include/fwd/sha256.hpp:15-23 | each of the 64 round constants is the first 32 fractional bits of the cube root of its prime, as section 4.2.2 defines it |
| `Fips180.InitialHashIsSquareRoots` | deliver/client/include/fwd/sha256.hpp:68 | each of the eight initial words is the first 32 fractional bits of the square root of its prime, as section 5.3.3 defines it |
| `Primes.FirstPrimes` | deliver/client/include/fwd/sha256.hpp:15-23 | the primes from which those constants are taken are the first 64: each entry is prime, and the primes below it are exactly the entries before it |
| `Fips180.ZeroBytes` | deliver/client/include/fwd/sha256.hpp:80-86 | the number of zero bytes is the least that leaves room for the length, as in section 5.1.1 |
| `Fips180.PaddedLengthField` | deliver/client/include/fwd/sha256.hpp:70-89 | below 2^61 bytes the last eight bytes of the padding are the bit length, without wrap-around |
| `Sha256.FirstWords` | deliver/client/include/fwd/sha256.hpp:26-29 | the loop fills the first sixteen words of the schedule |
| `Sha256.OtherWords` | deliver/client/include/fwd/sha256.hpp:30-34 | the loop, with the source's order of additions, completes the schedule of section 6.2.2 |
| `Sha256.RunRounds` | deliver/client/include/fwd/sha256.hpp:36-55 | the eight reassigned variables go through the 64 rounds of section 6.2.2 |
| `Sha256.CompressBlock` | deliver/client/include/fwd/sha256.hpp:14-65 | the state in place becomes the section 6.2.2 compression of the old state and the block |
| `Sha256.FullBlocks` | deliver/client/include/fwd/sha256.hpp:73-77 | the offset loop folds the compression over all whole blocks and stops within the last 64 bytes |
| `Sha256.PadBuffer` | deliver/client/include/fwd/sha256.hpp:81-87 | in both padding branches, what has been hashed, the buffer and the length field make up the padded message |
| `Sha256.PaddedBlocks` | deliver/client/include/fwd/sha256.hpp:78-90 | one closing block for a tail of at most 55 bytes and two otherwise spell out the padding of section 5.1.1 |
| `Sha256.HashBytes` | deliver/client/include/fwd/sha256.hpp:67-101 | for every input the result is the compression folded over the message padded per section 5.1.1 of FIPS 180-4, most significant bytes first; the length field holds the bit length modulo 2^64, which is the bit length for every input under 2^61 bytes |
| `Fips180.DigestWord` | deliver/client/include/fwd/sha256.hpp:93-99 | the digest's t-th word, most significant byte first, is the t-th word of the final state |

## Left out

- Boost.Asio sockets, timers, coroutines and Beast HTTP: the model starts at the strand, the mutex and write completions, under the assumptions above.
- Unsynchronised reads of another session's fields: each read is taken as part of an atomic step.
- MySQL statements, collation, column truncation and driver buffers: the user table is a map with unique names compared exactly.
- The MessagePack library: a body is a list of entries; only encoded sizes are modelled, and only for DELIVER.
- Allowlist actions and the listings of CONTROL: they pass straight through to SQL, so the handler keeps only that they are answered.
- In `Accounts` each handler of the user table is atomic, as in `NameCache`; what happens when a lookup and a deletion overlap is stated in `NameCache` alone. Answers of the database to administrators are inputs.
- Read and idle timeouts, logging, the event ring, metrics other than drops, and the JSON of the admin page.
- Configuration parsing beyond the ranges that the theorems use.
- `LocalForwarder`, the Python tools and the web page.
- `to_hex`: two table lookups per byte.
- The ticket in a delivery is a history variable that numbers routing decisions; it is not on the wire.
- Sending without waiting for the reply (`wait_server_accept` false): the request/reply theorem is about a client that always waits, as the source's own error message demands.
- RelayServers.RelayServer.RegisterLogin: returns the victims; their kick notices, posted after the lock is released, are steps of `Relay`.
- Fips180.BitwiseBits: words are numbers below 2^32 and the bit operators are defined by their bits; the machine's own operators are not modelled beyond that.
- Clients.Client.NextEvent: the socket is the list of items that it will yield before it ends; blocking is not modelled.
