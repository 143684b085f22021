# Transactional-Server: a model in Dafny

A transactional file store kept by two servers. A client opens a transaction on the
primary, sends numbered writes in any order, and commits at a number n; the server then
appends data(1) .. data(n) to the transaction's file. The primary forwards what it accepts
to a backup over a queue and lets the backup commit first. The model covers

- the transaction log (`TransactionLog`, `Operations`, `Blocks`, `LogProperties`, `Arrival`,
  `Expiry`, `Durability`) and the class that keeps it (`LogHandler`);
- replication (`Delivery`, `Simulation`, `CatchUp`, `Echoes`, `Lockstep`) and the classes that
  perform it (`Replication`, `Session`);
- the packets and answers on the wire (`Text`, `Wire`, `Framing`, `Messages`, `Clients`,
  `Answers`) and the class that reads them (`PacketReader`);
- which answer is read for which message (`Turns`, `Pieces`, `LateAnswers`).

The functions of `TransactionLog` give the effect of every operation on the log and files of
one server; the methods of `LogHandler` change a mutable map in place and are proved equal to
them. `Operations` says what these effects are: when each request is refused and with which
code, what it changes, and what that means for later requests. `Delivery.Deliver` is the effect of one forwarded message on the backup, and
`Delivery.InSync` says when two servers hold the same transactions, entries, commits and
files, and `Simulation.InSyncBut` when they do so but for some transactions. A step of the primary is `Step`; the environment's choices (connection failures, disk
failures, numbers drawn, cuts in the byte stream) are parameters, so each theorem holds for
all of them.

What a reader might not expect of the code:

- Payloads of fewer than two characters are sent to the backup as "no data" and rejected
  there. A one-character write accepted by the primary never reaches the backup
  (`Delivery.ForwardingKeepsSync` is an equivalence); the other transactions stay in step
  (`Simulation.SimulationWithLosses`, `Sessions.RunBoth`). And the catch-up of a backup that lacks
  such a write, or has a hole above the commit number, asks for ever
  (`CatchUp.CatchUpEndsIffNotStuck` gives the exact condition,
  `CatchUp.OneShortWriteIsEnough` the client's requests that lead there).
- A hole above the pending commit number can never be filled, because a waiting transaction
  refuses writes above that number (`LogProperties.CommittableIffNoHoleAbove`,
  `LogProperties.HoleAboveIsReachable`).
- A crash between the append and the save of COMMITTED loses the mark but not the block, and
  the client's retry writes it again. A block is written once for its commit and once for
  each such crash, so exactly once if and only if there was none
  (`Durability.CopiesAreLostMarksAndTheCommit`, `Durability.OneCrashCanDuplicateABlock`).
- Accepted writes and aborts are not saved at once. A crash undoes them, so that an aborted
  transaction comes back (`Durability.CrashAfterRequest`).
- README.txt promises, for when a backup server is available, that the primary does not
  commit when the backup fails to, and that commits are stored for later when none is. The
  code departs from this where the connection breaks during the request: the primary then
  commits at once and queues the COMMIT (cvg_a3/ReplicationManager.cpp:211-216). With a
  connected backup in step, it has committed by the time the primary has if and only if
  every message queued before the COMMIT gets through and the COMMIT itself arrives
  (`Lockstep.CommittedIffItArrives`); `Sessions.OneLostCommit` is a run that ends with the
  primary ahead. The backup is never ahead (`Lockstep.NoCommitAhead`).
- However an answer is cut into pieces it is understood, but the rest of its last piece goes
  with it: the next answer starts where this one ends if and only if that piece ends there
  (`Answers.AnswerUnderstoodForEveryCut`). A last line end that arrives late is taken for
  the header of the next answer (`Answers.LateLineEndHidesTheNextAnswer`,
  `Answers.OneCutEndsEarly`).
- A backup answers an incomplete commit once for every hole, and the manager reads one
  answer per message. Unless these answers arrive in one piece, the next message reads an
  answer that is not its own (`Turns.InTurnIffInOnePiece`). Servers in step never get there
  (`Turns.InStepOneEach`), but a catch-up over several holes does: it is judged by the answer
  to one of the resent writes (`Turns.CatchUpVerdict`), so that a commit the backup makes can
  be taken for refused (`LateAnswers.MadeCommitReadAsRefused`: one crash of the backup), and
  one it refuses for acknowledged (`LateAnswers.RefusedCommitReadAsAcknowledged`: writes that
  reach it two expiry passes late).

The commit number is stored as text under key -1 and read back with `atoi`;
`Text.NumbersReadBack` is what makes the numeric field of the model the same thing.

## Model

| member | source | states |
|---|---|---|
| Logs.LogHandler.CanCommit | cvg_a3/LogHandler.cpp:570-591 | the loop over the ordered keys returns exactly the missing numbers, strictly ascending, and succeeds iff there is none and the commit number is not 0 |
| LogProperties.CanCommitIffNoHole | cvg_a3/LogHandler.cpp:570-591 | a commit number is accepted iff it is not 0 and no number up to it, or below any received number, is missing |
| Logs.LogHandler.AddLogEntry | cvg_a3/LogHandler.cpp:204-275 | the in-place update has the effect and code of `AddEntry`, with every refusal in order; the log is saved only when the write fires a parked commit |
| Logs.LogHandler.Commit | cvg_a3/LogHandler.cpp:341-452 | the effect and code of `CommitTxn` in both roles, disk failure included; the log is saved exactly when it was changed |
| Operations.CommitCodes | cvg_a3/LogHandler.cpp:341-452 | the result of a commit request, each with exactly its causes: unknown, committed, pending or expired transaction, number below 1, holes, failed append |
| Operations.CommitEffects | cvg_a3/LogHandler.cpp:341-452 | refusals change nothing; holes and a failed append leave WAITING at n; a complete commit is WRITING on a primary, and on a backup COMMITTED with its file grown by the writes 1..n |
| Operations.WriteCodes | cvg_a3/LogHandler.cpp:204-275 | the result of a write, each with exactly its causes |
| Operations.WriteEffects | cvg_a3/LogHandler.cpp:204-275 | a refused write changes nothing, an accepted one is stored and makes all but a waiting transaction ACTIVE, the last awaited one commits |
| Operations.ReplyCodes | cvg_a3/Session.cpp:123-173 | what the client is told: each code with all its causes |
| Operations.WhenCommitted | cvg_a3/Session.cpp:388-401 | a transaction is committed exactly when its own request brings it there, the append succeeds and, on a primary, the backup agrees |
| Logs.LogHandler.WriteFile | cvg_a3/LogHandler.cpp:484-523 | the loop makes the transaction's file grow at its end by data(1), then data(2), up to data(n), one line each, and no other file; or nothing on an I/O error |
| Blocks.BlockIsItsLines | cvg_a3/LogHandler.cpp:501-503 | the text of a commit is the writes 1..n joined in ascending order, each with a line end |
| Blocks.BlockReadBack | cvg_a3/LogHandler.cpp:501-503 | whoever reads it by lines gets data(1)..data(n) |
| Logs.LogHandler.Abort | cvg_a3/LogHandler.cpp:529-563 | accepted iff the transaction is known and neither committed nor expired, and then the log is without it |
| Operations.AbortCodes | cvg_a3/LogHandler.cpp:529-563 | the code of each refusal with its causes; a refusal changes nothing |
| Operations.AbortedForGood | cvg_a3/LogHandler.cpp:557-558 | after an accepted abort no run contains the transaction until it is opened again, and requests for it leave no trace in log or files |
| Simulation.AbortReachesBackup | cvg_a3/Session.cpp:123-129 | an accepted abort removes the transaction from primary and effective backup |
| Logs.LogHandler.MakeTxn | cvg_a3/LogHandler.cpp:301-317 | an unknown transaction is created, ACTIVE and empty, for the file named, and saved; a known one is left alone |
| Operations.MakeEffects | cvg_a3/LogHandler.cpp:301-317 | the same of the specification: the file is the one named |
| Logs.LogHandler.NewTxn | cvg_a3/LogHandler.cpp:279-299 | creates and saves a transaction for the file named under the first number drawn that is free; 0 for an invalid name |
| Operations.NamedFileGetsTheWrites | cvg_a3/LogHandler.cpp:484-490 | from the request that opens a transaction to its commit, whatever happens in between: the file the client named, and no other, grows by the writes |
| Simulation.MakeReachesBackup | cvg_a3/Session.cpp:130-141 | a new transaction is opened under the same name on primary and effective backup |
| Logs.LogHandler.Timeouts | cvg_a3/LogHandler.cpp:122-176 | one pass ages or removes every transaction exactly once, whatever the order of erasures, and saves |
| Operations.PassEffects | cvg_a3/LogHandler.cpp:122-176 | what a pass makes of each status and Z status; WRITING, COMMITTED and negative transactions are left alone |
| Operations.DecidedIsLeftAlone | cvg_a3/LogHandler.cpp:162-165 | a WRITING or COMMITTED transaction is unchanged by any run without a request for it, however many passes |
| Logs.LogHandler.GetCommits | cvg_a3/LogHandler.cpp:178-195 | exactly one COMMIT message for each committed transaction, by ascending number |
| Logs.LogHandler.constructor | cvg_a3/LogHandler.cpp:10-67 | memory after a start is what was saved, the registration of a backup included, or empty if nothing readable was |
| TransactionLog.StepWellFormed | cvg_a3/LogHandler.cpp:204-452 | every operation, pass, refusal and failure keeps logs well formed: pending and committed numbers are at least 1, and WRITING and COMMITTED transactions have no hole |
| TransactionLog.CommittingIsFilled | cvg_a3/LogHandler.cpp:501-503 | whenever a commit goes ahead all entries 1..n exist, so the file writer never looks up a missing one |
| LogProperties.RunWellFormed | cvg_a3/LogHandler.cpp:204-452 | every reachable log is well formed |
| LogProperties.CommittedIsFrozen | cvg_a3/LogHandler.cpp:355-373 | once committed, a transaction keeps entries, status and number through any later run and is never removed |
| LogProperties.FilesAreCommitHistory | cvg_a3/LogHandler.cpp:414-434 | in every crash-free run each file is its initial content followed by one block per committed transaction naming it, in commit order, none twice |
| LogProperties.WaitingWrite | cvg_a3/LogHandler.cpp:246-270 | a waiting transaction takes exactly its missing numbers up to n; each removes that one hole, and the commit fires exactly when none is left |
| LogProperties.HoleAboveIsForEver | cvg_a3/LogHandler.cpp:246-251 | a hole above the pending number survives every run of writes and commits |
| LogProperties.CommittableIffNoHoleAbove | cvg_a3/LogHandler.cpp:570-591 | some run of writes and commits commits a waiting transaction iff it has no hole above its pending number |
| LogProperties.HoleAboveIsReachable | cvg_a3/LogHandler.cpp:246-251 | write 3 and then a commit at 1 leave a hole at 2 that no further request fills |
| Arrival.StateIsFunctionOfArrivedSet | cvg_a3/LogHandler.cpp:204-275 | after any sequence of a transaction's writes and its commit the log and files depend only on the set of requests seen |
| Arrival.AnyArrivalOrderCommitsOnce | cvg_a3/LogHandler.cpp:341-452 | once every write 1..n and the commit have arrived, in any order and with duplicates, the transaction is committed at n and its file alone has grown, by data(1)..data(n) on a line each, once |
| Expiry.IdleLifecycle | cvg_a3/LogHandler.cpp:135-141 | a transaction nobody asks for moves one stage per pass and is gone after exactly three from ACTIVE |
| Expiry.WriteRestartsTheCount | cvg_a3/LogHandler.cpp:270-272 | an accepted write to an ACTIVE or FLAG transaction gives it three passes again |
| Expiry.WaitingStep | cvg_a3/LogHandler.cpp:152-160 | one step leaves a WAITING transaction WAITING, one stage older if it was a pass, or it starts its commit at the pending number, or it is gone by its own abort or by the pass at the last stage |
| Expiry.WaitingAges | cvg_a3/LogHandler.cpp:152-160 | a stretch spent WAITING moves the Z status one stage per pass, and the next pass removes the transaction exactly if it is then at the last stage: the third pass if the stretch began at the first |
| Expiry.WaitingEndsWithinThreePasses | cvg_a3/LogHandler.cpp:152-160 | if three passes come, whatever requests arrive, there is a first event at which the transaction leaves WAITING: the third pass, which removes it, its abort, or the start of its commit |
| Durability.SmallStepsAreTheHandler | cvg_a3/Session.cpp:388-401 | WRITING and save, append, COMMITTED and save compose to the whole commit handler |
| Durability.FailuresAreTheHandler | cvg_a3/LogHandler.cpp:425-434 | a commit that fails leaves the transaction WRITING on a primary and WAITING on a backup, saved |
| Durability.CrashAfterSave | cvg_a3/LogHandler.cpp:87-110 | a crash right after a pass, a flush or the mark of a commit undoes nothing |
| Durability.CrashAfterRequest | cvg_a3/LogHandler.cpp:87-110 | an opening, a commit that starts and a commit with holes survive a crash; an accepted write or abort is undone by it |
| Durability.NextKeepsSafe | cvg_a3/LogHandler.cpp:414-434 | every action, a crash included, keeps what is committed equal in memory and on disk, with its block in the file |
| Durability.AcknowledgedCommitsSurvive | cvg_a3/Session.cpp:388-401 | an acknowledged commit stays committed in memory and in the saved log, with its block in the file, through any later run with crashes |
| Durability.CopiesAreLostMarksAndTheCommit | cvg_a3/LogHandler.cpp:87-110 | a block is written once for each crash between its append and the save of COMMITTED, plus once for the commit: exactly once iff there was no such crash, and never more than once plus the crashes |
| Durability.OneCrashCanDuplicateABlock | cvg_a3/LogHandler.cpp:414-434 | such a crash can happen: one and a retry leave two copies |
| Delivery.DeliverIdempotent | cvg_a3/LogHandler.cpp:239-244 | every message has the same effect on the backup twice as once |
| Delivery.DrainKeepsEffect | cvg_a3/ReplicationManager.cpp:89-112 | one drain with any losses leaves backup plus queue with the same eventual effect, and empties the queue if nothing is lost |
| Delivery.ExactlyOnceEffect | cvg_a3/ReplicationManager.cpp:89-112 | over any history of queuing and failing drains each message takes effect once, in FIFO order |
| Delivery.ForwardingKeepsSync | cvg_a3/Session.cpp:123-173 | serving a request and delivering what it forwards keeps primary and backup in step, iff its payload can be forwarded or nothing is forwarded |
| Delivery.DrainEmptiesIffAllThrough | cvg_a3/ReplicationManager.cpp:89-112 | a drain empties the queue iff every message it sends gets through |
| Simulation.ForwardingKeepsOthers | cvg_a3/Session.cpp:123-173 | serving any request and delivering what it forwards keeps every transaction in step that no lost message has named |
| Simulation.SimulationWithLosses | cvg_a3/ReplicationManager.cpp:82-112 | over whole runs of any requests, with what is forwarded queued and drained at any times and any messages lost, backup plus queue agrees with the primary on every transaction not named by a message too short to arrive, and is in step with it if there is none |
| Delivery.FinishInSync | cvg_a3/Session.cpp:388-397 | the backup's commit and then the primary's append the same block and commit at the same number |
| CatchUp.ResendEffect | cvg_a3/ReplicationManager.cpp:184-193 | resending 1..j merges exactly the writes that can be sent and commits at the one that completes the transaction |
| CatchUp.MergedCompleteIffFillable | cvg_a3/LogHandler.cpp:570-591 | the merged writes are complete iff no missing number is above n or too short to send |
| CatchUp.CatchUpEndsIffNotStuck | cvg_a3/ReplicationManager.cpp:162-208 | the recursion ends, within three requests, iff the backup lacks nothing that cannot be sent; it then ends committed at n on the merged writes, or refused and unchanged |
| CatchUp.OneShortWriteIsEnough | cvg_a3/ReplicationManager.cpp:184-208 | from two empty servers, one write of one character takes them out of step and its commit starts a catch-up that never ends |
| CatchUp.CaughtUpOnPrimaryData | cvg_a3/ReplicationManager.cpp:184-204 | if shared writes agree, the caught-up backup holds the primary's data 1..n and block, and no other transaction changed |
| Echoes.EchoesKeepVerdicts | cvg_a3/ReplicationManager.cpp:162-208 | messages that repeat the primary's own decided transactions change neither what the backup can be caught up on nor what it refuses |
| Echoes.EchoesAreOneCommit | cvg_a3/ReplicationManager.cpp:158-224 | with one commit pending, any list of such messages is worth that commit once if it contains it, and nothing otherwise |
| Echoes.CommittedOrQueued | cvg_a3/ReplicationManager.cpp:211-223 | if the queue will commit t at n, the backup has done so already or the COMMIT itself is queued |
| Echoes.ProgressThen | cvg_a3/ReplicationManager.cpp:82-225 | stretches of replication compose: their echoes concatenate and no commit on the backup is undone |
| Replication.ExecuteOnLog | cvg_a3/Session.cpp:123-173 | the log calls of a request have the effect and code of `Exec` in either role, and save exactly the requests that the crash model takes to be saved |
| Replication.Link.SendReceive | cvg_a3/Client.cpp:126-151 | a message is processed and answered, processed and its answer lost, or lost before |
| Replication.ReplicationManager.Enqueue | cvg_a3/ReplicationManager.h:22-26 | queues on a primary, does nothing on a backup |
| Replication.ReplicationManager.DrainQueue | cvg_a3/ReplicationManager.cpp:89-112 | the loop is `Drain`: messages leave the queue only when answered; the connection is given up only after a failure |
| Replication.ReplicationManager.PrimaryOps | cvg_a3/ReplicationManager.cpp:82-136 | draining or reconnecting only ever delivers the queue and echoes; terminates for any failures; a reconnect without failures leaves every commit on the backup or finds one refused; a failed one forgets the registration; only a reconnect needs commits the backup can be caught up on |
| Replication.ReplicationManager.Commit | cvg_a3/ReplicationManager.cpp:143-225 | terminates by failures left, connection state and lag of the backup, and is `Settled`: false iff the connected backup refuses; true only with the backup committed at n, on the primary's data if they agreed, or the COMMIT queued; what a live connection to a backup that acknowledges leaves of backup, queue and connection is a function of the fates of the messages |
| Replication.ReplicationManager.CommitOnline | cvg_a3/ReplicationManager.cpp:158-216 | the same for a connected backup that can be caught up on this transaction, where each remedy lessens its lag |
| Replication.SettledAfter | cvg_a3/ReplicationManager.cpp:184-204 | a commit asked after earlier progress settles the commit as asked before it: no echo in between changes the verdict |
| Replication.ReplicationManager.EnqueueWrites | cvg_a3/ReplicationManager.cpp:186-188 | the loop queues writes 1..n in order |
| Replication.RemedyLessensLag | cvg_a3/ReplicationManager.cpp:184-204 | creating the transaction or resending its writes brings a repairable backup strictly closer to the commit |
| Replication.ReplicationManager.IntegrityCheck | cvg_a3/ReplicationManager.cpp:276-306 | if it succeeds without a connection failure, every commit of the primary is on the backup with the same number; if it fails, the backup is connected and refuses one of them |
| Sessions.Session.ResendRequests | cvg_a3/Session.cpp:46-55 | asks for exactly the missing numbers, once each, in descending order |
| Sessions.Session.DoCommit | cvg_a3/Session.cpp:374-410 | commits and saves locally only after the replicated commit; a refusal leaves the transaction WRITING and answers 205 |
| Sessions.Session.ExecuteCommand | cvg_a3/Session.cpp:123-169 | the log takes the request; what is queued is what was accepted and the write that completes a commit; every transaction stays in step that has lost no message |
| Sessions.Session.CommitPending | cvg_a3/Session.cpp:374-410 | the pending commit is finished on both; a connected backup has committed by then iff the queue and the COMMIT arrive |
| Sessions.Session.Handle | cvg_a3/Session.cpp:374-410 | after every handler, with any connection failures, primary and effective backup have both taken the step of the request; they stay in step but for the transaction of a request that replication loses, and lose step iff there is one; an acknowledged opening or abort is on both; every commit of the primary is on the backup or queued; a connected backup has made it by then iff the messages arrive |
| Sessions.Session.Check | cvg_a3/ReplicationManager.cpp:57-72 | the periodic check changes neither the primary nor what the backup will be; it connects, or empties the queue, and after a reconnect without failures every commit is on the backup |
| Lockstep.SteadyBackupFirst | cvg_a3/ReplicationManager.cpp:158-224 | every commit of the primary is on the backup at the same number or its COMMIT is queued |
| Lockstep.NoCommitAhead | cvg_a3/ReplicationManager.cpp:173-182 | the converse: what the backup has committed the primary has at the same number, so the primary acknowledges it when the backup checks, and the branch that kills the primary is not taken |
| Lockstep.CommittedIffItArrives | cvg_a3/ReplicationManager.cpp:211-216 | the primary goes ahead in any case; the connected backup has committed by then iff every queued message gets through and the COMMIT is not lost before it is processed |
| Sessions.OneLostCommit | cvg_a3/ReplicationManager.cpp:211-216 | a run of handlers whose COMMIT is lost on its way: the primary has committed, the backup has not |
| Sessions.RunBoth | cvg_a3/Session.cpp:123-173 | whole runs: once the queue is delivered the servers agree on every transaction of which no message was too short to arrive, and are in step if there is none; backup first; failures leave no trace in the primary's log and files |
| Sessions.StartBoth | cvg_a3/Server.cpp:26-59 | two servers started empty on equal files are in step |
| Text.NumbersReadBack | cvg_a3/LogHandler.h:82-84 | numbers printed into headers and log entries are read back unchanged by both readers |
| Text.AtoiReads | cvg_a3/ServerTools.cpp:162-174 | `atoi` skips white space, takes a sign and stops behind the digits |
| Text.CastReads | cvg_a3/ServerTools.cpp:191-240 | the cast takes a sign but nothing behind the digits: what is no number is -100 |
| Framing.EchoHeaderSaysTheSame | cvg_a3/Client.cpp:96-119 | an echoed header keeps method, transaction and sequence number, and its last word counts the bytes that follow |
| Framing.ReadsOneFrame | cvg_a3/Session.cpp:220-314 | one `handle_read` recovers the next packet, however much of it was buffered, and leaves at most a line end behind |
| Framing.NeedsDataByName | cvg_a3/ServerTools.cpp:58-105 | NEW_TXN, READ, WRITE, MAKE_TXN and PING come with data; ABORT, COMMIT, AUTH and KILL without |
| Framing.OnlyFourWordsPass | cvg_a3/ServerTools.cpp:46-56 | a header is refused iff it has other than four words, however it arrives |
| Framing.ShortLineIsSkipped | cvg_a3/Session.cpp:236-244 | a line of fewer than eight characters is no header |
| Framing.TooFewBytes | cvg_a3/Session.cpp:294-308 | when more data is announced than arrives the session reads no more |
| Clients.RequestsReadBack | cvg_a3/Client.cpp:66-85 | what a client sends is read back for every cut, data of one character and of none included |
| Clients.RequestsCrossTheWire | cvg_a3/Session.cpp:86-193 | each client request is taken for itself, with its transaction, number and data or file name, except that a single blank is no data and refused |
| Framing.FramingRoundTrip | cvg_a3/Session.cpp:220-364 | for every list of packets that genEcho prints and every cut of their bytes the session reads exactly these packets in order |
| Messages.MessagesCrossTheWire | cvg_a3/Session.cpp:86-193 | for every cut of the bytes, the messages of replication are understood as themselves, in order, except those with a payload under two characters; executing what is understood gives `DeliverAll` |
| Messages.MessageAnswered | cvg_a3/Session.cpp:335-362 | what the backup answers to what it reads of a message is `ReplyTo`, 204 for a payload that did not arrive included |
| PacketReaders.PacketReader.ReadUntilDelimiter | cvg_a3/Session.cpp:196-213 | pieces are buffered until the delimiter is there |
| PacketReaders.PacketReader.ReadExactly | cvg_a3/Session.cpp:60-84 | exactly the announced number of bytes is taken off the connection |
| PacketReaders.PacketReader.HandleRead | cvg_a3/Session.cpp:220-364 | the step-by-step reader with its two buffers computes `Wire.HandleRead`, error branches included |
| PacketReaders.Receive | cvg_a3/Session.cpp:220-364 | the reading loop recovers every packet printed at the other end |
| Answers.AnswerUnderstoodForEveryCut | cvg_a3/Client.cpp:126-151 | for every cut of the bytes an answer is received, judged by the manager as what it means, and names the transaction, the number and the code; the next one starts where it ends iff the piece that completes what must be read ends there |
| Answers.ResendHeader | cvg_a3/Session.cpp:46-55 | a request for a missing write names the transaction and that write |
| Answers.NewTxnAnswer | cvg_a3/Session.cpp:139 | the answer to NEW_TXN names the transaction |
| Pieces.MeaningIsActedOn | cvg_a3/ReplicationManager.cpp:166-208 | what the manager concludes from an answer is what it acts on |
| Answers.LateLineEndHidesTheNextAnswer | cvg_a3/Client.cpp:126-151 | when the pieces that complete an answer without text end before its last line end, the answer is understood and the next one counts as a refusal, whatever it says |
| Answers.OneCutEndsEarly | cvg_a3/ServerTools.cpp:149-151 | a piece that ends with the delimiter is all it takes |
| Answers.SecondHoleAnswersTheNextMessage | cvg_a3/Session.cpp:46-55 | with each answer in a piece of its own, the second of two requests for missing writes is read as the answer to the next message |
| Turns.InTurnIffInOnePiece | cvg_a3/Client.cpp:126-151 | every message reads the answer that belongs to it, with none left over, iff each earlier one got all its answers in one piece |
| Turns.InStepOneEach | cvg_a3/ReplicationManager.cpp:89-112 | servers in step get one answer to each message queued or sent after that, and each reads its own |
| Turns.CatchUpVerdict | cvg_a3/ReplicationManager.cpp:162-204 | a catch-up over h holes, however many answers share a piece: the backup ends committed at n; with u answers left when the COMMIT is sent again, u < h, the manager succeeds iff u is 0 or the backup lacked write n + 1 - u, and else reports a refusal |
| Turns.CatchUpPieceByPiece | cvg_a3/ReplicationManager.cpp:162-204 | with each answer in a piece of its own h - 1 answers stay unread, the last an acknowledgement, and write n + 2 - h decides |
| Turns.NextIsReadAsAcknowledged | cvg_a3/ReplicationManager.cpp:162-175 | after a catch-up over two holes the next message is read as acknowledged, whatever the backup answers |
| LateAnswers.RefusedCommitReadAsAcknowledged | cvg_a3/ReplicationManager.cpp:162-204 | requests and expiry passes after which the backup refuses a commit and the manager reads an acknowledgement |
| LateAnswers.MadeCommitReadAsRefused | cvg_a3/ReplicationManager.cpp:205-208 | requests and one crash of the backup after which it makes a commit and the manager reads a refusal |
| Pieces.ReadTakesOnePiece | cvg_a3/Client.cpp:126-151 | one read takes exactly the piece in which the answer arrives, and every other answer in it is gone |
| Pieces.BytesAreTalk | cvg_a3/Client.cpp:126-151 | read from the bytes, answers that share pieces in any way come as late as `Turns.Talk` says |

## Left out

- Sockets, timers, the accept loop, session lifetime and authorisation: a handler runs to its end before the next one starts, as the single `io_service` gives.
- Serialization of the log, `fdatasync`, locks and directories: saving the log is one atomic copy, an append succeeds wholly or not at all.
- Requests that name transaction 0 or -1: these records hold the server's own data, and the model's transaction numbers exclude them.
- READ, PING, AUTH, KILL, MAKE_TXN from clients, `primary.txt`, role switching and the retry counter: roles are fixed.
- The spelling of a stored write header: resending a write depends only on its transaction and sequence number, which `Framing.EchoHeaderSaysTheSame` keeps.
- Random numbers: a draw is any number; that the retry loop meets a free one is assumed.
- The tick counter of the transaction manager: an expiry pass or a periodic save may happen between any two requests.
- 32-bit limits of sequence numbers: numbers are unbounded.
- Erasing through the loop iterator during the expiry pass: the erase-and-advance that is meant.
- Expiry passes, crashes and disk failures in the two-server runs: expiry is local to a server and never replicated; these are treated on one server.
- The integrity check that a backup runs against its primary: with a dropped connection it reports success without queuing anything.
- Replication.Link.SendReceive: one answer per message. Servers in step meet this (`Turns.InStepOneEach`); otherwise it is what the manager reads as long as the condition of `Turns.InTurnIffInOnePiece` and the piece ends of `Answers.AnswerUnderstoodForEveryCut` hold, and `Turns.CatchUpVerdict` says what it reads in a catch-up on other connections.
- Replication.ReplicationManager.Commit: with a backup connected or announced, requires that it can be caught up on the transaction or refuses it, and before a reconnect the same of each commit of the primary; otherwise the recursion need not end (`CatchUp.CatchUpEndsIffNotStuck` is the exact condition for one transaction). Servers in step always meet this (`Lockstep.SyncFollows`). The same holds of PrimaryOps, CommitOnline, IntegrityCheck and DoCommit.
- Sessions.Session.Handle: excludes the commit of a transaction of which replication has lost a message while a backup is connected or announced: that is the catch-up which need not end. When the request itself makes the connection, it does not follow the fates of the messages that the integrity check sends first.
- Sessions.RunBoth: excludes the same commits, and a backup that announces itself after one was made without it.
- Answers cut in their middle in `Pieces`: its first piece holds whole answers; for one answer `Answers.AnswerUnderstoodForEveryCut` takes every cut.
- The connection may fail any finite number of times in one handler: with endless reconnecting and failing the recursion of the integrity check would not end.
