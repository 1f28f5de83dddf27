# Verified models of a Redis server's core

This project models five parts of a Redis server (the cluster bus, the append-only log, CRC-64,
the bit operations and the text form of slot ownership) and proves what they promise, for every
input, every run and every order of messages. `dafny verify dfyconfig.toml` checks all of it.

The server code mutates its state in place, so its operations appear twice: as a method, on a
class or an array, with the loops of the code; and as a function on values that the method is
proved equal to. What holds over whole runs is proved of the functions.

## What is modelled

**Cluster (`src/cluster.c`).** `SlotTable` is the doubly kept slot ownership (an owner per slot, a
bitmap and a counter per node) and `ClusterSlots` the same in place. `ClusterBus` is one node's
view and what every bus message and the failover cron do to it; `ClusterNode` runs the handlers in
place. `Election` puts many nodes and a bag of messages together: a message may be delivered in
any order, any number of times or never, except that a vote is delivered at most once. Epoch
dominance and election safety are invariants of all its runs. `SlotConvergence` shows that slot
claims converge in any order, `RoleChanges` what winning and losing do, `SlotMessages` what each
PING and UPDATE does to every slot and role, and `SlotRepair` that a node which claims a slot it
has lost is set right by the answers. `VoteRules` says exactly when votes are granted, counted and
asked for and which epochs are taken, and `ElectionHistory` what every vote, request and victory
of a run rested on. `SlaveSlots` shows that no slave comes to own a slot by messages or by the
commands of `ClusterCommands` but one, `EpochCollision` that config epoch collisions die out,
`CollisionBound` that its bound is exact, and `FailureReports`, `FailureQuorum` and
`FailureDetector` what a FAIL flag set by local agreement rests on. `SlotText` and `ConfigFile`
write ownership to the configuration file and load it.

**Append-only log (`src/aof.c`).** `AofFormat` is the encoding and the reader of one command,
`AofLoader` the loader, `AofMalformed` what it refuses, `AofSelect` the bookkeeping of the
selected database over feeds, rewrites, stops and starts, `AofHistory` what must then be in the
log, `RewriteBuffer` and `AofRewrite` the rewrite by a child process, `AofFlush` the flush to
disk, and `ListRewrite` the rewriting of a list. `AofRecovery` joins them: what is loaded after a
crash is what was logged. `AofJoint` runs the server, the pipe and the child together, and
`AofDisk` the server and the bytes of its file.

**CRC-64 (`src/crc64.c`, `src/crcspeed.c`)** in `Crc64`, over words of 64 bits; **bit operations
(`src/bitops.c`)** in `Popcount`, `Bitpos` and `Bitfield`, over the bits of the string
(`BitString`). Machine widths are written out where they matter.

The number of slots, the size of a rewrite block and the items per rewritten command are
arbitrary. Time, randomness, reads and writes are arguments: a caller of a method passes what each
system call returned.

## What does not hold as one might expect

- *Election safety needs a quiet window.* Votes are cleared in one pass of the failover cron
  (`src/cluster.c:2911`) and the epoch moves in a later one (`src/cluster.c:2971`). A vote of an
  older election that arrives in between is counted. `StaleVotes.StaleVotesElectTwo` is a run from
  a quiet cluster with two winners of one epoch, in which masters of a fixed electorate of five
  vote on request, at most once per epoch, and every vote is delivered at most once;
  `Election.TallyKeptExactly` says exactly when a delivery does no harm, and
  `Election.ElectionSafety` covers all runs without such a delivery.
- *FAIL can rest on fewer nodes than a quorum.* Gossip is credited to the sender named in the
  header even if that is the receiving node itself, as after CLUSTER MEET with its own address;
  the receiver then counts once by its report and once as a master.
  `FailureQuorum.OwnEchoCountsTwice` is such a run, `FailureQuorum.EchoMattersExactlyWhen` the
  exact condition.
- *A rewrite with logging off can leave a stale buffer.* If the flush in `stopAppendOnly` fails,
  the buffer survives; a rewrite that ends while logging is off replaces the file and keeps the
  buffer. `AofSelect.OffRewriteIsRightExactlyWhen` says that the log is right if and only if the
  buffer is empty then, and `AofSelect.PendingSurvivesRewrite` gives the run.
- *The rewrite depends on the child's last read.* The new log is exact if and only if that read
  loop emptied the pipe; an interrupted read ends it early (`AofRewrite.NewLogIsExact`,
  `AofRewrite.CutLosesBytes`).
- *An UPDATE of a node about itself is never applied.* A node that claims a slot it has lost is
  sent an UPDATE about the new owner (`src/cluster.c:1920-1944`). If the sender of the UPDATE is
  that owner, the header of the message already carries its epoch, which is read first
  (`src/cluster.c:1671-1682`), so the UPDATE counts as nothing new (`src/cluster.c:2035`):
  `SlotRepair.UpdateAboutItself`. The slot is then moved by the owner's own PING or PONG
  (`SlotRepair.HeaderRepairs`); `SlotRepair.UpdateRepairs` is the exact condition for the others.
- *A slave that is given slots by hand can stop the server.* A node asserts that it owns no slot
  when it becomes a slave of another (`src/cluster.c:3808`). No message breaks this
  (`SlaveSlots.SlavesStayBare`), nor does a command that asks for the role: CLUSTER SETSLOT
  refuses slaves, and CLUSTER REPLICATE refuses to make a master with slots a slave
  (`src/cluster.c:4447`). But CLUSTER ADDSLOTS does not ask (`src/cluster.c:4153-4165`), and
  REPLICATE does not look at the slots of a node that is a slave already.
  `SlaveSlots.CommandKeepsBareExactlyWhen` says that ADDSLOTS on a slave is the only way,
  `SlaveSlots.SlotsGivenByHand` is a run from an initial state to the failing assertion, and
  `SlaveSlots.AssertionsHold` the exact condition before the claim.
- *Collisions are rarer than the 2^k - 1 one might expect.* A master with k greater-named masters
  moves at most k times (`EpochCollision.CollisionsTerminate`), and for every k there is a run in
  which it does (`CollisionBound.BoundIsAttained`).
- *BITFIELD SET can saturate the wrong way.* The comment at `src/bitops.c:329-331` says that the
  room above a value is used only after its range was checked. For a number that is too small it
  is used before (`src/bitops.c:335`): if the number is at most the greatest of the field minus
  2^63 the subtraction overflows, and OVERFLOW SAT stores the greatest number of the field instead
  of the least (`Bitfield.SaturatesDownExactlyWhen`). An unsigned field takes a negative number
  for a very great one, so there SAT stores the greatest as well (`Bitfield.Set`).

## Model

What an operation does to the whole is said by the lemmas about its function; a row on a method
of `ClusterSlots`, `ClusterNode` or `FailureDetector` adds that the code, in place and step by
step, computes that function.

| member | source | states |
|---|---|---|
| `SlotRuns.RunKeepsAgreement` | src/cluster.c:3543-3615 | over every run of adding, deleting, node deletion, demotion, claims and takeover, slot j is owned by n exactly when bit j of n's bitmap is set, and counters are populations |
| `SlotTable.AddSlotKeeps` | src/cluster.c:3584-3589 | adding assigns exactly a slot that was free and keeps agreement |
| `SlotTable.DelSlotKeeps` | src/cluster.c:3594-3602 | deleting keeps agreement; the bit it clears was set, so the assertion cannot fire |
| `SlotTable.AgreeDetermines` | src/cluster.c:3543-3581 | owners determine bitmaps and counters: two agreeing tables with the same owners and nodes are equal |
| `SlotTable.NumslotsZero` | src/cluster.c:3543-3573 | a node's counter is zero exactly when no slot is bound to it |
| `SlotTable.DelNodeSlots` | src/cluster.c:3605-3615 | exactly the node's slots become free, all others keep their owner |
| `SlotTable.TakeOver` | src/cluster.c:2810-2816 | exactly the old master's slots go to the new one |
| `SlotTable.DelNode` | src/cluster.c:886-899 | the node and its ownership are gone, everything else is kept |
| `SlotTable.Claim` | src/cluster.c:1534-1571 | a slot changes hands exactly when the claim wins it, whatever the order of the loop |
| `SlotTable.EqualClaimChangesNothing` | src/cluster.c:1888-1900 | a claim equal to the recorded bitmap changes nothing, so skipping it is sound |
| `ClusterSlots.Slots.constructor` | src/cluster.c:410-440 | an empty table agrees |
| `ClusterSlots.Slots.AddNode` | src/cluster.c:867-872 | the in-place form of a new node without slots |
| `ClusterSlots.Slots.SetBit` | src/cluster.c:3543-3565 | bit and counter move together; returns the old bit |
| `ClusterSlots.Slots.ClearBit` | src/cluster.c:3568-3573 | bit and counter move together; returns the old bit |
| `ClusterSlots.Slots.AddSlot` | src/cluster.c:3584-3589 | in place, equal to the specification; fails exactly on an owned slot |
| `ClusterSlots.Slots.DelSlot` | src/cluster.c:3594-3602 | in place, equal to the specification; fails exactly on a free slot |
| `ClusterSlots.Slots.DelNodeSlots` | src/cluster.c:3605-3615 | the loop frees the node's slots and counts them |
| `ClusterSlots.Slots.DelNode` | src/cluster.c:886-899 | the loop over all slots and the removal of the node |
| `ClusterSlots.Slots.Claim` | src/cluster.c:1534-1571 | the claim loop equals the specification and reports whether a slot of the given master was lost |
| `ClusterSlots.Slots.TakeOver` | src/cluster.c:2810-2816 | the takeover loop equals the specification |
| `Election.EpochDominance` | src/cluster.c:1671-1682 | in every reachable state a node's current epoch bounds its election epoch and all config epochs it records, and every message's config epochs are bounded by its own current epoch |
| `Election.ElectionSafety` | src/cluster.c:2600-2700 | in every run with an electorate per epoch and no stale vote counted, no two slaves win one epoch |
| `Election.TallyKeptExactly` | src/cluster.c:2906-2981 | delivering a vote keeps the tally honest if and only if it is not counted or votes were asked for since the counter was cleared |
| `Election.OneWinner` | src/cluster.c:2984-2999 | two majorities for one epoch share a voter, who voted once |
| `Election.OnPingKeeps` | src/cluster.c:2195-2267 | a PING keeps dominance, leaves the election alone, and what is sent is bounded |
| `Election.OnUpdateKeeps` | src/cluster.c:2027-2048 | an UPDATE keeps dominance and leaves the election alone |
| `Election.OnAuthAckKeeps` | src/cluster.c:2002-2014 | a vote moves the count by one exactly when it is countable and keeps dominance |
| `Election.OnAuthRequestKeeps` | src/cluster.c:2600-2699 | a vote is cast in the node's current epoch and at most once in it |
| `Election.OnFailoverKeeps` | src/cluster.c:2906-2999 | the failover cron keeps dominance and sends bounded messages |
| `Election.BumpDominates` | src/cluster.c:993-1010 | a bump without consensus keeps dominance |
| `VoteRules.VoteExactlyWhen` | src/cluster.c:2600-2699 | a vote is granted if and only if this node is a master with slots, the request is not older, it has not voted in that epoch, the candidate is a slave whose master is recorded as failed (or the request is forced), the last vote about that master is two timeouts ago and no claimed slot is recorded under a greater epoch; what is sent and noted then, and that nothing else changes |
| `VoteRules.CountsExactlyWhen` | src/cluster.c:2002-2014 | a vote is counted if and only if it comes from a master that owns a slot and is not of an older epoch than the election |
| `VoteRules.CampaignExactlyWhen` | src/cluster.c:2838-3000 | when a pass of the failover handler wins, asks for votes (in the next epoch, on behalf of the master), clears its votes or does nothing, each both ways |
| `VoteRules.AgreedRequestIsGranted` | src/cluster.c:2600-2699 | the request of a candidate that agrees with a voter on slots, epochs and the failure is granted |
| `VoteRules.BumpTakesNew` | src/cluster.c:993-1010 | the epoch taken without consensus is greater than every one known, and it is taken exactly when the own one is zero or not the greatest |
| `VoteRules.PingEpochs` | src/cluster.c:1671-1682 | which epochs are recorded after a PING, and that a master moves to a new one exactly on a collision with a greater name |
| `ElectionHistory.EverythingExplained` | src/cluster.c:2600-2999 | in every run, every vote sent was deserved when it was cast, and every request and victory came at a moment when the master was recorded as failed or a manual failover was under way |
| `ElectionHistory.VotesAreSpaced` | src/cluster.c:2658-2697 | in every run, two votes of one node about one master are at least two timeouts apart |
| `StaleVotes.StaleVotesElectTwo` | src/cluster.c:2907-2972 | from a quiet cluster, a run that keeps to a fixed electorate, with every vote cast on request and delivered at most once, in which two slaves win one epoch; it is not free of stale votes |
| `RoleChanges.WinnerTakesOver` | src/cluster.c:2800-2826 | the winner is a master under the greater of its own and the election's epoch, owns exactly its own and its master's slots, and the old master owns none |
| `RoleChanges.FollowsTheClaimant` | src/cluster.c:1511-1599 | a node follows a claimant exactly when the claim took the last slot of its master or of itself; no other role changes |
| `SlotMessages.UpdateMoves` | src/cluster.c:2027-2048 | news about another node makes it a master under its epoch and moves to it exactly the claimed slots that are not imported and are free or recorded under a smaller epoch; what is not news moves nothing |
| `SlotMessages.PingMoves` | src/cluster.c:1841-1900 | the same for the PING of a master; the PING of a slave takes the slots of a former master away and notes its master; who follows whom |
| `SlotRepair.PingAnswered` | src/cluster.c:1902-1944 | one header answers, and one UPDATE if and only if the sender claims a slot of another under a greater epoch and its slots are not the recorded ones; it names the owner of the first such slot, its epoch and its slots |
| `SlotRepair.UpdateRepairs` | src/cluster.c:1920-1944 | a master that claimed a lost slot gives it to the owner named in the UPDATE it drew, if and only if it does not import the slot and the UPDATE is news to it |
| `SlotRepair.UpdateAboutItself` | src/cluster.c:2027-2037 | an UPDATE of a master about itself is never news and moves no slot |
| `SlotRepair.HeaderRepairs` | src/cluster.c:1888-1900 | in that case the header that answered the same PING moves the slot, unless it is imported |
| `SlotRepair.AgreeingIsQuiet` | src/cluster.c:2195-2267 | a header speaks for its node or its master: nodes that agree on slots and epochs do not correct each other |
| `SlaveSlots.AssertionsHold` | src/cluster.c:3806-3808 | when a claim makes a node a slave, the claimant is another node, and the node is left without slots if and only if, before the claim, it wins every slot the node owns |
| `SlaveSlots.PingAsserts` | src/cluster.c:1580-1585 | on a node that owned no slot as a slave, whatever the PING, the assertion holds when its claim is processed |
| `SlaveSlots.ReplicateAsserts` | src/cluster.c:4444-4456 | the guards of CLUSTER REPLICATE imply the assertion |
| `SlaveSlots.CommandKeepsBareExactlyWhen` | src/cluster.c:4111-4456 | a command leaves a node owning no slot as a slave if and only if it is not an accepted ADDSLOTS of some slot on a slave |
| `SlaveSlots.SlotsGivenByHand` | src/cluster.c:4153-4165 | a run from an initial state: ADDSLOTS on a slave, a PING of the node that took its master's slot, and the delivery in which the assertion fails |
| `SlaveSlots.SlavesStayBare` | src/cluster.c:3806-3822 | in every run in which no slot is added to a slave by hand and commands pass their guards, no slave owns a slot in its own view |
| `ClusterCommands.AddAll` | src/cluster.c:4153-4165 | exactly the free slots among those given become the node's |
| `ClusterCommands.DelAll` | src/cluster.c:4153-4165 | exactly the slots given become free |
| `ClusterCommands.CommandExactly` | src/cluster.c:4111-4456 | a refused command changes nothing, any other moves exactly the slots it names, closes imports and, for REPLICATE only, changes the role |
| `ClusterNode.ClusterState.CheckSlots` | src/cluster.c:4130-4152 | the arguments pass exactly when all slots exist, are free (or owned, to delete) and none is given twice |
| `ClusterNode.ClusterState.ApplySlots` | src/cluster.c:4153-4165 | the loop over all slots equals the specification and the assertion on each change holds |
| `ClusterNode.ClusterState.ChangeSlots` | src/cluster.c:4120-4169 | ADDSLOTS and DELSLOTS in place: all of the specified change or none |
| `SlotConvergence.ClaimsConverge` | src/cluster.c:1511-1571 | claims in any order and with repetition bind every slot of an unassigned table to its greatest-epoch claimant, if the observer has recorded no claimant under a later epoch than it claims with |
| `SlotConvergence.OrderDoesNotMatter` | src/cluster.c:1888-1900 | two orders of the same claims end in the same table, under the same condition |
| `SlotConvergence.BestIsUnique` | src/cluster.c:1534-1571 | the best claimant of a slot is unique |
| `SlotConvergence.CleanClaim` | src/cluster.c:1888-1900 | a claim that is skipped as unchanged would not have changed a slot |
| `EpochCollision.CollisionsTerminate` | src/cluster.c:1058-1073 | in every run a master with k greater-named masters moves at most k times, the greatest never |
| `CollisionBound.BoundIsAttained` | src/cluster.c:1058-1073 | for every k, a run of k + 1 masters in which each moves exactly as often as there are greater-named ones |
| `EpochCollision.RestsExactlyWhenDistinct` | src/cluster.c:1946-1953 | no header moves anybody if and only if all config epochs are distinct |
| `EpochCollision.ReceiveIsHandler` | src/cluster.c:1671-1682 | the epochs-only step is what the whole PING handler does to epochs |
| `EpochCollision.FewValues` | src/cluster.c:1058-1073 | an upward closed set of masters never had more epochs than members |
| `ClusterBus.FirstOutdated` | src/cluster.c:1920-1944 | the slot reported is outdated and no earlier one is; none is reported only if there is none |
| `ClusterNode.ClusterState.constructor` | src/cluster.c:410-440 | a fresh node is a well-formed lone master in epoch 0 |
| `ClusterNode.ClusterState.LearnEpochs` | src/cluster.c:1671-1682 | in place, equal to adopting the greater epochs |
| `ClusterNode.ClusterState.LearnRole` | src/cluster.c:1841-1874 | in place, equal to the specified role change |
| `ClusterNode.ClusterState.UpdateSlotsConfigWith` | src/cluster.c:1511-1599 | in place, equal to the specified slot update, including the switch to a new master |
| `ClusterNode.ClusterState.HandleConfigEpochCollision` | src/cluster.c:1058-1073 | in place, equal to the specified collision handling |
| `ClusterNode.ClusterState.MaxEpoch` | src/cluster.c:949-963 | the least number that bounds the current and every recorded config epoch |
| `ClusterNode.ClusterState.BumpConfigEpochWithoutConsensus` | src/cluster.c:993-1010 | bumps exactly when the own config epoch is zero or not the greatest known |
| `ClusterNode.ClusterState.ProcessPing` | src/cluster.c:1671-1953 | the handler, step by step, equals the specified new view and messages sent |
| `ClusterNode.ClusterState.ProcessUpdate` | src/cluster.c:2027-2048 | the handler equals the specified new view |
| `ClusterNode.ClusterState.Grants` | src/cluster.c:2600-2676 | the chain of early returns grants a vote exactly under the specified conditions |
| `ClusterNode.ClusterState.SendFailoverAuthIfNeeded` | src/cluster.c:2600-2699 | the handler equals the specified new view and acknowledgement |
| `ClusterNode.ClusterState.ProcessAck` | src/cluster.c:2002-2014 | the handler equals the specified new view |
| `ClusterNode.ClusterState.FailoverReplaceYourMaster` | src/cluster.c:2800-2826 | in place, equal to the specified takeover |
| `ClusterNode.ClusterState.HandleSlaveFailover` | src/cluster.c:2838-3000 | one pass equals the specified outcome: view, messages, victory |
| `FailureQuorum.ReportsInEveryRun` | src/cluster.c:715-798 | in every run: at most one report per reporter, none from a deleted node, each the reporter's last word |
| `FailureQuorum.FailExactlyAtQuorum` | src/cluster.c:1174-1198 | FAIL is set if and only if the node was suspected and recent standing words, plus one for a master, make a quorum |
| `FailureQuorum.FailNeedsQuorumOfNodes` | src/cluster.c:1345-1352 | after every run without echoes, FAIL is set if and only if size/2+1 distinct nodes witness the failure, the others within twice the timeout |
| `FailureQuorum.EchoMattersExactlyWhen` | src/cluster.c:1322-1352 | a word of failure sets FAIL on fewer nodes than a quorum if and only if, before it, the node was suspected, this node is a master whose own word counts, and those who speak are one short of a quorum |
| `FailureQuorum.OwnEchoCountsTwice` | src/cluster.c:1322-1352 | a node alone in a cluster of three masters sets FAIL |
| `FailureQuorum.ForgetKeeps` | src/cluster.c:886-912 | forgetting a node removes its reports and no fresh one of others |
| `FailureReports.AddReportHolds` | src/cluster.c:715-738 | one report per node is kept; exactly the sender's report is new |
| `FailureReports.ExpireHolds` | src/cluster.c:745-760 | exactly the reports that are not too old are kept |
| `FailureReports.DelReportHolds` | src/cluster.c:772-790 | the sender's report is gone and no fresh report of another is lost |
| `FailureReports.OneEach` | src/cluster.c:795-798 | the length of the list is the number of distinct reporters |
| `FailureReports.GossipTouches` | src/cluster.c:1340-1368 | one word changes no other record, and flags only by a heeded word of failure from suspected to failed |
| `FailureReports.GossipReports` | src/cluster.c:1340-1368 | exactly which reports are there after a word, for every kind of word |
| `FailureReports.ForgetExactly` | src/cluster.c:886-912 | forgetting a node removes its record and reports and touches no flag |
| `FailureDetector.Detector.AddFailureReport` | src/cluster.c:715-738 | the walk over the list equals the specification; returns whether the report is new |
| `FailureDetector.DropExpired` | src/cluster.c:745-760 | unlinking entries during the walk keeps exactly the fresh ones, in order |
| `FailureDetector.Detector.DelFailureReport` | src/cluster.c:772-790 | the walk equals the specification; returns whether a report was removed |
| `FailureDetector.Detector.FailureReportsCount` | src/cluster.c:795-798 | cleans up and counts what is left |
| `FailureDetector.Detector.MarkNodeAsFailingIfNeeded` | src/cluster.c:1174-1198 | sets FAIL exactly at local agreement |
| `FailureDetector.Detector.ProcessGossip` | src/cluster.c:1340-1368 | one gossip entry equals the specified change |
| `FailureDetector.Detector.DelNode` | src/cluster.c:901-912 | the loop over all nodes equals forgetting the node |
| `ConfigFile.WrittenTableLoads` | src/cluster.c:122-270 | the lines written for all nodes, in any order, whatever their other fields and the slots on the move, load back to the same table |
| `ConfigFile.GenNodeDescription` | src/cluster.c:3862-3925 | the writer gives the one text of the node: name, fields, slots of the bitmap, slots on the move |
| `ConfigFile.WordsOfLine` | src/cluster.c:134-135 | a written line splits into the name, seven words, one per range and one per slot on the move |
| `ConfigFile.LoadMarks` | src/cluster.c:235-258 | slots on the move add no owner |
| `ConfigFile.MarkParses` | src/cluster.c:241-252 | slot and node of a slot on the move read back |
| `ConfigFile.FieldsInPlace` | src/cluster.c:3862-3925 | every field of a written line is the word the loader reads it from |
| `ConfigFile.MalformedFileIsRefused` | src/cluster.c:154-268 | after any lines that load and whatever follows, a line with fewer than eight words, without a port, or with a slot that does not exist is a format error |
| `ConfigFile.LineMeets` | src/cluster.c:157-252 | a line that loads makes known every node it names: its own, its master and those its slots move from or to |
| `ConfigFile.SkippedLine` | src/cluster.c:128-153 | blank lines and the line of variables change nothing |
| `SlotText.GenSlots` | src/cluster.c:3890-3908 | the printed ranges are sorted, disjoint, never adjacent and cover exactly the bitmap, also at the last slot |
| `SlotText.OneDescription` | src/cluster.c:3890-3908 | a bitmap has only one such list of ranges, so only one text |
| `SlotText.LoadRanges` | src/cluster.c:259-268 | loading ranges gives the node every slot in them that was free, and no other |
| `SlotText.WordsOfText` | src/cluster.c:134-135 | printed ranges split into one word each |
| `SlotText.WordsOfSpaced` | src/cluster.c:134-135 | words written with spaces split into those words |
| `SlotText.EndsOfRange` | src/cluster.c:259-265 | the ends read from a printed range are its ends |
| `SlotText.LoadSlots` | src/cluster.c:232-269 | the loader's loop on the table itself equals the specification, and reports exactly the format errors |
| `Decimal.AtoiPrint` | src/cluster.c:259-265 | a printed number reads back, whatever follows that is no digit |
| `Decimal.AtoiNumeral` | src/aof.c:882 | the text of an integer reads back, sign and all |
| `Decimal.OneNumeral` | src/cluster.c:3890-3908 | a number has one decimal text without leading zeros, the printed one |
| `Decimal.BlankIsSpace` | src/cluster.c:134-135 | blanks are the six characters isspace accepts |
| `Decimal.AtoiParts` | src/cluster.c:259-265 | what is read of blanks, a sign, digits and anything else |
| `AofRecovery.SelectText` | src/aof.c:551-553 | the SELECT printed by format string is the encoded command |
| `AofRecovery.Feeder.FeedAppendOnlyFile` | src/aof.c:542-606 | the text of the fed entries goes to the log buffer when on and to the rewrite buffer when a child runs |
| `AofRecovery.LoadIsReplay` | src/aof.c:711-785 | loading a log's bytes executes what its entries mean |
| `AofRecovery.CrashLosesOnlyTheEnd` | src/aof.c:800-831 | after every run, any non-empty prefix of the log's bytes loads as a prefix of what was issued, each command in its database |
| `AofDisk.DiskLoads` | src/aof.c:318-456 | after every run of commands, flushes with any writes and failures, rewrites, stops and starts, and after an exit, every non-empty prefix of the bytes on disk loads as a prefix of what was issued, in the right databases; all of it when the buffer is empty and no byte is missing |
| `AofDisk.NextWritten` | src/aof.c:1557-1577 | every step keeps file and buffer the text of the log and the recorded size right whenever it can be used, although a rewrite that ends with logging off does not bring it up to date |
| `AofDisk.DiskLoadsIssued` | src/aof.c:318-456 | the same from the steps alone: until a stop or a completed rewrite, what loads is a prefix of the log at the start followed by the commands issued since |
| `AofRecovery.CutLoads` | src/aof.c:800-831 | the text of a log, cut anywhere, loads as a prefix of what the log does |
| `AofJoint.RewrittenLogLoads` | src/aof.c:1468-1577 | over every joint run of server, pipe and child: the log installed when the last read emptied the pipe, loaded, executes the base and every command issued since the fork, in its database |
| `AofJoint.InstalledIsTheNewLog` | src/aof.c:595-603 | what the child was fed is the text of the entries logged since the fork, and the installed file is the text of the new log if and only if the last read emptied the pipe |
| `AofJoint.FeedMatches` | src/aof.c:595-603 | feeding appends the same to the log and to the rewrite |
| `AofLoader.LoadAppendOnlyFile` | src/aof.c:660-831 | the loading loop equals the specified outcome, for well-formed, cut, empty and malformed files |
| `AofLoader.LoadPrefix` | src/aof.c:711-831 | of every non-empty prefix of an encoded log exactly the commands wholly inside are executed, and the valid offset is the end of the last; a strict loader accepts it exactly when it ends there |
| `AofLoader.TruncatedLogIsWhole` | src/aof.c:807-831 | truncating at the valid offset leaves a whole log with the same commands |
| `AofMalformed.MalformedIsFatal` | src/aof.c:732-840 | whether truncation is tolerated or not, commands that load followed by bytes without a star, a count below one, an argument without a dollar sign or of negative length, or a command that is not known end the program |
| `AofMalformed.SetApart` | src/aof.c:670-710 | an empty file and one with a preamble, and no others, are set apart |
| `AofFormat.CatGenericCommand` | src/aof.c:480-503 | appends the encoding of the command |
| `AofFormat.ReadWrittenCommand` | src/aof.c:726-762 | reading undoes encoding, whatever follows |
| `AofFormat.ReadCutCommand` | src/aof.c:726-762 | an encoding cut anywhere behind its first byte is seen as an unexpected end of file, never as a format error or another command |
| `AofFormat.ReadArguments` | src/aof.c:741-762 | the argument loop equals the specified reader |
| `AofFormat.ReadNext` | src/aof.c:726-762 | reading one command equals the specified reader |
| `AofSelect.EveryCommandInItsDatabase` | src/aof.c:542-606 | over every run of feeds, flushes, rewrites, stops and starts, replaying log and buffer from database 0 runs each command in its database |
| `AofSelect.EveryCommandSinceTheFork` | src/aof.c:1416-1420 | the same of the log a rewrite is about to install |
| `AofHistory.LoggedSinceTheFork` | src/aof.c:1557-1584 | after the last completed rewrite, if logging was on or being started at its fork and not stopped since, logging is on and the log does what the child wrote and then every command issued since the fork |
| `AofHistory.CompletedRewrite` | src/aof.c:1557-1584 | what a completed rewrite leaves in the log, the buffer and the mode, with logging on, waiting and off |
| `AofHistory.LoggedAlong` | src/aof.c:542-606 | while logging is on the log grows by exactly the commands issued |
| `AofHistory.NothingLogged` | src/aof.c:595-596 | while it is not on the log does not change until a rewrite is completed |
| `AofHistory.StopTurnsOff` | src/aof.c:208-216 | after a stop nothing is logged until a start, even if a rewrite is completed |
| `AofHistory.StartWaits` | src/aof.c:233-263 | after a start logging waits until a rewrite is completed, however many fail |
| `AofHistory.SelectsOnChange` | src/aof.c:548-555 | a SELECT is logged exactly where the database changes |
| `AofSelect.ReplayFed` | src/aof.c:548-555 | leaving SELECT out is right behind any log that ends in the selected database |
| `AofSelect.OffRewriteIsRightExactlyWhen` | src/aof.c:1557-1577 | a rewrite that ends with logging off leaves log and buffer right if and only if the buffer is empty |
| `AofSelect.PendingSurvivesRewrite` | src/aof.c:208-216 | a run in which a failed last flush makes the log wrong |
| `AofRewrite.NothingLost` | src/aof.c:95-169 | in every state of every run: read by the child, in the pipe, in the blocks, in this order, is everything the steps fed since the fork |
| `AofRewrite.NewLogIsExact` | src/aof.c:1234-1253 | the installed log is the base followed by exactly the bytes fed, if and only if the child's last read emptied the pipe |
| `AofRewrite.CutLosesBytes` | src/aof.c:1083-1093 | a run in which an interrupted last read loses a byte |
| `AofRewrite.NextInv` | src/aof.c:1284-1305 | every step of parent and child keeps conservation, and once the parent has stopped the pipe does not grow |
| `RewriteBuffer.Buffer.constructor` | src/aof.c:70-76 | a buffer that holds nothing |
| `RewriteBuffer.Buffer.Reset` | src/aof.c:70-76 | the buffer holds nothing afterwards |
| `RewriteBuffer.Buffer.Append` | src/aof.c:125-169 | the block-filling loop appends exactly the data, at any block size |
| `RewriteBuffer.Buffer.Size` | src/aof.c:79-90 | the number of bytes held |
| `RewriteBuffer.Buffer.ChildWriteDiffData` | src/aof.c:95-122 | pipe followed by buffer stays the same; nothing is sent after the stop; all is sent if no write fails |
| `RewriteBuffer.Buffer.Write` | src/aof.c:174-194 | what is written is a prefix of the contents, and all of it on success |
| `RewriteBuffer.FillLast` | src/aof.c:132-141 | filling the last block appends |
| `RewriteBuffer.SendFirst` | src/aof.c:112-119 | what is taken from the first block comes first |
| `AofFlush.AofWrite` | src/aof.c:278-297 | what reached the file is the prefix the calls accepted, and the result is its length or -1 |
| `AofFlush.AppendOnlyFile.FlushAppendOnlyFile` | src/aof.c:318-456 | the flush equals the specified change of file, buffer, size, status and postponement |
| `AofFlush.FlushConserves` | src/aof.c:318-456 | over every run, file followed by buffer is everything fed and the recorded size is the size of the file; after an exit the file is a prefix of it |
| `AofFlush.FlushDelivers` | src/aof.c:278-297 | short and interrupted writes that together suffice empty the buffer |
| `AofFlush.AcceptedIs` | src/aof.c:278-297 | what is written is what the calls before the first failure could take |
| `AofFlush.DueWrites` | src/aof.c:360-456 | a flush that is due: file, buffer, status, exit and truncation, whatever the calls do |
| `AofFlush.NotDueWaits` | src/aof.c:330-356 | a flush that is not due writes nothing and notes when it was first put off |
| `AofFlush.TwoSecondsAtMost` | src/aof.c:330-356 | over runs, no flush is put off for two seconds |
| `AofFlush.NeverExits` | src/aof.c:417-437 | without the policy "always" the program never exits |
| `ListRewrite.RewriteListObject` | src/aof.c:862-892 | the text is the encoding of the commands for the list, so each declares exactly the arguments that follow |
| `ListRewrite.ChunksRebuild` | src/aof.c:862-892 | executing the commands appends the list in order and touches no other key |
| `ListRewrite.ChunksAreBounded` | src/aof.c:862-892 | no command carries more elements than the limit, and all but the last carry exactly that many |
| `ListRewrite.LoadRebuilds` | src/aof.c:862-892 | loading the text on an empty key rebuilds the list: each element is its string, or a decimal text that reads back as its number, sign and all |
| `Crc64.ChainedIsReference` | src/crcspeed.c:111-143 | over any split into chunks, chained from 0, the byte-wise checksum is the reflected bit-by-bit one of the whole |
| `Crc64.ChecksumChunks` | src/crcspeed.c:33-143 | the slice-by-8 loop over generated tables, chained over chunks at any addresses, gives what the bit loop gives for the whole message |
| `Crc64.ChecksumIsReflectedDivision` | src/crc64.c:88-111 | for every polynomial, start and message, reflected and unreflected division agree |
| `Crc64.CrcSpeed` | src/crcspeed.c:111-143 | for every length and alignment the slice-by-8 loop gives the byte-wise checksum |
| `Crc64.InitTable` | src/crcspeed.c:33-49 | the generated tables hold the checksum of every byte followed by 0 to 7 zero bytes |
| `Crc64.BitByBit` | src/crc64.c:88-111 | the bit loop is the division of the message's bits, reflected |
| `Crc64.ReflectLoop` | src/crc64.c:69-78 | the loop reverses the bits |
| `Crc64.StepsLinear` | src/crcspeed.c:122-134 | the byte step is linear over exclusive or |
| `Crc64.SliceSumIsSteps` | src/crcspeed.c:122-134 | eight table lookups make eight byte steps |
| `Crc64.PolynomialDigits` | src/crc64.c:33 | the reflected polynomial is the binary digits of the constant, most significant first |
| `Crc64.Init` | src/crc64.c:116-118 | the tables of the program's polynomial |
| `Popcount.Popcount` | src/bitops.c:40-92 | the number of set bits, for every length and alignment |
| `Popcount.SevenWords` | src/bitops.c:57-86 | seven words summed before the multiplication do not overflow a lane |
| `Popcount.ReduceIsCounts` | src/bitops.c:66-80 | the three reduction steps leave in each byte lane the number of its set bits |
| `Popcount.TableIsBitCount` | src/bitops.c:44 | every entry of the byte table is its number of set bits |
| `Popcount.SetBitsAreCounted` | src/bitops.c:40-92 | counting per byte is counting the bits of the string |
| `Bitpos.Bitpos` | src/bitops.c:101-186 | the least position of the bit in the zero-extended string; -1 exactly when a set bit is sought and there is none; the end of the scan is unreachable |
| `Bitpos.SkipWord` | src/bitops.c:133-142 | a skipped word does not hold the bit, any other does |
| `Bitpos.LoadWord` | src/bitops.c:151-159 | the last word is the next 64 bits, zero beyond the end |
| `Bitpos.ScanWord` | src/bitops.c:172-185 | the first position in the word that holds the bit |
| `Bitfield.SetUnsigned` | src/bitops.c:209-222 | the field holds the low bits of the value and no other bit changes |
| `Bitfield.GetUnsigned` | src/bitops.c:229-241 | the number the field's bits write |
| `Bitfield.GetSigned` | src/bitops.c:243-263 | the two's complement value of the field |
| `Bitfield.UnsignedCheckIs` | src/bitops.c:288-323 | for every 64-bit value: overflow is the value or the sum leaving the range, and the limit is what the policy stores |
| `Bitfield.SignedCheckIs` | src/bitops.c:325-375 | the same for signed fields, except for the saturation of a value that is too small |
| `Bitfield.SaturatesDownExactlyWhen` | src/bitops.c:332-346 | a value that is too small saturates to the least number of the field if and only if it is greater than the field's greatest number minus 2^63 |
| `Bitfield.WrapSignedIs` | src/bitops.c:358-374 | the wrapped value is in range and congruent to the sum |
| `Bitfield.OneRepresentative` | src/bitops.c:288-375 | there is only one such value |
| `Bitfield.IncrBy` | src/bitops.c:1022-1081 | the exact sum if it fits, else the clamp, the congruent value or no change; every other bit is unchanged |
| `Bitfield.Set` | src/bitops.c:1022-1081 | the old value is returned and the new one stored as the policy says, or nothing changes; a misjudged number saturates to the greatest |
| `Bitfield.Get` | src/bitops.c:1085-1116 | the nine-byte copy gives the field of the zero-extended string |

## Left out

- Messages from unknown senders and messages a node sends to itself, except gossip: the handlers drop or never see them, and the set of nodes is fixed.
- Handshakes, gossip addresses, the blacklist, replica migration, manual failover pausing, CLUSTER RESET, FAILOVER TAKEOVER and restarts that lose the last vote.
- Deletion of keys in slots that were lost, migrating slots, slave lists and the migrate-to flag.
- The bytes of a bitmap: a bitmap is a sequence of bits.
- CLUSTER FLUSHSLOTS, SETSLOT and REPLICATE in place: they are functions on the view; SETSLOT's states MIGRATING, IMPORTING and STABLE are left out.
- A slave whose master is unknown, which would be dereferenced at src/cluster.c:1580: a well-formed view has none, and every handler keeps it so.
- ElectionHistory.VotesAreSpaced: timeouts are not negative, and what happens on a node besides messages does not touch the times of its votes.
- FailureQuorum.FailExactlyAtQuorum: the clock does not run backwards and the node timeout does not change during a run.
- ConfigFile.WrittenTableLoads: does not model quoting in lines, and what is loaded from the other fields (address, flags, times, epochs, the slots on the move) is not part of the table.
- MULTI/EXEC, the RDB preamble and the translation of expiring commands; a fed command is the list of commands it was translated to.
- AofLoader.LoadAppendOnlyFile: does not clamp numbers beyond a long in malformed files as strtol does, and does not model MULTI/EXEC; truncating the file is taken to succeed.
- AofDisk.DiskLoads: a finished rewrite installs the text of the new log, which it does if the child's last read emptied the pipe (AofJoint.InstalledIsTheNewLog).
- AofRewrite.NewLogIsExact: the opening, syncing and renaming of files either succeeds or ends the rewrite.
- Bitfield.GetSigned: does not model signed fields of 64 bits, where the code shifts by the word width (src/bitops.c:261), which C leaves undefined.
- Bitfield.SignedCheckIs: does not model signed fields of 64 bits either (src/bitops.c:359); the overflow of the room above a value, undefined in C, is taken to wrap around.
- Bitfield.WrapSignedIs: does not model signed fields of 64 bits, for the same shift.
- Bitfield.SaturatesDownExactlyWhen: does not model signed fields of 64 bits, where no value is too small.
- Bitfield.IncrBy: does not model signed fields of 64 bits, which it reads with that shift.
- Bitfield.Set: does not model signed fields of 64 bits, which it reads with that shift.
- Bitfield.Get: does not model signed fields of 64 bits, which it reads with that shift.
- Sets, sorted sets and hashes in the rewrite: the same chunking as lists.
- Big-endian and 16-bit checksums.
- The conflict-free data types and their replication: their merge functions are not part of this model.
