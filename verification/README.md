# Verulink attestor: a verified model of the packet pipeline

The attestor relays bridge packets between Aleo and Ethereum. Its chain service reads packets from a source chain, has
them screened and signed by a bounded pool of workers, delivers the signatures, retries failures, records completions
in a "base sequence number" namespace, compacts that namespace and fetches the first gap in it again. The attestor's
architecture document promises that it "should not miss any packet"; these modules say exactly how far the code keeps
that promise, and prove it.

## How the model is laid out

- `BigEndian`, `Bolt`, `Records`, `Prune`, `Store`: the key codec, a bucket as ascending entries, the base and retry
  namespaces, and one pruning pass. The methods of `Store` work on bytes, as the code does; each is proved to be an
  operation on numbered records, and the properties of pruning are proved about those records.
- `Pipeline`, `Invariants`, `NothingLost`, `Runs`, `GapRecovery`, `LostForever`, `Conservation`, `EthereumLimits`: one
  source chain towards one destination as a state machine. A step is one store transaction, one hand-over or one call to
  a chain; a run is any sequence of steps, with crashes, failed writes and failed calls anywhere, including between a
  pruning snapshot and any of its separate deletes.
- `AleoFeed`, `EthereumScan`: the loops that pull Aleo packets by number and scan Ethereum logs in windows of 101
  blocks, for feeding and for gaps, tied to the pipeline's `Feed` and `Refetch` steps.
- `WorkerPool`, `Screening`, `PruneSchedule`: the guide channel and the unbuffered channels, what a worker does with
  one packet, and which namespace the pruners visit at each tick.
- `Text`, `AleoTokens`, `AleoPacket`, `AleoErrors`, `AleoPrinter`, `AleoRoundTrip`: the Aleo packet text, its parser and
  its printer.
- `EthereumHash`, `ChainId`: the packet hash signed for Ethereum (non-standard packed mode of the Solidity ABI
  specification, wrapped as in version 0x45 of ERC-191), and the network chain id.

## What holds, and where the code falls short of its description

- Everything in scope above the first recorded completion is safe in every run. What lies below it is safe only if it is
  already complete: `FirstCompletionEstablishes` says when the first completion makes that so, `NothingLost` what
  follows from it, and `LosableIffUnsecured` that without it a packet can be lost for good (a later packet completes
  first, then the attestor crashes).
- A packet that is accounted for can still be processed: `AccountedCanBeHeld` gives, for each incomplete one that is
  held, queued, to be fed or in a gap, a run without a restart that puts it in a worker's hands. `FirstGapHeld` does so
  for the gap a pass reports, with the pruner's own steps alone.
- Ethereum resumes at the block after the last record, so later packets of that block wait for a gap to show them
  (`EthereumRestartRescans`, `LaterCompletionOpensGap`); `SharedBlockPassedOver` reaches such a state on every chain.
- `chain/ethereum/client.go` subtracts the wait height from the block height without a sign; below the wait height the
  difference wraps round (`MaturedHeightExact`), and then packets are signed before they are final
  (`FinalIffOldChain`). The other theorems about Ethereum runs assume a chain at least that high.
- The Aleo pruner asks again for the completed packet below the gap as well (`chain/aleo/client.go:244` starts at
  `startSeqNum`), and the Ethereum one does not, although both comments describe a fetch of the gap alone.
- The Ethereum pruner moves to the next destination only after a pass that reported a gap
  (`chain/ethereum/client.go:358-360`), whatever its comment at line 393 suggests; `EthereumKeepsToOneIff` is
  exact, and by `InOrderHoldsPruner` a destination whose packets complete in order keeps the others waiting.
- A failed packet is handed to the retry channel before its screening verdict is stored (`relay/relays.go:207-215`), so
  the next attempt may come first. Once a screening service answers, the first verdict is kept exactly by the schedules
  of `VerdictsAgreeIff`. As the code stands it asks no service and answers true, and no order matters
  (`AnyOrderAsWritten`).
- `parseMessage` mistakes an address that spells one of its field names for that field; `ReadPrint` names the spellings
  that do harm.
- `decodeNetworkChainId` keeps the separator at the end of the network name (`DecodeEncode`).

## Assumptions

- A packet is its sequence number and height in the pipeline; on Ethereum its height is the number of its block. Heights
  do not decrease along the outbox of a chain, and packets are numbered from 1.
- Writes to the retry namespace succeed. Writes and deletes on the base namespace may fail (`CompleteUnrecorded`,
  `DeleteFails`). Packets named by the collector as missed are exempt from finality, as in the code.
- Transactions are atomic, and a cursor that walks a bucket while deleting visits its first entries in order. JSON
  round-trips a packet. Keccak-256 is a parameter, and a packet stands for its SHA-256 screening key.
- Sequence numbers and heights stay below the top of uint64 where a statement says so; elsewhere `Increment`, `Low8` and
  `Low64` spell the wrap out.
- The signer, the collector, the screening service and the chain nodes answer in any way.

## Model

| member | source | states |
|---|---|---|
| BigEndian.U64KeysEmbedOrder | attestor/chainService/store/constraint.go:11-42 | the uint64 keys are exactly the 8-byte strings, and cursor order on them is numeric order |
| BigEndian.I64KeysOrderedWithinSign | attestor/chainService/store/constraint.go:14-16 | int64 keys round-trip; cursor order is numeric order exactly within one sign |
| BigEndian.KeyBytes | attestor/chainService/store/constraint.go:17-19 | a fresh 8-byte buffer holding the big-endian form of the number |
| Bolt.InsertBinds | attestor/chainService/store/bolt.go:46-51 | a put keeps key order, binds its key and changes no other binding |
| Bolt.RemoveUnbinds | attestor/chainService/store/bolt.go:32-44 | a delete keeps key order, unbinds its key and changes no other binding |
| Bolt.Bucket.Put | attestor/chainService/store/bolt.go:46-51 | the whole new bucket is the insertion; an empty key is refused |
| Bolt.Bucket.Delete | attestor/chainService/store/bolt.go:32-44 | the whole new bucket is the removal, also of an absent key |
| Bolt.Bucket.GetAndDelete | attestor/chainService/store/bolt.go:70-85 | returns the value bound to the key, fails exactly when there is none, and unbinds the key |
| Bolt.Bucket.LastKeyValue | attestor/chainService/store/bolt.go:108-127 | the entry above all others, none exactly for an empty bucket |
| Bolt.Bucket.FirstN | attestor/chainService/store/bolt.go:146-166 | the first n entries, or all of them |
| Bolt.Bucket.TakeFirstN | attestor/chainService/store/bolt.go:170-191 | takes the first n entries and leaves the rest; an error exactly when nothing was taken |
| Prune.RunExists | attestor/chainService/store/db.go:114-138 | every namespace with a key has a maximal consecutive run from its first key |
| Prune.RunIsUnique | attestor/chainService/store/db.go:114-138 | it has only one |
| Prune.PrunedKeepsRunEnd | attestor/chainService/store/db.go:107-153 | a pass keeps the run's last key and all above, keeps the last key of all, and no number is missing from the old first key to the new one |
| Prune.FirstGapIsHole | attestor/chainService/store/db.go:132-137 | a reported gap lies between neighbouring keys, is not empty, and follows the first key after the pass |
| Prune.NoGapIffOneRun | attestor/chainService/store/db.go:121-138 | no gap is reported exactly when the first 1000 keys are one run |
| Prune.DeletesInAnyOrder | attestor/chainService/store/db.go:140-150 | the concurrent deletes of a pass leave its result in whatever order they take effect |
| Prune.PassesClosedForm | attestor/chainService/store/db.go:120-150 | n passes drop min(999 n, run - 1) keys, the exact result of any number of passes |
| Prune.PassesSettle | attestor/chainService/store/db.go:120-150 | ceil((k - 1) / 999) passes on k keys reach a single key or a reported gap after the first key |
| Prune.PassesEffective | attestor/chainService/store/db.go:120-150 | a further pass drops keys exactly while the passes so far fall short of the leading run |
| Prune.FilledGapShrinks | attestor/chainService/store/db.go:120-150 | once the reported gap is complete, the next pass raises the first key and keeps the last |
| Store.RecordsAscend | attestor/chainService/store/db.go:36-43 | byte order of the keys is numeric order of the records |
| Store.SeekAgrees | attestor/chainService/store/db.go:36-52 | seeking a number's key in the bytes stops where seeking the number does |
| Store.InsertAgrees | attestor/chainService/store/db.go:36-43 | putting a number's bytes is inserting its record |
| Store.RemoveAgrees | attestor/chainService/store/db.go:70-76 | deleting a number's bytes is removing its record |
| Store.StoreBaseSeqNum | attestor/chainService/store/db.go:36-43 | the namespace becomes the insertion of the record; a zero height is stored as an empty value |
| Store.GetStartingSeqNumAndHeight | attestor/chainService/store/db.go:78-87 | one past the largest recorded number and its height, zero for an empty namespace or height, wrapping as uint64 |
| Store.WalkRun | attestor/chainService/store/db.go:114-138 | the keys collected are the run without its last key; there is nothing to fetch exactly if the run is all that was walked, and otherwise the report holds numbers and heights of the run's last record and of the record after it, each in its place |
| Store.DecidePass | attestor/chainService/store/db.go:107-138 | over the first 1000 records: the collected keys, the report field by field as in WalkRun, empty namespace included |
| Store.DeleteLeading | attestor/chainService/store/db.go:140-150 | deleting the collected keys one by one drops exactly those leading entries |
| Store.PruneBaseSeqNum | attestor/chainService/store/db.go:107-153 | one pass over the bytes drops the first 1000 records' run up to its last, and reports the numbers and heights of the two records either side of the hole after it, each in its place, exactly if there is one in the first 1000 |
| Store.PassPinned | attestor/chainService/store/db.go:107-153 | whatever run of the first 1000 records is meant, the records left and the report of a pass are Pruned and FirstGap of the pruning theorems |
| Store.PacketsAscend | attestor/chainService/store/db.go:45-52 | retried packets come in ascending sequence number |
| Store.InsertPacketAgrees | attestor/chainService/store/db.go:45-52 | putting a packet's bytes is inserting its record |
| Store.StoreRetryPacket | attestor/chainService/store/db.go:45-52 | the retry namespace becomes the insertion of the packet |
| Store.RetrieveAndDeleteNPackets | attestor/chainService/store/db.go:54-68 | returns the n lowest-numbered packets and leaves the others; an error exactly when there is none |
| Invariants.InitSound | attestor/chainService/chain/aleo/client.go:111-122 | a fresh attestor satisfies the invariant |
| Invariants.StepSound | attestor/chainService/chain/aleo/client.go:111-330 | every step of either client, failing or not, keeps the stores, the pruner and the packets in memory consistent with the chain |
| Invariants.ExecSound | attestor/chainService/chain/ethereum/client.go:216-435 | so does every run |
| NothingLost.StepKeeps | attestor/chainService/chain/aleo/client.go:111-330 | every step keeps every packet in scope complete, held, queued, to be fed, in a gap, beside the last record's block, or below every record |
| NothingLost.StepKeepsSecured | attestor/chainService/store/db.go:107-153 | a packet complete or above a record stays so: pruning never uncovers an incomplete one |
| NothingLost.ReachedKeeps | attestor/chainService/chain/ethereum/client.go:216-435 | both hold in every state any run of a fresh attestor reaches |
| NothingLost.StepKeepsEstablished | attestor/chainService/store/db.go:107-153 | "every number in scope below the first key is complete" is kept by every step, also between a snapshot and its deletes and across a crash there |
| NothingLost.FirstCompletionEstablishes | attestor/chainService/chain/aleo/client.go:312-327 | the first recorded completion establishes it exactly when everything in scope below is complete |
| NothingLost.NothingLost | attestor/chainService/chain/aleo/client.go:111-330 | once established, every continuation of every run accounts for every packet in scope |
| NothingLost.OnlyFinalPacketsHeld | attestor/chainService/chain/aleo/client.go:169-174 | in every reachable state each packet held from feed, retry or refetch has waitHeight blocks on top of it |
| NothingLost.MaturedHeightExact | attestor/chainService/chain/ethereum/client.go:161-170 | the unsigned subtraction gives a matured height exactly when the chain is at least waitHeight high |
| NothingLost.ResumesPastMaximum | attestor/chainService/store/db.go:78-87 | in every reachable state the starting number is one past the largest ever recorded, zero exactly if none was |
| NothingLost.ResumeNeverDecreases | attestor/chainService/store/db.go:78-87 | no continuation of a run lowers it |
| NothingLost.AleoRestartCursor | attestor/chainService/chain/aleo/client.go:111-124 | after any run and a crash, Aleo feeding goes on at the larger of the configured number and one past the largest number ever recorded |
| NothingLost.RecordedHeights | attestor/chainService/chain/aleo/client.go:312-327 | in every reachable state an Aleo record has no height and an Ethereum record that of its packet's block |
| NothingLost.ScanOf101Blocks | attestor/chainService/chain/ethereum/client.go:272-294 | one scan passes 101 blocks or all matured ones, and takes exactly the packets of those blocks |
| NothingLost.MissedLeavesNoTrace | attestor/chainService/relay/relays.go:203-206 | a missed packet named by the collector is brought to a worker, and processing it, well or badly, leaves the pipeline as before |
| NothingLost.EthereumRestartRescans | attestor/chainService/chain/ethereum/client.go:229-245 | after a restart, whatever the other destinations' heights, a later packet is scanned again exactly unless it shares the last record's block and nothing makes the client resume at or below it |
| EthereumLimits.SharedBlockPassedOver | attestor/chainService/chain/ethereum/client.go:229-245 | on every Ethereum chain some run leaves an incomplete packet nowhere but beside the last record |
| EthereumLimits.FinalIffOldChain | attestor/chainService/chain/ethereum/client.go:161-170 | every run holds only final packets exactly when the chain was waitHeight high at the start |
| NothingLost.LaterCompletionOpensGap | attestor/chainService/chain/ethereum/client.go:416-425 | a packet passed over that way is a gap packet once any later completion is recorded |
| LostForever.GoneForGood | attestor/chainService/chain/aleo/client.go:111-330 | an incomplete packet below the first record that nothing holds is never accounted for again |
| LostForever.LosableIffUnsecured | attestor/chainService/chain/aleo/client.go:111-330 | in every reachable state of either client a packet in scope can still be lost for good exactly when it is incomplete and nothing below it is recorded |
| GapRecovery.PassRun | attestor/chainService/store/db.go:107-153 | a snapshot and its deletes, in any order, leave in the pipeline what a pass leaves, and the gap it reports to be fetched |
| GapRecovery.GapRefetched | attestor/chainService/chain/aleo/client.go:243-252 | after the deletes the pruner's steps put in memory exactly the packets from the one below the gap (Aleo) or the one after it (Ethereum) up to the gap's end, once each |
| GapRecovery.FirstGapHeld | attestor/chainService/chain/aleo/client.go:238-252 | every packet of the gap a pass reports is in a worker's hands after a run of the pruner's own snapshot, deletes and fetches |
| GapRecovery.GapPacketHeld | attestor/chainService/store/db.go:107-153 | a packet missing between any two recorded completions can be brought into a worker's hands without a restart, however many gaps and thousands of keys lie before it |
| GapRecovery.AccountedCanBeHeld | attestor/chainService/chain/aleo/client.go:111-330 | in every reachable state each incomplete packet accounted for other than by the last record's block has a run without restart that puts it in a worker's hands |
| Conservation.FedOnceHeldOnce | attestor/chainService/relay/relays.go:196-256 | without crash and refetch, each packet the feeder passed is in memory once, or queued, or complete, in one of them only, for every pattern of failures |
| AleoFeed.Feeder.constructor | attestor/chainService/chain/aleo/client.go:111-124 | feeding starts at the largest of 1, the configured number and the one the store resumes at |
| AleoFeed.Feeder.Pull | attestor/chainService/chain/aleo/client.go:153-179 | the pull sends exactly the packets up to the first absent or immature one, in order and once each, and remembers which it was; failed calls change nothing |
| AleoFeed.Feeder.Round | attestor/chainService/chain/aleo/client.go:127-180 | a round keeps that, and every packet sent had waitHeight blocks on top of it at the second height reading |
| AleoFeed.RefetchGap | attestor/chainService/chain/aleo/client.go:243-252 | the loop sends exactly the readable packets from the one below the gap to the gap's end, in order, skipping failed calls |
| AleoFeed.ReadableMembers | attestor/chainService/chain/aleo/client.go:243-252 | the readable packets are those numbered in the range, on the chain and answered for, with their own heights |
| AleoFeed.WholeGapReadable | attestor/chainService/chain/aleo/client.go:243-252 | with every call answered that is the whole gap, and the completed packet below it |
| AleoFeed.PullIsFeeds | attestor/chainService/chain/aleo/client.go:153-179 | what the pull sends is what as many Feed steps of the pipeline put in memory |
| AleoFeed.RefetchIsSteps | attestor/chainService/chain/aleo/client.go:243-252 | from the gap's lower end on, what the refetch loop sends is what the pruner's Refetch steps put in memory; GapRefetched says where they start |
| EthereumScan.ResumeAt | attestor/chainService/chain/ethereum/client.go:229-245 | the first block is the least starting height of the destinations unless the configured one is above it |
| EthereumScan.Feeder.ScanTo | attestor/chainService/chain/ethereum/client.go:272-294 | windows of 101 blocks up to the matured height, filter errors included: what has been sent is in chain order, and an event is in it exactly if its block has been passed and its destination is supported |
| EthereumScan.Feeder.Tick | attestor/chainService/chain/ethereum/client.go:247-297 | over any heights and errors of a tick the same holds, and no block above a matured height is passed |
| EthereumScan.Feeder.SentExactly | attestor/chainService/chain/ethereum/client.go:272-294 | in every valid state of a feeder what was sent is in chain order and is exactly the supported events of the blocks passed |
| EthereumScan.SupportedMembers | attestor/chainService/chain/ethereum/client.go:287-292 | an event is sent exactly if its destination is supported |
| EthereumScan.SendGap | attestor/chainService/chain/ethereum/client.go:379-391 | one window sends its packets strictly inside the gap and stops exactly at the packet above it |
| EthereumScan.ScanGap | attestor/chainService/chain/ethereum/client.go:364-392 | the scan sends exactly the destination's packets inside the gap, a prefix of them after a filter error, and ends |
| EthereumScan.ScanIsFeed | attestor/chainService/chain/ethereum/client.go:272-294 | the events scanned for a destination are the packets a Feed step takes |
| EthereumScan.GapScanIsRefetch | attestor/chainService/chain/ethereum/client.go:364-392 | a complete gap scan sends the packets the Refetch steps from one past the lower end take; GapRefetched says that they start there |
| EthereumScan.InsideIsSlice | attestor/chainService/chain/ethereum/client.go:379-391 | those are the outbox's packets numbered strictly between the ends |
| EthereumScan.FeederFeedsOutbox | attestor/chainService/chain/ethereum/client.go:247-297 | a feeder in any state has fed each destination exactly its packets of the blocks passed |
| WorkerPool.StepValid | attestor/chainService/relay/relays.go:170-191 | every step keeps it so; workers never outnumber the channel's capacity, and a leaving worker never blocks |
| WorkerPool.BusyCanMove | attestor/chainService/relay/relays.go:170-218 | while anything is under way some step is enabled: there is no circular wait |
| WorkerPool.ReachablePool | attestor/chainService/relay/relays.go:170-218 | in every pool any run with offers reaches from the start, workers never exceed the capacity and, if that is at least one, some step is enabled exactly when something is under way or a token is to be put in |
| WorkerPool.FirstPacketMoves | attestor/chainService/relay/relays.go:170-191 | the first packet can move exactly if one worker is allowed |
| WorkerPool.EverythingDrains | attestor/chainService/relay/relays.go:170-218 | every schedule ends, and where it can go no further each packet is retried or recorded, the missed ones dropped |
| WorkerPool.RetriedIffFailed | attestor/chainService/relay/relays.go:203-218 | in any run that leaves nothing under way a packet is retried exactly if its processing failed, recorded exactly if it did not, dropped exactly if it was missed |
| WorkerPool.OneSavePerRetry | attestor/chainService/relay/relays.go:207-215 | and as many verdicts were saved as packets were retried |
| WorkerPool.ManagersTakeTurns | attestor/chainService/chain/aleo/client.go:297-330 | a chain's packet manager stores one packet at a time |
| Screening.VerdictOfInsert | attestor/chainService/store/db.go:155-159 | a stored verdict is seen under its key and changes no other |
| Screening.VerdictOfRemove | attestor/chainService/store/db.go:161-167 | a taken verdict is gone and no other changes |
| Screening.Screen | attestor/chainService/relay/address_screener/screen.go:30-44 | a stored verdict is used and removed, otherwise the answer is true |
| Screening.ProcessPacket | attestor/chainService/relay/relays.go:196-256 | a packet goes to retry exactly after a failure, to completed after delivery or a duplicate, nowhere if missed; its verdict is kept exactly for a retry whose write succeeds; the namespace changes as the attempt's events do in a history |
| Screening.VerdictsAgreeIff | attestor/chainService/relay/relays.go:203-220 | over any schedule of attempts and saves, other packets included: all attempts have the first one's verdict, whatever the service would answer, exactly when each later attempt comes after a save that follows the attempt before it |
| Screening.AnyOrderAsWritten | attestor/chainService/relay/address_screener/screen.go:30-44 | with the constant answer of the code no order matters: every attempt passes the packet, exactly when no "0" was stored for it to begin with |
| Screening.StoredHolds | attestor/chainService/store/db.go:155-167 | the verdicts of a history are those its writes leave in the stored namespace |
| PruneSchedule.AleoPruner.Tick | attestor/chainService/chain/aleo/client.go:217-254 | tick t visits namespace t modulo their number, whatever the passes report |
| PruneSchedule.AleoTurn | attestor/chainService/chain/aleo/client.go:217-254 | the index, reset and incremented as the code does, visits namespace t modulo their number at tick t |
| PruneSchedule.AleoVisitsAll | attestor/chainService/chain/aleo/client.go:217-254 | any as many ticks in a row as there are destinations visit them all |
| PruneSchedule.EthereumPruner.Tick | attestor/chainService/chain/ethereum/client.go:352-393 | each tick visits the namespace the reports so far lead to |
| PruneSchedule.EthereumTurn | attestor/chainService/chain/ethereum/client.go:357-393 | the turn counts gap reports, not ticks |
| PruneSchedule.EthereumKeepsToOneIff | attestor/chainService/chain/ethereum/client.go:357-360 | over any stretch of ticks the pruner keeps to one destination exactly when that one reports no gap |
| PruneSchedule.EthereumKeepsToOneRun | attestor/chainService/chain/ethereum/client.go:352-360 | over real namespaces, that is while the first thousand keys of the visited one are one run |
| PruneSchedule.InOrderHoldsPruner | attestor/chainService/chain/ethereum/client.go:352-360 | a destination whose packets complete in order is the only one ever visited, for as long as they do |
| Text.SplitTwice | attestor/chainService/chain/aleo/utils.go:28-35 | splitting at commas and then each part at colons is one split at either |
| Text.Base0Prefixes | attestor/chainService/chain/aleo/utils.go:166-171 | a number in base 0 is hexadecimal, octal or binary after its prefix of either case, and decimal without one |
| Text.Base10Iff | attestor/chainService/chain/aleo/utils.go:120-124 | in base 10 exactly the nonempty strings of digits 0 to 9 are read |
| AleoTokens.Tokenize | attestor/chainService/chain/aleo/utils.go:28-35 | the loop returns all tokens in order |
| AleoTokens.TokensOfItem | attestor/chainService/chain/aleo/utils.go:112-115 | a clean word between blanks, braces, brackets, quotes and escaped newlines is one token |
| AleoTokens.TokensOfList | attestor/chainService/chain/aleo/utils.go:112-115 | a bracketed list of clean words is those tokens |
| AleoTokens.QuotesIgnored | attestor/chainService/chain/aleo/utils.go:112-115 | quotes around a text change none of its tokens |
| AleoPacket.KindsSpelled | attestor/chainService/chain/aleo/utils.go:50-98 | each of the twelve field names is recognised exactly from its literal spelling |
| AleoPacket.ScanTokens | attestor/chainService/chain/aleo/utils.go:49-105 | the loop over all tokens, and exactly which required fields it did not see |
| AleoPacket.ParseMessage | attestor/chainService/chain/aleo/utils.go:20-110 | the fields, the recovered panic, or the missing fields, as the scan of MessageOf finds them; the names it goes by are those of KindsSpelled, the places those of ScanLayout and ParseFailsIff |
| AleoPacket.ParseAleoEthAddr | attestor/chainService/chain/aleo/utils.go:222-242 | the last 20 listed bytes after the padding, or an error for a bad byte or a count of suffixes other than 32 |
| AleoPacket.AddressIsLowBits | attestor/chainService/chain/aleo/utils.go:240 | the address of a byte string of any length is its low 160 bits as a number |
| AleoErrors.ParseFailsIff | attestor/chainService/chain/aleo/utils.go:20-110 | for any tokens at all: the parser panics exactly when a field name stands too near the end of the tokens or of its window, and otherwise fails exactly on, and reports exactly, the missing required names |
| AleoErrors.WindowFailsIff | attestor/chainService/chain/aleo/utils.go:57-93 | a window panics exactly at a name with nothing after it in the window, or with fewer than 32 tokens after it in all |
| AleoErrors.LastNameWins | attestor/chainService/chain/aleo/utils.go:50-56 | version, sequence and height are the tokens after the last tokens that name them |
| AleoPrinter.ConstructEthAddress | attestor/chainService/chain/aleo/utils.go:203-218 | the loops and the final cut give 32 bracketed words, the first twelve zero |
| AleoPrinter.TokensOfPrinted | attestor/proxy/main.go:79-89 | a printed packet has exactly its 118 words as tokens, in order |
| AleoRoundTrip.ScanLayout | attestor/chainService/chain/aleo/utils.go:46-98 | the exact outcome of the scan of a printed packet, whatever its two text addresses spell |
| AleoRoundTrip.ReadAddress | attestor/chainService/chain/aleo/utils.go:222-242 | a 32-byte address read from its tokens is the Ethereum address it came from |
| AleoRoundTrip.ReadPrint | attestor/chainService/chain/aleo/utils.go:20-181 | reading the literal text the node prints for a packet gives the packet back exactly when neither text address is one of the harmful field names |
| AleoRoundTrip.ReadPacket | attestor/chainService/chain/aleo/client.go:82-104 | the client's reading of a text that is a packet's printed form, field names and layout literal, gives that packet with each field in its place, exactly when neither address is a harmful field name |
| AleoRoundTrip.ReadOutOfBounds | attestor/chainService/chain/aleo/utils.go:118-181 | a version, sequence or height of any size and sign is read and cut to the low 8 or 64 bits of its magnitude |
| AleoRoundTrip.ReadQuoted | attestor/chainService/chain/aleo/utils.go:112-115 | and so does reading it in quotes |
| AleoRoundTrip.ReadList | attestor/chainService/chain/aleo/utils.go:222-242 | any list of numbers with any spaces around: an address exactly if there are 32 and the last 20 are bytes, whatever the first twelve are |
| AleoRoundTrip.ReadAmountInBase | attestor/chainService/chain/aleo/utils.go:166-171 | an amount may come in hexadecimal, octal or binary |
| AleoRoundTrip.ReadPlus | attestor/chainService/chain/aleo/utils.go:118-178 | a leading plus sign is accepted |
| AleoRoundTrip.TwoSuffixesRefused | attestor/chainService/chain/aleo/utils.go:120-178 | a number with its suffix twice, or with no digit, is refused |
| EthereumHash.FillBytes | attestor/signingService/chain/ethereum/hash.go:36-43 | the 32-byte word of a number, and a failure exactly for numbers over 256 bits |
| EthereumHash.PutWord | attestor/signingService/chain/ethereum/hash.go:27-34 | a uint64 in the last eight bytes of a zero word is its 32-byte encoding |
| EthereumHash.Hash | attestor/signingService/chain/ethereum/hash.go:26-75 | the digest is that of byte 0x19, the codes of "Ethereum Signed Message:\n32" and the 32-byte hash of inPacketHash and the vote; a failure exactly for numbers over 256 bits |
| EthereumHash.PrefixCodes | attestor/signingService/chain/ethereum/hash.go:61 | the 28 bytes of the prefix are 0x19 and the codes of that text |
| EthereumHash.PreimageIsPacked | solidity/scripts/deploy/withdrawFunds.js:60-77 | the Go preimage is the packed encoding of the packet's values |
| EthereumHash.VoteIsPacked | solidity/scripts/deploy/withdrawFunds.js:40-43 | hash and vote byte are their packed encoding |
| EthereumHash.PreimagesDetermine | attestor/signingService/chain/ethereum/hash.go:45-57 | with destination chain ids of 128 bits and no zero byte in source addresses, as on the bridge, equal preimages mean equal packets, whatever the lengths of the texts |
| EthereumHash.EqualPreimages | attestor/signingService/chain/ethereum/hash.go:45-57 | for any ids of 256 bits, equal preimages mean equal packets exactly when the source addresses are equally long |
| EthereumHash.LengthsMatter | attestor/signingService/chain/ethereum/hash.go:45-57 | outside the 128 bits two different packets can share a preimage, so the bound is needed |
| ChainId.DecodedAtFirstColon | aleo/utils/chainId.ts:27-44 | the decoder cuts at the first ':' of the name or at the separator |
| ChainId.DecodeEncode | aleo/utils/chainId.ts:9-44 | decoding gives back the number and the name followed by ':' exactly when the name holds no ':' |
| ChainId.EncodeInjective | aleo/utils/chainId.ts:9-25 | distinct names without ':' or distinct numbers never share an encoded id |
| ChainId.EncodedNumber | aleo/utils/chainId.ts:16-23 | the encoded id is the name's codes in base 256, the code of ':', then the number's hexadecimal digits |
| ChainId.AleoId | attestor/proxy/main.go:84 | the id of the Aleo network in the attestor's files is that of "aleo" and 3 |
| ChainId.DecodeFailsIff | aleo/utils/chainId.ts:30-39 | decoding fails exactly on a one-digit number and where the first separator is the end |
| ChainId.DecodeWithoutSeparator | aleo/utils/chainId.ts:30-39 | without a separator the name is empty and the number is the chain's |

## Left out

- StepKeeps, NothingLost: one destination at a time; the other destinations of an Ethereum client enter a restart only
  through the least resume height, which is arbitrary.
- NothingLost: does not promise that a packet beside the last record's block is fetched if no later packet of its
  destination ever completes, because the code does not fetch it then.
- LosableIffUnsecured: on Ethereum it is about runs in which no other destination makes the client resume lower than
  this one does, since a lower resume height scans everything above it again; about packets after block 0, because the
  store reads a height of zero as none; and about block heights that fit uint64.
- ReadPrint: takes text addresses free of blanks, braces, brackets, quotes, commas, colons and backslashes, which is
  all the source prints; Ethereum addresses are their 20 bytes, so the letter case of their text is not modelled.
- Base0: rejects the underscores that base-0 numbers may contain; no printed number has one.
- DecodeEncode: names are of characters with two-digit codes; the check that a JavaScript number is exact is not
  modelled, numbers being unbounded.
- EthereumHash: the recovery of Go panics and the hexadecimal text of the digest; PacketLibrary.sol is not modelled.
- EverythingDrains, Round: are about a pipeline that goes on or crashes; context cancellation, shutdown and closed
  channels are not modelled.
- AccountedCanBeHeld: says that such a run exists, not that a scheduler takes it; on Ethereum it is about chains whose
  heights fit uint64.
- ProcessPacket: the hand-over to a full channel, modelled in WorkerPool, is one assignment there.
- Tickers, sleeps, metrics, logging, HTTP, TLS, configuration files and key handling; the number of workers is any
  number, and the default of 10 replaces 0.
- bbolt's pages and files, the creation of buckets, and the look-ups of a first key and of a key's presence.
- consumeMissedPackets and the collector's queue of missed packets: a FeedMissed step may come at any time.
- constructAleoPacket and the screening-packet text of the signing service: printers the chain service does not read.
- The Aleo programs, the Solidity contracts and their scripts, except inPacketHash.
