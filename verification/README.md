# A verified model of the calendar server and its operator tools

The server aggregates digests into commitments, journals them, anchors them in Bitcoin and bills its operator for what
it anchored; beside it stand a claim verifier, a self-stamping manifest log with a witness's inbox, and a watcher that
alerts. This project models the state each of these keeps, every write it makes and every way a step can fail or stop,
and proves what holds over all runs. `dafny verify dfyconfig.toml` checks all of it.

## What is modelled

**The stamper.** `KnownBlocks` is the remembered chain: discovery rolls back to the fork and returns the new blocks, all
or nothing. `Journal` is the journal and the record counts beside it, byte for byte. `ReceiptFile` and `Receipts` are
the receipts file, its markers and the anchors saved, as they survive stops and power losses. `Stamping` is the life of
a commitment: a function for each step, taking what the environment does during it (the node's chain, the bodies it can
give, which reads fail, where each save raises or stops). `StampingSafety` proves the invariant of every step and over
every run; `StampingProgress` proves what the steps achieve when nothing fails, and `StampingLiveness` that runs of them
store what was scanned; `StorageStart` says which files a start refuses. `StampingAccounts` and `Billing` prove that
each entry is in one place and that receipts never charge more than was journalled, `StampingFull` that they charge all
of it when counts are read whole, and `StampingReceipts` that each says what its saved tree does. `Aggregator` is where the journal's entries come from, and `Charges` bounds what is
charged by what was submitted. `StamperLoop` is the code's own loops over the fields they update, each proved to be the
step of `Stamping`, together a whole pass. `FeeSearch` prices the anchor transaction, `BlockMerkle` ties it to its
block, `TimestampStore` is the database of timestamps, and `StoreProbe` says when its answers are the ones the stamper's
model remembers.

**The proofs.** `OtsFormat` holds the serialization both readers share. `ProofParser` proves the claim verifier's loop
to be a recursive grammar, and that grammar to accept exactly the printed forms of well-formed proof trees.
`ProofBytes` says what the bytes do. `LinearReader` is the self-stamp's reader: where it agrees with the first, and what building and upgrading a proof do.
`CompactTarget` is Bitcoin's target arithmetic and retarget; `HeaderChain` is the chain check, what a checkpoint pins,
and the verdict.

**The operator's tools.** `ManifestChain` is the hash-chained manifest log, its writer and its verifier. `Inbox` is what
a witness's inbox keeps under every file operation and every act of its deliverers; `InboxPass` is the pass over it, in
which each operation can fail and deliverers act before each. `Outbox` is the watcher's record and outbox.

`Wrappers` and `Octets` hold the option, result and byte types; `Faults` is how a file operation can go.

## What the results rest on

- sha256 is any function with results of 32 bytes; where it must not collide, the result is "equal, or here are two
  inputs with one hash".
- One discovery sees one chain; between discoveries the chain may change in any way that does not reach below the first
  remembered block (`Shallow`). Below it otsserver/stamper.py:161 restarts at the tip, and `SavesOnChainIff` shows that
  the safety of what is saved ends exactly there.
- A calendar save that raises has not landed. A power loss keeps what was synced; a marker's removal, or a tail cut
  off the receipts file, may come back.
- Anchor receipts are on. A transaction newly broadcast has an id no earlier one had.
- "Exactly one place" and the billing bound need distinct journal entries; nothing else does.
- `minConfirmations` is above one, as the code asserts. Rates and fees in floating point are real numbers; the relay
  feerate may be any of them. An output has one value.
- Witnessed copies hold what their names were made for, as every pass leaves them (`WellNamed`).
- Timestamp trees do not hold a message among its own descendants.
- Random names and names cut from hashes do not collide.
- The watcher has a push service to deliver to.

## Where the code and its documentation part

- otsd:49-51 takes any minimum relay feerate. At one of zero or less the search of otsserver/stamper.py:1125-1200 need not
  end: it never does exactly when the first two attempts are under the cap with change left and the node refuses every
  attempt (`EndlessIff`; `EndlessAtZero` for a rate of zero).
- ops/selfstamp.py:1115-1148 says that a proof that awaits its copy is set aside when the manifest of its name was. It
  tests for a suffix, so the rejection of a-X.json sets aside X.json.ots as well (`GoesForItsOwnIff` gives the exact
  condition, `SetAsideForAnother` an instance).
- otsserver/calendar.py:800-802 says that insertion order is expiry order, so that purging from the front is enough. It is
  while the clock does not step back (`AttachesIff`); `PurgedIff` gives the exact condition for any clock, and
  `AttachedTooLate` an instance.
- otsserver/stamper.py:549-557 calls its size the exact BIP 141 virtual size. The division is not rounded, so it is up to
  three quarters of a byte more (`SizeAgainstBip141`).
- ops/verify_claim.py:334-340 says a checkpoint below the attested block authenticates nothing about it. The reach is the
  larger of zero and the checkpoint's height (lines 424-430), so in a file said to start below height zero a checkpoint
  below zero ties block 0 (`HeldAtOrBelow` gives the exact condition: the checkpoint's height is not negative;
  `HeldAboveCheckpoint` is such a file).
- otsserver/calendar.py:414-419 says equality with a stored node means that all its operations are verify operations. It
  means that its children are empty; nothing is lost, but by closure (`NothingToAdd`).
- ops/watch.py:1078-1080 says every message in the record is queued once whatever happens next. If the outbox write
  fails and every message is then delivered from the record, the record is let go and an old outbox file with messages
  in it is the queue again (`Watcher.Run`: exactly then).
- otsserver/calendar.py:59-68 strips a null authentication code on reading, so a full-size commitment that really ends in
  eight zeros reads back shorter (`ReadsBackIff`).

## Model

| member | source | states |
|---|---|---|
| KnownBlocks.RollBack | otsserver/stamper.py:124-138 | What a reorg check keeps is the longest prefix of the remembered blocks that is empty or ends on the chain; every block popped is off it. |
| KnownBlocks.DiscoveredIsOnChain | otsserver/stamper.py:140-174 | After a discovery every remembered block is the node's block at its height, and the newest is the node's tip. |
| KnownBlocks.KnownBlocks.DetectReorgs | otsserver/stamper.py:124-138 | The popping loop leaves exactly the rolled-back list, and raises only when a read did. |
| KnownBlocks.KnownBlocks.UpdateFromProxy | otsserver/stamper.py:140-174 | One discovery ends for every chain, is all or nothing, returns exactly the node's blocks above the fork point, and succeeds whenever the node answers often enough. |
| Journal.EntriesOnlyGrow | otsserver/calendar.py:49-72 | Whatever is appended, entries already readable stay as they are. |
| Journal.AppendAddsOne | otsserver/calendar.py:95-115 | A whole append adds exactly one entry. |
| Journal.TornAddsNone | otsserver/calendar.py:95-115 | A torn append adds none. |
| Journal.ReadsBackIff | otsserver/calendar.py:59-68 | An entry reads back as submitted except a full-size commitment whose authentication code is all zeros; those, and only those, come back shorter. |
| Journal.GetNeverOvercounts | otsserver/calendar.py:233-271 | Over an honest sidecar a count read is at most the true number of leaves, known zeros and torn cells included. |
| Journal.PutKeepsHonest | otsserver/calendar.py:280-288 | A count write torn at any byte keeps the sidecar honest. |
| Journal.EntryKeepsHonest | otsserver/calendar.py:95-115 | A new entry keeps the sidecar honest, and its cell still reads as unknown. |
| Journal.GetAfterWholePut | otsserver/calendar.py:201-288 | A count written whole reads back as itself, a known zero as zero, exactly when it is below 2^31; a larger one reads back as zero. |
| Journal.CountsAcceptedIff | otsserver/calendar.py:541-560 | The count check passes exactly when every byte of the sidecar belongs to the count of an entry the journal holds whole. |
| Journal.JournalWriter.constructor | otsserver/calendar.py:74-93 | Opening after any stop pads a partial entry, changes no entry before it, and leaves a sidecar the storage check accepts. |
| Journal.JournalWriter.Submit | otsserver/calendar.py:95-125 | Entry first, then its count: a stop anywhere leaves both or the entry alone or neither, and never an invented count. |
| StampingSafety.SubmitIsTwoEvents | otsserver/calendar.py:95-125 | What a submission leaves of the journal's two files, its count cut anywhere, is what the run's two events leave of the ledger. |
| ReceiptFile.RecoverTail | otsserver/stamper.py:336-364 | The backward scan in chunks of 4096 bytes finds the end of the last complete line of any file. |
| ReceiptFile.RecoveredIsComplete | otsserver/stamper.py:336-364 | Dropping the tail touches no complete line. |
| ReceiptFile.AppendedLines | otsserver/stamper.py:388-409 | An append after recovery adds exactly its line, and adds nothing when it was cut short. |
| ReceiptFile.ReceiptOnFile | otsserver/stamper.py:292-309 | A receipt is on file exactly when some complete line names its anchor. |
| Receipts.SettleKeepsCoherent | otsserver/stamper.py:606-648 | Settling one marker, failing anywhere, keeps the disk coherent; the state of a receipt ahead of the database is never reached; a marker goes only when settled. |
| Receipts.SettleAllKeepsCoherent | otsserver/stamper.py:571-604 | So does settling every marker, each on its own. |
| Receipts.SaveKeepsCoherent | otsserver/stamper.py:709-779 | A save cut or raising anywhere keeps the disk coherent; it reports success only if it landed and is kept for retry only if it did not. |
| Receipts.PowerLossKeepsCoherent | otsserver/stamper.py:388-409 | Losing any unsynced part of the receipts file, or having a truncated tail come back, with markers removed but not yet durable coming back, keeps the disk coherent. |
| Receipts.RunsKeepCoherent | otsserver/stamper.py:571-648 | So does any run of starts, saves and power losses: ids on file stay distinct, every line names a saved anchor, every saved anchor has its line or its marker. |
| Receipts.CleanSettleClears | otsserver/stamper.py:571-648 | A settle in which nothing fails removes every marker. |
| Receipts.ExactlyOnce | otsserver/stamper.py:709-779 | After any such run one fault-free settle leaves the lines on file exactly the saved anchors, each once. |
| Receipts.ReceiptBook.AppendAnchorReceipt | otsserver/stamper.py:336-409 | The append as file operations does what the specification of an append says, whether it fails before any effect, past the truncation but not its sync, or at any byte of the line. |
| Receipts.ReceiptBook.SettleMarker | otsserver/stamper.py:606-648 | The code path of one marker is the specified settle, for every fault. |
| Receipts.ReceiptBook.SettlePendingReceipt | otsserver/stamper.py:571-604 | The loop over markers is the specified settle of all of them. |
| Receipts.ReceiptBook.SaveConfirmed | otsserver/stamper.py:709-779 | Marker, batch, line, unlink: the code path is the specified save, for every fault, and leaves the disk coherent. |
| Stamping.Lowest | otsserver/stamper.py:781-789 | The lowest index of a set below the cursor, or the cursor; which set a save asks about, and that it leaves out the tree saved, is in WatermarkIsTrue. |
| Stamping.Due | otsserver/stamper.py:828-831 | The due trees are exactly those at heights deep enough, lowest first. |
| StampingSafety.StorageAccepted | otsserver/calendar.py:541-649 | After any stop of its own the storage check accepts, and a scan from the index it gives skips only stored entries; which stores it refuses is in StartsIff. |
| StorageStart.StartsIff | otsserver/calendar.py:541-652 | For any files at all, the check accepts exactly when the sidecar fits the journal and the checkpoint, if there is one, names this database, is not above its watermark, and finds its entry and the first stored. |
| StorageStart.RefusalMeans | otsserver/calendar.py:603-652 | What each refusal says of the files, for any files. |
| StorageStart.BeginsIff | otsserver/calendar.py:603-652 | A refused start changes nothing and nothing runs; an accepted one scans from the checkpoint with memory empty, and gives a database without a generation the new one and a watermark of 0. |
| StorageStart.OtherLineageRefused | otsserver/calendar.py:639-644 | A database of another lineage, or of none, beside a kept checkpoint is refused, whatever it holds. |
| StorageStart.MixedCopiesSafe | otsserver/calendar.py:603-652 | Journal and counts of one moment of a run, the database of another and any checkpoint whatever: the next start refuses, or everything below where its scan begins is stored. |
| StampingSafety.BeginKeeps | otsserver/stamper.py:1231-1269 | A start keeps the invariant and the watermark. |
| StampingSafety.FillKeeps | otsserver/stamper.py:1284-1326 | A fill keeps the invariant, whichever reads fail. |
| StampingSafety.ObserveKeeps | otsserver/stamper.py:917-945 | Queueing one discovery keeps every waiting tree on the known chain or its block owed. |
| StampingSafety.AddAllInOrder | otsserver/stamper.py:949-960 | A reorged tree's commitments go to the end of pending in their own order, less what is pending already. |
| StampingSafety.AssertionNeverFails | otsserver/stamper.py:988-1004 | After any run from a fresh calendar, no pass finds a tip other than the one its mined version was built over: the assertion on the tip never fails. |
| StampingSafety.ProcessBlocksKeeps | otsserver/stamper.py:946-1030 | Reading the owed blocks keeps the invariant, never fails the assertion, and ends only with nothing owed or a body that could not be read. |
| StampingSafety.WatermarkIsTrue | otsserver/stamper.py:781-789 | A save's watermark does not go back, every entry below it is stored or in the tree being saved, and it is as far as it can be: below the cursor it stands at an entry still held that is not in that tree. |
| StampingSafety.SaveTreeKeeps | otsserver/stamper.py:833-856 | Saving one tree, failing anywhere, keeps the invariant and releases the tree only when its save returned. |
| StampingSafety.SaveTreesKeeps | otsserver/stamper.py:813-856 | Saving the mature trees keeps the invariant, and every tree saved was mined in the block the known chain holds, deep enough. |
| StampingSafety.SendKeeps | otsserver/stamper.py:1036-1220 | Closing a tree over pending, sending, refusing or abandoning it keeps the invariant. |
| StampingSafety.PassKeeps | otsserver/stamper.py:909-1220 | A whole pass keeps the invariant whatever fails in it; nothing is saved while a block is owed. |
| StampingSafety.SavedIsOnNodesChain | otsserver/stamper.py:813-833 | Every tree a pass saves is in the node's own chain at its height with enough blocks above it. |
| StampingProgress.ForgottenIsSaved | otsserver/stamper.py:161 | The failure below the first remembered block: a pass that fails nowhere stores a waiting tree whose block the node does not hold at its height. |
| StampingProgress.SavesOnChainIff | otsserver/stamper.py:140-174 | With such a tree waiting, everything a pass saves is in the node's own chain if and only if the node's chain still holds a remembered block. |
| StampingProgress.ForgottenHappens | otsserver/stamper.py:140-174 | A state for the failing side: two blocks remembered, a tree in the second, and a chain that holds neither; the tree is saved off the chain. |
| StampingSafety.RunKeeps | otsserver/stamper.py:1271-1358 | Any run of accepts, count writes, starts, fills, passes, stops, power losses and dropped checkpoints keeps the invariant, and the watermark never decreases. |
| StampingSafety.NothingLost | otsserver/stamper.py:909-1030 | After any run every journal entry below the cursor is stored, pending or in a waiting tree; everything below the watermark is stored; a restart is accepted; every receipt on file is of a saved tree. |
| StampingAccounts.ExactlyOnePlace | otsserver/stamper.py:946-1030 | With distinct entries, each entry below the cursor is in exactly one place: the database, pending once, or one waiting tree once. |
| StampingAccounts.ScannedInOnePlaceIff | otsserver/stamper.py:1298-1326 | Of an entry journalled twice: scanning it leaves it in one place exactly when it is stored or no waiting tree holds it already. |
| StampingAccounts.CountTreeLow | otsserver/stamper.py:875-907 | A tree's count at close is at most the leaves of its entries, through holes, torn counts and late reads. |
| StampingFull.CountTreeFullIff | otsserver/stamper.py:875-907 | It is all of them exactly when the count read for each commitment is all of its own. |
| StampingFull.CountTreeFull | otsserver/stamper.py:875-907 | With distinct entries and counts written whole and readable, a tree charges every leaf journalled under it. |
| StampingAccounts.NeverOvercharges | otsserver/stamper.py:875-907 | With distinct entries, records on all receipts on file and still owed are together at most the leaves ever journalled, over any run. |
| StampingFull.ChargesAll | otsserver/stamper.py:875-907 | With distinct entries and every tree closed over counts written whole and readable, over any run with any failing saves, reorgs, bumps and restarts: on file and owed, together, are exactly the leaves journalled under what was stored. |
| Billing.FileAndOwedAreSaved | otsserver/stamper.py:709-779 | What is on file and what is still owed, together, charge each saved anchor exactly once. |
| Billing.SaveFaithful | otsserver/stamper.py:709-779 | A save keeps every line and marker saying what its anchor's saved tree says and charging what its transaction closed over, the new anchor's among them once it is saved. |
| StampingReceipts.ReceiptsTell | otsserver/stamper.py:734-739 | After any run every receipt on file is of a saved tree and gives that tree's txid, fee, number of commitments, block height and records, as does every marker of one; the fee is what a pass sent that transaction at, and a pass found it in the tree's block. |
| StampingProgress.FullFillReads | otsserver/stamper.py:1284-1326 | With reads enough, a fill stops only at the journal's end or at the most that may be pending. |
| StampingProgress.FillWithinCap | otsserver/stamper.py:1284-1326 | No fill leaves more pending than may be, and it only adds at the end. |
| StampingProgress.AllBodiesRead | otsserver/stamper.py:946-1030 | When every owed body can be read, none is owed after the pass. |
| StampingProgress.MinedWaits | otsserver/stamper.py:980-1026 | When a block holds the newest version, exactly the commitments it was built over leave pending for a tree at that height. |
| StampingProgress.CleanSaveLands | otsserver/stamper.py:833-856 | A save in which nothing fails stores the tree, its watermark and checkpoint, leaves without its marker a receipt on file with the tree's txid, fee, number of commitments, height and records and the save's time, and lets the tree go. |
| StampingProgress.CleanSweepReachesCursor | otsserver/stamper.py:813-856 | When a sweep that meets no failure saves everything outstanding, the watermark and the checkpoint are where the scan is. |
| StampingProgress.CleanSweepSavesAll | otsserver/stamper.py:813-856 | A sweep in which nothing fails leaves no tree deep enough waiting: each is saved by its anchor and its commitments are in the database. |
| StampingLiveness.PassRides | otsserver/stamper.py:909-1220 | A pass that fails nowhere, over a chain that only grew, takes an entry on: pending under every version, then in a tree, then stored once the tree is deep enough; it leaves no tree waiting that is. |
| StampingLiveness.PassReachesTip | otsserver/stamper.py:909-1030 | Any pass that fails nowhere leaves nothing owed and the remembered blocks the node's, up to its tip. |
| StampingLiveness.AbandonedClears | otsserver/stamper.py:1135-1151 | A send given up leaves nothing in flight, every commitment where it was, and no transaction more. |
| StampingLiveness.NoBumpWithoutBlock | otsserver/stamper.py:1036-1063 | With a transaction in flight, nothing owed and no new block, a pass sends nothing, whatever fails in it. |
| StampingLiveness.FreshCycleSends | otsserver/stamper.py:1036-1063 | With nothing in flight, as after that, and something pending, a pass that fails nowhere and may send does, new block or not: one version at its fee over everything pending. |
| StampingLiveness.StoredAtLast | otsserver/stamper.py:1271-1358 | From any reachable state with nothing owed: once a transaction over an entry is sent, any run of passes that fail nowhere over a growing chain that has it in a block deep enough stores the entry, whatever is accepted, filled and bumped meanwhile. |
| StamperLoop.Stamper.FillPending | otsserver/stamper.py:1284-1326 | The fill loop does exactly the specified fill; what that remembers of the counts is in CountTreeFull and ChargesAll. |
| StamperLoop.Stamper.AddBack | otsserver/stamper.py:949-960 | A reorged tree's commitments go back in order, those already pending left where they are. |
| StamperLoop.Stamper.FindMined | otsserver/stamper.py:980-993 | The search from the newest version back finds the newest one in the block. |
| StamperLoop.Stamper.ReadBlocks | otsserver/stamper.py:946-1030 | The loop over owed blocks does exactly the specified processing. |
| StamperLoop.Stamper.SaveDueTree | otsserver/stamper.py:833-856 | One tree's save and release are exactly the specified ones, for every fault and stop; what the receipt then says is in ReceiptsTell and CleanSaveLands. |
| StamperLoop.Stamper.SaveMatureTrees | otsserver/stamper.py:813-856 | The loop over due trees tries each once and does exactly the specified saves. |
| StamperLoop.Stamper.CountTreeRecords | otsserver/stamper.py:875-907 | The counting loop sums and remembers exactly the specified counts. |
| StamperLoop.Stamper.SendAnchor | otsserver/stamper.py:1036-1220 | The end of a pass does exactly the specified send. |
| StamperLoop.Stamper.DoBitcoinPass | otsserver/stamper.py:909-1220 | The whole pass, from a discovery that may raise to the send, is exactly the specified pass. |
| OtsFormat.ReadVaruintLoop | ops/verify_claim.py:129-143 | The varuint loop reads what the recursive definition reads, error for error; each byte's bits are above those before. |
| OtsFormat.VaruintIff | ops/verify_claim.py:129-143 | Exactly the base-128 numbers of one to ten bytes are read, each with its value and to its last byte. |
| OtsFormat.WriteVaruint | ops/selfstamp.py:202-211 | The writer writes the canonical bytes. |
| OtsFormat.VaruintRoundTrip | ops/selfstamp.py:202-228 | What is written reads back, in at most k bytes for a number of k seven-bit groups. |
| OtsFormat.PayloadIff | ops/verify_claim.py:157-181 | A payload is accepted exactly when it is what its tag, spelled in its eight bytes, allows, consumed to its last byte, with the kind it says. |
| OtsFormat.AttestationComplete | ops/verify_claim.py:157-181 | Every attestation within the limits is read as what it says. |
| ProofParser.WalkStamp | ops/verify_claim.py:207-247 | The loop with its stack of open forks is the recursive grammar, error for error, with the same attestations, messages and paths. |
| ProofParser.ParseProofLoop | ops/verify_claim.py:184-250 | The whole parser is the grammar after the header, refusing what follows it; the bytes of that grammar are in Language and ProofBytes. |
| ProofParser.ParseInvertsPrint | ops/verify_claim.py:184-250 | Every well-formed proof tree, printed, is accepted and means what the tree means. |
| ProofParser.AcceptedIsPrinted | ops/verify_claim.py:184-250 | Whatever is accepted is the print of a well-formed tree. |
| ProofParser.Language | ops/verify_claim.py:184-250 | The accepted inputs are exactly the printed trees, with their meanings; the printer spells version, tags, markers and limits in literal bytes and numbers of its own, and OneOperation the magic. |
| ProofParser.PrefixFree | ops/tests/proof_corpus.py:181-193 | No accepted input is a strict prefix or an extension of another. |
| ProofParser.TwoBytesForVersionOne | ops/verify_claim.py:129-143 | Printing does not invert parsing: a two-byte version one is read like the one-byte version. |
| ProofParser.AttestationsReplay | ops/verify_claim.py:184-250 | An accepted proof has an attestation, and each is about the message its path replays to from the digest, within the limits. |
| ProofBytes.OpOnBytes | ops/verify_claim.py:215-246 | For every tag, operand and message: 0x08 hashes, 0xf0 with a length and that many bytes puts them after the message, 0xf1 before it, and nothing else is an operation. |
| ProofBytes.OneOperation | ops/verify_claim.py:184-250 | A proof of one operation under a Bitcoin attestation, byte for byte, for any digest, operand and height, is read by both readers as that message at that height. |
| LinearReader.ParseOtsLoop | ops/selfstamp.py:269-321 | The self-stamp's loop is the recursive linear reader, error for error; what that reads is in ReadersAgree, Language and OneOperation. |
| LinearReader.ReadersAgree | ops/selfstamp.py:269-321 | The linear reader succeeds exactly when the verifier parses the proof with one attestation, with the same digest, message and attestation. |
| LinearReader.BuildsExactly | ops/selfstamp.py:324-332 | A proof is built exactly from a 32-byte digest and an answer that is a linear timestamp of it, and then parses to that answer's attestation. |
| LinearReader.SpliceReplays | ops/selfstamp.py:335-349 | An upgrade succeeds exactly when the old attestation is pending and the answer, read on its own from the old commitment, is one Bitcoin attestation; the new proof is the old digest with the answer's attestation. |
| LinearReader.UpgradeKeepsPath | ops/selfstamp.py:335-349 | The upgraded path begins with the old one and replays from the same digest. |
| CompactTarget.OverflowIff | ops/verify_claim.py:287-290 | The three-way overflow test holds exactly when the decoded target is at least 2^256. |
| CompactTarget.PassesIff | ops/verify_claim.py:280-296 | Bits pass exactly when they are not negative and stand for a number above zero and at most the limit. |
| CompactTarget.SizeIs | ops/verify_claim.py:299-309 | The size computed from the bit length is the number of bytes: no fewer hold the target. |
| CompactTarget.EncodingError | ops/verify_claim.py:299-309 | Decoding what was encoded never exceeds the target and loses less than one part in 2^15. |
| CompactTarget.CanonicalIff | ops/verify_claim.py:270-309 | Encoding undoes decoding exactly on the canonical forms. |
| CompactTarget.EncodedPasses | ops/verify_claim.py:280-309 | Every target from one to the limit, encoded, passes the target rules as its own truncation. |
| CompactTarget.WantedIs | ops/verify_claim.py:312-319 | The adjusted target is the limit, or the greatest number whose two weeks are within the old target's time, held between three and a half days and eight weeks. |
| CompactTarget.NextBitsValid | ops/verify_claim.py:312-319 | After a valid target the adjustment passes the target rules exactly when target times clamped time reaches one timespan, always so from four up, and stays within a factor of four up to its truncation. |
| CompactTarget.TargetTooSmall | ops/verify_claim.py:312-319 | The condition is needed: a valid target of one met in the shortest time retargets to zero. |
| HeaderChain.CheckHeader | ops/verify_claim.py:379-417 | One header's tests find nothing exactly when it links, meets its target and keeps the difficulty rule. |
| HeaderChain.SoundByHeight | ops/verify_claim.py:366-422 | A file is sound exactly when it is headers of 80 bytes, at least one, each of which, by its height, links to the one below or is genesis, meets its target, and has the bits below it or, at a multiple of 2016 whose period the file holds, those of the adjustment over that period. |
| HeaderChain.WalkHeaders | ops/verify_claim.py:366-422 | The walk stops at the first bad header and reports the headers found, the retargets recomputed and those it could not recompute. |
| HeaderChain.RetargetsAre | ops/verify_claim.py:400-417 | The retargets reported are exactly the multiples of 2016 above the start, by whether the file holds the period before, lowest first. |
| HeaderChain.VerifyChain | ops/verify_claim.py:326-432 | A file is accepted exactly when it is a whole number of sound headers holding the checkpoint; what it authenticates is the tie's reach. |
| HeaderChain.Pinned | ops/verify_claim.py:326-432 | Two accepted files under one checkpoint agree byte for byte at every shared height at or below it, or here are two inputs sha256d does not tell apart. |
| HeaderChain.Judge | ops/verify_claim.py:545-655 | Each verdict exactly: FAILS when a check does, HOLDS when the tie reaches the attested block, INCOMPLETE otherwise. |
| HeaderChain.HeldAtOrBelow | ops/verify_claim.py:423-432 | A verdict that holds is about a block at or below the checkpoint exactly when the checkpoint height is not negative. |
| HeaderChain.HeldAboveCheckpoint | ops/verify_claim.py:423-432 | The failing side exists: a file said to start at -1, whose checkpoint is its first header, has a verdict that holds for block 0. |
| HeaderChain.HeldOnOneRoot | ops/verify_claim.py:583-639 | Two verdicts that hold under one checkpoint at one height rest on the same merkle root, or sha256d collides. |
| HeaderChain.HeldByGenesis | ops/verify_claim.py:379-386 | Without a checkpoint only the network's own genesis block is ever tied. |
| BlockMerkle.PairLevel | otsserver/stamper.py:61-65 | A level of even length becomes the hashes of its neighbours. |
| BlockMerkle.MakeMerkleTree | otsserver/stamper.py:51-67 | For every nonempty list the root is Bitcoin's recursive one, and the operations recorded from every position replay to it. |
| BlockMerkle.NextLevel | otsserver/stamper.py:55-65 | Doubling an odd level's last hash and pairing gives Bitcoin's next level. |
| BlockMerkle.MakeBlockTimestamp | otsserver/stamper.py:70-108 | From a digest inside a transaction of the block, operations that replay to the block's merkle root. |
| FeeSearch.Update | otsserver/stamper.py:540-569 | The fee rises by the rate times the size out of the change, which stays above 330 satoshis or is dropped. |
| FeeSearch.RateGrows | otsserver/stamper.py:1114-1194 | The first attempt is at its own rate, and each after it at the relay rate times five quarters to the power of its number. |
| FeeSearch.SizeAgainstBip141 | otsserver/stamper.py:549-557 | The size used, from three times the stripped size and the total, is the BIP 141 virtual size or up to three quarters more, equal for one weight in four. |
| FeeSearch.AttemptBounded | otsserver/stamper.py:1125-1200 | While change is left the number of the attempt is below a bound fixed by the change and the relay rate. |
| FeeSearch.FeeNeverFalls | otsserver/stamper.py:540-569 | A rate that is not negative never lowers the fee. |
| FeeSearch.RefusedCannotRise | otsserver/stamper.py:1165-1196 | The attempt remembered as refused is never one whose fee can still rise, because it spent the whole of its output. |
| FeeSearch.EndlessIff | otsserver/stamper.py:1125-1200 | The search goes on for ever if and only if the relay rate is not above zero, the first two attempts are under the cap with change left, and the node refuses every attempt. |
| FeeSearch.EndlessAtZero | otsserver/stamper.py:1125-1200 | At a relay rate of zero that guard is: the present change above dust and the present fee under the cap, and both so after the first attempt. |
| FeeSearch.Sender.Send | otsserver/stamper.py:1063-1201 | At any relay rate the search ends unless it is that endless one; what it sends is the first accepted attempt, within the cap, inputs equal to outputs and fee, and no attempt remembered as refused is handed to the node. |
| TimestampStore.NothingToAdd | otsserver/calendar.py:414-419 | The early return on equality loses nothing, because stored operations lead to stored messages. |
| TimestampStore.Store.AddTimestamp | otsserver/calendar.py:402-431 | Merging one tree leaves exactly what was said before and what the tree says, closed, through the cache of the batch. |
| TimestampStore.Store.AddTimestamps | otsserver/calendar.py:433-457 | The store becomes the union with every tree, every tree is stored whole, it stays closed, and the watermark lands with it; a message is present exactly if it was or a tree passes through it. |
| TimestampStore.PresentInTree | otsserver/stamper.py:226-234 | The messages a tree puts into the store are exactly those it passes through, which is what the probe for an anchor's own node asks. |
| TimestampStore.HeldIsStored | otsserver/calendar.py:393-400 | A store that says all a tree says gives it back whole. |
| TimestampStore.SaidIsStored | otsserver/calendar.py:378-391 | What a store says determines it. |
| StoreProbe.LandedAgreesIff | otsserver/calendar.py:706-718 | After a save the database answers for commitments as the model does exactly when no other entry asked about, not stored yet, is a message on one of the trees. |
| StoreProbe.ProbeAgreesIff | otsserver/stamper.py:226-234 | And for anchors exactly when no tree passes through another anchor's transaction. |
| Aggregator.AttachesIff | otsserver/calendar.py:830-860 | While the clock has not stepped back, a message is attached to the leaf of its last submission exactly when that was less than the horizon ago with fewer other messages since than the horizon holds. |
| Aggregator.SubmitRemembers | otsserver/calendar.py:830-860 | Every submission, hit or miss, purge and cap, keeps the horizon remembering exactly that. |
| Aggregator.PurgedIff | otsserver/calendar.py:798-839 | Whatever the clock does, purging from the front refuses an expired message its old leaf exactly when nothing before it is unexpired. |
| Aggregator.AttachedTooLate | otsserver/calendar.py:798-839 | So after the clock steps back a message can be attached after its horizon has passed. |
| Aggregator.CountedOnce | otsserver/calendar.py:734-775 | Every counted leaf made is in the records of one round or queued; after a round that raised, in one at most. |
| Aggregator.Aggregator.Submitted | otsserver/calendar.py:812-860 | A submission is one new leaf or attached to the right one, queued in order, never counted again. |
| Aggregator.Aggregator.RunRound | otsserver/calendar.py:734-785 | A round takes the whole queue under one entry with the number of its counted leaves, or raises and stops the loop. |
| Charges.ChargesOnlyCounted | otsserver/calendar.py:734-761 | With distinct entries, receipts charge no more over any run than the counted submissions that made leaves, in all processes together. |
| ManifestChain.VerifyChain | ops/selfstamp.py:1647-1751 | As far as links, numbers, periods, labels and the commissioning block go, the verifier says yes exactly when there are manifests and each is valid and what its predecessors demand. |
| ManifestChain.RunKeepsChain | ops/selfstamp.py:846-883 | A run that writes turns a chain that verifies into a longer one that verifies, the new file last; read back, that file holds what this run observed, for this period, under the chain's label or the one drawn. |
| ManifestChain.RunWritesIff | ops/selfstamp.py:1439-1464 | After a chain that verifies, a run writes exactly when it is the first or its period is after the newest manifest's. |
| ManifestChain.RunWritesOver | ops/selfstamp.py:1432-1464 | Over any listing, verifying or not: nothing to do exactly when the period has its file; else a manifest exactly when there is none yet, or the newest is valid, of an earlier period, and labelled or no manifest ever was: a label is drawn once; and every file stays. |
| ManifestChain.RunMendsNothing | ops/selfstamp.py:1418-1472 | What a run leaves verifies only if what it continued did. |
| ManifestChain.LabelCarried | ops/selfstamp.py:753-768 | The label is drawn once: a new manifest carries the one any earlier manifest has. |
| ManifestChain.RunsKeepChain | ops/selfstamp.py:1405-1472 | Whatever runs, refusals and stops: a chain that verifies stays one and grows at its end by one file for each landed turn of a later period, each holding what its turn observed. |
| ManifestChain.Pinned | ops/selfstamp.py:1695-1708 | Two chains that verify and share a manifest are identical up to it, or sha256 collides. |
| ManifestChain.SameNewestSameChain | ops/selfstamp.py:1629-1751 | Two chains that verify with the same newest file are byte-identical throughout, or sha256 collides. |
| Inbox.OpSafe | ops/selfstamp.py:932-1042 | Each file operation, done only when it may be, keeps every claimed delivery in hand, every copy, and beside each copy the proof that says most. |
| Inbox.AnsweredKept | ops/selfstamp.py:1012-1042 | A proof once answered for by what is held beside its copy stays answered for: a Bitcoin proof by a Bitcoin proof. |
| Inbox.ActConserves | ops/selfstamp.py:942-963 | Whatever deliverers put, replace or take back, every other delivery stays in hand, and so does everything claimed. |
| Inbox.OpConserves | ops/selfstamp.py:942-1042 | So does every file operation of the pass: a delivery is under its name, claimed, set aside, or witnessed or answered for. |
| Inbox.OpSourced | ops/selfstamp.py:1074-1112 | Nothing is made up: every new copy is a valid manifest that was delivered as one, under the name its bytes give it, every new proof beside a copy a delivered proof of it; and no valid manifest is set aside. |
| Inbox.GoneIsAnswered | ops/selfstamp.py:1126-1148 | A delivered proof of a held copy, not delivered beside another file, is kept or answered for once its claim is gone. |
| InboxPass.LeftIff | ops/selfstamp.py:1126-1148 | After a pass that fails nowhere, a proof that did not come beside another file is still claimed exactly when no held copy is the one it proves and the test finds no rejected manifest for its name. |
| InboxPass.GoesForItsOwnIff | ops/selfstamp.py:1115-1148 | What the documentation promises, that a proof awaiting its copy goes exactly when the manifest of its own name was rejected, holds exactly when that manifest was, or no rejected one has a name ending in -X.json. |
| InboxPass.SetAsideForAnother | ops/selfstamp.py:1115-1148 | The failing side: nothing fails, only a-X.json was ever rejected, and a proof X.json.ots that awaits its copy is set aside. |
| InboxPass.NewCopy | ops/selfstamp.py:976-995 | Bytes that no copy holds are witnessed under a name that no copy has, so no bytes get a second copy, older names included. |
| InboxPass.Box.KeepForeign | ops/selfstamp.py:1012-1042 | When it returns, the proof beside the copy is this one or says no less; a file there that is not a proof is set aside. |
| InboxPass.Box.ConsumeCompanion | ops/selfstamp.py:1045-1058 | A manifest's companion leaves its claim only when it is answered for beside the copy or, not a proof of it, set aside. |
| InboxPass.Box.ConsumeManifest | ops/selfstamp.py:1074-1112 | One claim, failing anywhere, loses nothing; when nothing fails a valid manifest is witnessed once, any other file set aside, and its companion settled. |
| InboxPass.Box.ConsumeProof | ops/selfstamp.py:1126-1148 | A proof left alone leaves its claim only when answered for or set aside for a reason; when nothing fails it stays claimed exactly when no held copy is the one it proves and the test finds no rejected manifest for its name. |
| InboxPass.Box.ClaimKind | ops/selfstamp.py:942-963 | With deliverers at work: every delivery of the kind there at the start is claimed, or still under its name after a failure, or was withdrawn; when nothing fails what is left came since. |
| InboxPass.Box.ConsumeAll | ops/selfstamp.py:1182-1203 | When nothing fails every claimed manifest is dealt with, every proof gone is settled, the claims left are proofs of no held copy for which the test finds no rejected manifest, and copies stay one for each bytes. |
| InboxPass.Box.WitnessInbox | ops/selfstamp.py:1151-1209 | A whole pass, and so any number of them, under every failure, stop and delivery: nothing delivered is lost but by its deliverer before it is claimed, nothing is made up, no proof gives way to a lesser one; a fault-free pass settles everything that was there. |
| Outbox.BoundedIs | ops/watch.py:966-989 | Up to 200 entries a queue is left alone; over that it keeps the newest 199 alerts under one notice, which counts every alert dropped. |
| Outbox.EnqueueAccounts | ops/watch.py:966-989 | A run's alerts enter the queue once and in order, the account of sent, queued and dropped still balances, and the notice at the head is dated by the oldest and the newest alert it stands for. |
| Outbox.DeliveryAccounts | ops/watch.py:1095-1113 | Taking delivered messages off the queue keeps the account. |
| Outbox.Watcher.DeliverFromOutbox | ops/watch.py:1095-1107 | Delivery from the outbox sends the oldest first and leaves on file a suffix of the queue. |
| Outbox.Watcher.DeliverFromRecord | ops/watch.py:1095-1113 | Delivery from the record shrinks it with each message and lets it go when none is left. |
| Outbox.Watcher.Run | ops/watch.py:1071-1117 | The two files act as one atomic pair of state and queue under every failure and stop, with exactly one exception, stated as an if-and-only-if; outside it the account balances and the cap holds; when nothing fails everything is sent. |

## Left out

- StampingSafety.NothingLost: assumes that no reorg reaches below the first remembered block, because the code does (otsserver/stamper.py:161).
- StampingAccounts.ExactlyOnePlace: assumes distinct journal entries.
- StampingAccounts.NeverOvercharges: assumes distinct journal entries.
- StampingFull.ChargesAll: assumes distinct journal entries, and that the counts of outstanding entries are written whole and can be read when a tree is closed; a count that is not is what NeverOvercharges bounds.
- ManifestChain.VerifyChain: covers links, numbers, periods, labels and the commissioning rule; proof files, witnessed entries and the cross-check between two chains are not part of it.
- ManifestChain.RunKeepsChain: takes what the manifest observes (books, logs, journal, float) as given bytes; the refusal of an unfinished day is left out.
- InboxPass.Box.WitnessInbox: takes claims in any order, where the code sorts by name; what its log lines say is left out.
- Outbox.Watcher.Run: files are read as they were written; setting aside a corrupt state or outbox file and the recovery notice it queues are left out, and so is the status file.
- FeeSearch.Sender.Send: the size, the input's value and the node's replies are given; coin selection, fee estimates and signing are the node's, and a rate that is not a number is left out.
- Receipts.ExactlyOnce: a marker is its receipt; corrupt markers and the single-name marker of before 2026-09-16 are left out.
- BlockMerkle.MakeBlockTimestamp: takes the serialized transaction and the block's transaction ids as given.
- HeaderChain.VerifyChain: the text of problems and the times noted with found headers are left out, and a file's headers are split before the walk, not during it.
- TimestampStore.Store.AddTimestamps: keys under the database's own prefix and the encoding of a node are left out; an atomic batch over a map stands for LevelDB.
- The stamper's clocks and warn-once flags: they choose when a pass sends, which the model leaves to the environment.
- Aggregator.Aggregator.Submitted: a submission waits for its round and gives up after a time; threads, waiting, nonces and the shape of the tree are left out.
- Block discovery's blocking retry on a broken pipe: a body is given or it is not.
- HTTP, JSON-RPC, sockets, argument parsing, logging and message wording.
- `check_anchors`, the status line, `is_pending` and the other read-only reports.
- `observe`, `evaluate` and `decide` in ops/watch.py: a run's transition and alerts are given.
- The submit, upgrade and export passes of the self-stamp beyond building and splicing a proof.
- ops/export_headers.py and rpc.py.
