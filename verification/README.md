# A verified model of the Whistleblower anchoring system

Documents are announced on a delivery queue by their CID. Any number of
`batch-anchor` tools poll the queue and anchor the CIDs on a shared on-chain
registry; each tool keeps its own SQLite state and can be killed and restarted at
any moment. This project models that system in Dafny, from the text of a CID down to
the bytes of the registry account, and proves what it keeps over every interleaving.

Check it with `dafny verify dfyconfig.toml --resource-limit 2000000 --verification-time-limit 0`.

## Contents

| file | models |
|---|---|
| Types, Numerals, Text | machine integers, positional numerals and base conversion, decimal and hexadecimal text, comma lists |
| Base58, CidText, Ffi | the CID codec and the fixed C buffers CIDs are handed out in |
| SpelArgs, Inspect | the command line between the tools and spel, the indexer's own submission and membership test |
| Borsh, Records | the account bytes, lists of records and their deduplication |
| Registry, Guest | the reference transition and the deployed guest program, and how they compare |
| Delivery, AnchorTool, RunLoop | the queue poll, the SQLite state, the `run` loop as the program executes it |
| Protocol, Steps, Safety, DryRuns | any number of crashing tools on one chain: steps, what each can do and leaves alone, invariant, what every run keeps |
| Progress, Life, Recovery | the loop as a refinement of the protocol, draining a queue, whole process lives among other parties, and recovery after any crash |
| Publish | the way from the publishing script to the chain, and what rewriting the queue does |
| Broadcast, Upload | concurrent deduplicated broadcasting, and uploading with retries |

The main results are `Safety.NoDocumentLost`, `Safety.CrashReplayHarmless`,
`Safety.AnswersArePermanent`, `Guest.GuestMatchesReference`, `Guest.CommitExact`,
`Base58.Base58Bijection`, `Borsh.AccountCodec`, `DryRuns.NothingLostExactly`, `Life.LifeIsReachable`,
`Life.DrainsAmongOthers`, `Recovery.RecoveryCompletes`, `Publish.RewriteLosesExactly`, `Broadcast.OwnershipExact`
and `Broadcast.DedupedOkExactly`.

## What the model takes as given

- SHA-256 digests, JSON parsing and the clock are inputs: a queue line is blank, not
  JSON, or JSON with an optional sequence number and an optional readable envelope that
  carries its digest.
- A successful exit of spel means the guest returned Ok and the transaction is on chain.
  A failed exit says nothing: the transaction may have been applied or not. One applied
  later than that is covered by transactions that anyone may send at any time.
- The account serialises in the plain derived Borsh layout. Its size limit is a
  parameter `dataLimit`; a state longer than that does not commit.
- The registry account is created once, from an empty account, as the `init` account
  annotation promises.
- Each SQLite statement is one atomic step, and a database belongs to one tool. An error
  from the database or from reading the file ends the process, like a crash.
- The queue file only grows, and its numbered lines carry increasing numbers from 1
  (`Delivery.Increasing`). `Delivery.AdvanceSkipsNothingExactly` says exactly when a poll
  of any other file is still safe, `Delivery.EveryPollSafeExactly` that all of them are safe exactly
  when the readable numbers strictly increase, and `Delivery.OutOfOrderQueueLosesMessage` gives a loss.
  The publishing script truncates the file and numbers from 1 again: `Publish.RepublishedExactly`
  and `Publish.RewriteLosesExactly` say exactly which documents an old cursor then passes over
  and when none is lost, `Publish.RewriteLosesDocument` gives the smallest loss.
- `spel inspect` prints each record's key as bare lower-case hexadecimal, and no records
  for an account that does not decode; its output is not part of this repository.
- The Base58 decoder follows sections 3 and 4 of draft-msporny-base58-03, hexadecimal
  digits section 8 of RFC 4648.

## Where the code and its documentation differ

The model follows the code.

- "Idempotent: known CIDs are skipped" (cid-registry/src/main.rs:40): the guest fixes its set of
  known CIDs before its loop, so a CID repeated inside one batch is stored twice
  (`Guest.RepeatInBatchStoredTwice`). `Guest.GuestDistinctExact` says exactly when keys stay unique.
- "Print what would be anchored" (batch-anchor-cli/src/main.rs:64): a dry run also saves the
  cursor, so later runs skip what it listed (`DryRuns.DryRunLosesDocument`). `DryRuns.NothingLostExactly`
  says, for every run, exactly when nothing is lost all the same, `DryRuns.DryRunKeepsExactly` for
  one window, and `Recovery.RecoveryCompletes` what a later real run still makes good.
- "Process the currently-available messages once" (batch-anchor-cli/src/main.rs:67): `--once`
  handles one window (`Progress.OnceDrainsExactly`).
- "200ms, 400ms, 800ms" (document-indexer/README.md:67): three attempts pause twice, 600 ms at most
  (`Upload.UploadWithRetry`).
- "Delivery dedup" (document-indexer/src/lib.rs:340-341): the Ok of a deduplicated call does not
  mean the document went out (`Broadcast.DedupedOkWithoutDelivery`); it does exactly when the call
  it relied on had already succeeded (`Broadcast.DedupedOkExactly`).
- "failed broadcast shouldn't poison the dedup set" (document-indexer/src/lib.rs:357): a call
  cancelled while it waits for the network leaves its CID claimed (`Broadcast.CancelBlocks`). No call
  can report a CID as sent any more exactly when that happened to its owner (`Broadcast.BlockedExactly`);
  whether the cancelled call still reached the network is not modelled.

## Model

| member | source | states |
|---|---|---|
| Base58.AlphabetBijection | scripts/publish-demo-docs.sh:19 | the alphabet pairs 58 digits with 58 characters in its six runs, and no other character is a digit |
| Numerals.ConvertRoundTrip | scripts/publish-demo-docs.sh:20-22 | converting a numeral between two bases and back is the identity, leading zeros included |
| Numerals.ConvertMeans | scripts/publish-demo-docs.sh:20-21 | converting a numeral changes its digits, not its number |
| Base58.B58 | scripts/publish-demo-docs.sh:18-23 | the divide-by-58 loop plus one '1' per leading zero byte writes the base-58 numeral of the bytes |
| Base58.EncodeExact | scripts/publish-demo-docs.sh:18-23 | the encoding is the one text over the alphabet that stands for the same number with as many leading 1s as the bytes have leading zeros |
| Base58.EncodeVector | scripts/publish-demo-docs.sh:18-23 | the test vector of section 5 of draft-msporny-base58-03 with leading zero bytes |
| Base58.Base58Bijection | scripts/publish-demo-docs.sh:18-23 | a text decodes to given bytes exactly when it is their encoding: no second text is accepted for the same bytes |
| CidText.DecodeCidExact | document-indexer/src/lib.rs:428-440 | a text is accepted as a 46-byte key exactly when it is that key's encoding |
| CidText.DedupKeysAgree | batch-anchor-cli/src/main.rs:260-268 | deduplicating accepted CIDs by text, as the database does, and by key, as the chain does, is the same |
| CidText.AcceptedLength | document-indexer/src/lib.rs:428-440 | every accepted CID has at most 63 characters |
| CidText.LengthBoundIsTight | document-indexer/src/ffi.rs:27-28 | some accepted CID has all 63 characters the buffer leaves room for |
| Ffi.Fill | document-indexer/src/ffi.rs:27-31 | the copy loop fills a zeroed buffer with as much of the bytes as leaves a final NUL |
| Ffi.IndexResult.Ok | document-indexer/src/ffi.rs:20-33 | a result carries the CID cut to its buffer, the digest, success 1 and an empty message |
| Ffi.IndexResult.Err | document-indexer/src/ffi.rs:35-48 | an error carries the message cut to its buffer, success 0, an empty CID and a zero digest |
| Ffi.BufferExact | document-indexer/src/ffi.rs:27-31 | every slot holds its byte modulo 256 as a signed character, and NUL from the end of the text or the last slot on |
| Ffi.ReadExact | document-indexer/src/ffi.rs:27-31 | a C caller reads up to the first NUL of the text, or to the cut |
| Ffi.ReadBackExact | document-indexer/src/ffi.rs:27-31 | a C caller reads back a prefix, and everything exactly when the text fits and has no NUL byte |
| Ffi.AcceptedCidIsNeverCut | document-indexer/src/ffi.rs:20-33 | a CID the decoder accepts always reaches the C caller whole |
| Text.DecimalRoundTrip | batch-anchor-cli/src/main.rs:270-280 | every 64-bit number survives being printed in decimal and parsed |
| Text.ParseExact | batch-anchor-cli/src/main.rs:270-275 | a text reads as a number exactly when it is the number as printed, with zeros and a plus sign allowed in front |
| Text.DecimalVector | batch-anchor-cli/src/main.rs:277-280 | the decimal digits and their order |
| Text.HexRoundTrip | batch-anchor-cli/src/main.rs:213-214 | every byte string survives being printed in hexadecimal and read, two digits per byte |
| Text.HexDigitsAt | batch-anchor-cli/src/main.rs:213-214 | each byte prints as its high and then its low digit, in lower case |
| Text.HexReadsExactly | docs/LIVE_ANCHOR_PLAN.md:23 | a text reads as bytes exactly when it is those bytes as printed, up to the case of letters |
| Text.SplitOfJoin | docs/LIVE_ANCHOR_PLAN.md:20 | splitting at commas undoes joining with commas for any non-empty list of comma-free fields |
| Text.SplitExact | docs/LIVE_ANCHOR_PLAN.md:20 | the fields hold no comma, joining them gives the text back, and there is one more of them than commas |
| Text.TrimExact | docs/LIVE_ANCHOR_PLAN.md:20 | trimming takes the white space off both ends and nothing else |
| Text.WhiteSpaceTable | docs/LIVE_ANCHOR_PLAN.md:20 | the 25 code points that count as white space |
| SpelArgs.ParseVec | docs/LIVE_ANCHOR_PLAN.md:15-28 | the parser loop has the outcome `SpelArgs.ParsedVecExact` describes |
| SpelArgs.ParsedVecExact | docs/LIVE_ANCHOR_PLAN.md:15-28 | a text parses to a list exactly when that is its parts decoded in order, and fails with an index exactly when that part is the first that does not decode |
| SpelArgs.PartExact | docs/LIVE_ANCHOR_PLAN.md:20-23 | a part decodes to some bytes exactly when, trimmed, it spells them in either case, with or without 0x or 0X in front |
| SpelArgs.TimesExact | batch-anchor-cli/src/main.rs:215 | timestamps are read part by part, each as a trimmed decimal number |
| SpelArgs.HexListRoundTrip | docs/LIVE_ANCHOR_PLAN.md:15-28 | a printed list of byte vectors parses back to itself unless it is the list of one empty vector |
| SpelArgs.ArgsRoundTrip | batch-anchor-cli/src/main.rs:212-225 | for any non-empty entry list the printed arguments read back as the same keys and digests in order, and as many timestamps |
| SpelArgs.IndexerSubmitsExactly | document-indexer/src/lib.rs:191-223 | the indexer submits exactly the batches of 1 to 50 decodable CIDs, and the guest then receives their keys and digests in order, each with the given timestamp |
| SpelArgs.IndexerRefusesExactly | document-indexer/src/lib.rs:191-207 | nothing is done for an empty batch, more than 50 CIDs are refused, and so is any smaller batch with a CID that does not decode |
| Inspect.IsAnchoredExact | document-indexer/src/lib.rs:234-249 | on any account, readable or not, comparing printed keys finds a CID exactly when a query finds a record; a text that is no CID is an error |
| Borsh.AccountCodec | cid-registry/src/lib.rs:29-47 | data deserialises to a state exactly when the state serialises to that data |
| Borsh.DecodesExactly | cid-registry/src/lib.rs:29-47 | data decodes exactly when its length is 4 plus 86 times the little-endian number in its first four bytes |
| Borsh.SerialisesExactly | cid-registry/src/lib.rs:88-91 | a state serialises exactly when its record count fits 32 bits |
| Borsh.AccountLength | cid-registry/src/lib.rs:83-98 | decodable data is 4 bytes plus 86 per record, and the empty default account does not decode |
| Borsh.AccountLayout | cid-registry/src/lib.rs:29-47 | the count is little-endian, and record i starts at byte 4 + 86 i with key, digest and the eight little-endian bytes of its timestamp |
| Borsh.TrailingBytesRejected | cid-registry/src/main.rs:60-66 | nothing decodes with extra bytes after the last record |
| Registry.ApplyAnchor | cid-registry/src/lib.rs:108-139 | the loop with its set of seen keys, which always equals the keys of the list, inserts new keys one by one; oversized batches and wrong lengths are errors |
| Registry.AppliedExact | cid-registry/src/lib.rs:112-128 | a batch is refused with 4001 exactly when it has more than 50 entries, and with 4002 exactly when a smaller one has a CID that is not 46 bytes |
| Registry.AppliedFacts | cid-registry/src/lib.rs:118-138 | a successful batch keeps the old list as a prefix, adds one record per distinct new key, keeps keys distinct, and equals first-occurrence deduplication |
| Registry.FoldExact | cid-registry/src/lib.rs:108-139 | a series of batches goes through exactly when none is oversized or holds a CID of another length |
| Records.ExtendCount | cid-registry/src/lib.rs:120-137 | insertion adds exactly as many records as there are distinct keys not present before |
| Records.KeepFirstAppend | cid-registry/src/lib.rs:118-137 | inserting one by one is appending everything and keeping the first record of each key |
| Records.KeepFirstFind | cid-registry/src/lib.rs:149 | a first-match lookup gives the same answer before and after deduplication |
| Registry.BatchingDoesNotMatter | cid-registry/src/lib.rs:108-139 | every way to cut a stream into batches of at most 50 gives the stream with only the first entry per key |
| Registry.HistoryPermanent | cid-registry/src/lib.rs:118-149 | over any batches, refused or not, the list only grows at the end and the first record of a key stays the answer |
| Registry.LibOutcomeExact | cid-registry/src/lib.rs:79-98 | the library call aborts on data that does not decode, refuses as the transition does, and otherwise posts exactly when the grown list fits |
| Registry.PostedAnswers | cid-registry/src/lib.rs:79-98 | after a posted batch earlier answers are unchanged and every other key is answered with its first entry of the batch |
| Registry.QueryExact | cid-registry/src/lib.rs:141-150 | a query answers with the first record of the key and fails only on data that does not decode |
| Guest.RegistryAccount.Initialize | cid-registry/src/main.rs:23-38 | the account becomes the serialised empty registry, or stays as it was if that does not fit |
| Guest.InitializeExact | cid-registry/src/main.rs:23-38 | deploying writes four zero bytes |
| Guest.RegistryAccount.AnchorBatch | cid-registry/src/main.rs:46-101 | the guest loop has the outcome of the specified transaction, and the account changes only when it commits |
| Guest.CollectExact | cid-registry/src/main.rs:71-90 | the loop succeeds exactly when every position is good, and fails with the CID error exactly when a wrong length comes before any missing argument |
| Guest.OutcomeExact | cid-registry/src/main.rs:53-98 | 4001 exactly for more than 50 CIDs or an unreadable account; on a readable one the first bad position gives 4002 exactly when its length is not 46 and a panic otherwise; with no bad position only space is left to fail |
| Guest.GoodExact | cid-registry/src/main.rs:74-89 | a position is good when its CID has 46 bytes and is registered or has a hash and a timestamp |
| Guest.CommitExact | cid-registry/src/main.rs:53-100 | on a readable account a batch commits exactly when it has at most 50 CIDs, all 46 bytes, a hash and timestamp for every new position, and the result fits |
| Guest.CommitGrows | cid-registry/src/main.rs:68-98 | a commit keeps the old records as a prefix, puts the submitted keys and no others on chain, and each record it adds has key, digest and timestamp from one position of the call |
| Guest.CommitAnswers | cid-registry/src/main.rs:68-98 | after a commit earlier answers are unchanged and every other key is answered with its first position in the call |
| Guest.ReplayUnchanged | cid-registry/src/main.rs:82-98 | a batch of known keys commits the very same bytes |
| Guest.GuestSimulatesReference | cid-registry/src/main.rs:68-90 | guest and reference refuse the same batches with the same code, and deduplicating the guest's list keeps giving the reference's list |
| Guest.GuestDistinctExact | cid-registry/src/main.rs:68-89 | after any committed call, whatever the lengths of its lists, keys are unique exactly when they were before and no key new to the chain is repeated inside the batch |
| Guest.GuestMatchesReference | cid-registry/src/main.rs:46-101 | over every history, calls with argument lists of any lengths included, the guest's list deduplicates to the reference's, no query differs, and the lists are equal when no batch repeats a CID |
| Guest.RepeatInBatchStoredTwice | cid-registry/src/main.rs:68-89 | a CID repeated in one batch is stored twice by the guest and once by the reference |
| Delivery.PollDelivery | batch-anchor-cli/src/main.rs:108-128 | the line loop and the final sort return the specified window or error |
| Delivery.PolledExact | batch-anchor-cli/src/main.rs:108-128 | any poll of any queue fails exactly when a bad line comes before the window is full, and otherwise returns the first pending messages sorted by number, equal numbers in file order |
| Delivery.BadExact | batch-anchor-cli/src/main.rs:120-124 | what ends a poll is text that is no JSON, or a message numbered beyond the cursor whose envelope cannot be read |
| Delivery.ScanExact | batch-anchor-cli/src/main.rs:115-126 | reading fails exactly when a bad line comes before the window is full, and otherwise returns the first pending messages |
| Delivery.SortFacts | batch-anchor-cli/src/main.rs:127 | the window is sorted by number, is a permutation of what was read, and keeps messages with equal numbers in file order |
| Delivery.PollWindow | batch-anchor-cli/src/main.rs:109-128 | on an increasing queue a poll returns exactly the max(1, limit) smallest pending messages in order |
| Delivery.AdvanceSkipsNothingExactly | batch-anchor-cli/src/main.rs:123-128 | on any queue, moving the cursor over a window leaves just the later messages pending exactly when all of them have higher numbers |
| Delivery.EveryPollSafeExactly | batch-anchor-cli/src/main.rs:123-128 | that holds from every cursor and with every limit exactly when the readable messages carry strictly increasing numbers |
| Delivery.OutOfOrderQueueLosesMessage | batch-anchor-cli/src/main.rs:125-127 | with numbers out of order a full window can overtake a message for good |
| AnchorTool.StateDb.IsAnchored | batch-anchor-cli/src/main.rs:260-263 | membership in the anchored table |
| AnchorTool.StateDb.MarkAnchored | batch-anchor-cli/src/main.rs:265-268 | adds one CID to the table and changes nothing else |
| AnchorTool.StateDb.LoadCursor | batch-anchor-cli/src/main.rs:270-275 | the parsed cursor row, 0 when missing or unreadable |
| AnchorTool.StateDb.SaveCursor | batch-anchor-cli/src/main.rs:277-280 | writes the cursor row in decimal and changes nothing else |
| AnchorTool.StatementsExact | batch-anchor-cli/src/main.rs:265-280 | each statement writes its own row only, and the cursor row reads as its number or as 0 |
| AnchorTool.CursorPersists | batch-anchor-cli/src/main.rs:270-280 | a saved cursor is loaded as saved, and marking a CID does not move it |
| AnchorTool.EmptyNeverSent | batch-anchor-cli/src/main.rs:211-225 | only the empty list prints as something that cannot be read back, and then nothing reaches the chain |
| AnchorTool.GatherEntries | batch-anchor-cli/src/main.rs:171-183 | the filter loop returns the specified entries and the highest number seen |
| AnchorTool.GatherExact | batch-anchor-cli/src/main.rs:174-183 | the entries are exactly the messages whose CID is not marked locally and decodes, with their keys and digests |
| AnchorTool.GatherSplit | batch-anchor-cli/src/main.rs:174-183 | gathering goes message by message in order |
| AnchorTool.GatherRepeatsExactly | batch-anchor-cli/src/main.rs:174-183 | the gathered keys repeat exactly when two messages of the window to anchor carry the same CID text |
| RunLoop.AnchorOnChain | batch-anchor-cli/src/main.rs:211-240 | printing, parsing and sending leaves the account as the transaction decides |
| RunLoop.MarkEntries | batch-anchor-cli/src/main.rs:200 | marks the entries one by one |
| RunLoop.MarkAllExact | batch-anchor-cli/src/main.rs:200 | afterwards the table has gained exactly the entries' CIDs and the cursor row is untouched |
| RunLoop.GatherAndAnchor | batch-anchor-cli/src/main.rs:171-207 | the loop body from a non-empty poll on has the specified effect on database, chain and process |
| RunLoop.PassOnce | batch-anchor-cli/src/main.rs:158-207 | one pass of the loop has the specified effect |
| RunLoop.PassExact | batch-anchor-cli/src/main.rs:158-207 | case by case: a cap, a poll error or a failed submission stop the process with nothing changed; otherwise the cursor moves to the highest number seen, the wanted CIDs are marked unless it is a dry run, and a batch is counted exactly when some message was wanted |
| RunLoop.RunTool | batch-anchor-cli/src/main.rs:145-209 | the command, from loading its cursor on, makes its passes until it breaks, fails or is killed |
| Steps.EnabledExactly | batch-anchor-cli/src/main.rs:158-207 | when each action of a tool can happen |
| Steps.EffectExact | batch-anchor-cli/src/main.rs:158-207 | what each action changes in the tables, on chain and in the dry-run listing, and that ending the process changes neither table |
| Steps.UnreportedIsCrash | batch-anchor-cli/src/main.rs:199-200 | a submission applied but not reported leaves what a reported one followed by a crash leaves: nothing marked |
| Steps.FailedIsCrash | batch-anchor-cli/src/main.rs:199 | a submission that fails without being applied is a crash |
| Steps.SubmissionAnswers | batch-anchor-cli/src/main.rs:192-199 | after an applied submission earlier answers are unchanged and every other key is answered with its first entry's digest and the time of submission |
| Steps.ForeignExact | cid-registry/src/main.rs:46-101 | anyone can send any call at any time; a refused one changes nothing, and after a committed one every key it names is answered |
| Steps.AppendExact | batch-anchor-cli/src/main.rs:102-106 | a line can be appended as long as numbers keep increasing |
| Steps.DeployExact | cid-registry/src/lib.rs:50-69 | the registry can be deployed once, onto the empty account |
| Steps.JoinExact | batch-anchor-cli/src/main.rs:251-258 | a tool starts with an empty database |
| Steps.ToolStepExact | batch-anchor-cli/src/main.rs:145-209 | a tool's step changes no other tool and not the queue |
| Protocol.ActKeeps | batch-anchor-cli/src/main.rs:158-207 | every single action of a tool keeps its invariant and only grows the chain |
| Safety.ExecKeeps | batch-anchor-cli/src/main.rs:145-209 | the invariant of all tools survives every interleaving, and the record list only grows at the end |
| Safety.NoDocumentLost | batch-anchor-cli/src/main.rs:154-207 | in every reachable state every queued document numbered up to a tool's persisted or in-memory cursor is on chain if its CID decodes, unless that tool ran dry |
| Safety.LocalKnowledgeSound | batch-anchor-cli/src/main.rs:174-200 | in every reachable state every CID in any tool's table decodes and the registry answers for it |
| Safety.AnswersArePermanent | cid-registry/src/lib.rs:141-150 | an answer the registry gives in a reachable state it gives in every later one |
| Safety.CrashReplayHarmless | batch-anchor-cli/src/main.rs:199-204 | once a submission is on chain, resubmitting it or any part of it after any crash and any further steps leaves the account bytes unchanged |
| Safety.RefusedExactly | cid-registry/src/main.rs:53-58 | a tool's batch is refused exactly when it has more than 50 entries, so never with a batch size up to 50; then only space can run out |
| Safety.ProgressIsPersistent | batch-anchor-cli/src/main.rs:265-280 | no crash or restart moves a tool's cursor back or shrinks its table |
| Safety.CapRespected | batch-anchor-cli/src/main.rs:158-162 | under a positive cap the count of batches never exceeds it, and is below it whenever a submission is about to start |
| Safety.SubmissionsCapped | batch-anchor-cli/src/main.rs:158-207 | in any run, between two starts of a tool with a positive cap there are at most that many submissions, whatever their outcome |
| Safety.ReachableAccount | cid-registry/src/main.rs:60-98 | every reachable account is untouched or decodes, has the exact length and re-encodes to itself |
| Safety.NothingInvented | batch-anchor-cli/src/main.rs:174-200 | every record on chain has the key and the digest of one queued envelope, or is what one position of somebody else's call asked for |
| Safety.KeysUniqueExactly | cid-registry/src/main.rs:68-89 | in every run the registry holds each key once exactly when no call that commits, of a tool or anyone, repeats a key new to the chain |
| Safety.CleanRunKeepsKeysUnique | batch-anchor-cli/src/main.rs:174-183 | so keys stay unique when no window holds two messages to anchor with one CID and no foreign call repeats a new key |
| DryRuns.NothingLostExactly | batch-anchor-cli/src/main.rs:145-209 | in every reachable state, whatever dry runs a tool made, no document up to its cursor is lost exactly when every key its dry runs listed and its cursor has passed is on chain |
| DryRuns.DryRunKeepsExactly | batch-anchor-cli/src/main.rs:194-204 | after a dry run has saved its cursor over a window no document is lost exactly when none was lost before and every key listed for that window was on chain already |
| DryRuns.DryRunLosesDocument | batch-anchor-cli/src/main.rs:194-204 | a trace of one document and one dry run ends with the cursor past a document that is not on chain |
| Progress.PassIsReachable | batch-anchor-cli/src/main.rs:158-207 | one pass of the loop is a run of that tool's own protocol steps, to the very same system state |
| Life.LifeIsReachable | batch-anchor-cli/src/main.rs:158-207 | any number of passes, with any steps of anyone between them, is a run of the protocol |
| Life.RunToolIsReachable | batch-anchor-cli/src/main.rs:145-209 | what the command leaves behind, over a queue that grows from pass to pass, is a protocol state reached by nothing but appends and the tool's own steps |
| Life.DrainsAmongOthers | batch-anchor-cli/src/main.rs:158-207 | whatever other parties do between its passes, after k passes every document of the first k windows pending at the start is on chain, given space for a window at the end and a readable queue |
| Progress.PassDrains | batch-anchor-cli/src/main.rs:158-207 | without dry run and `once`, with space, a batch size of 1 to 50 and the cap not reached, a pass takes exactly one window off the pending messages and counts a batch exactly when some message of it was wanted |
| Progress.PassesDrain | batch-anchor-cli/src/main.rs:158-207 | k passes, with no cap or k batches left below it, leave exactly the messages beyond the first k windows |
| Progress.DrainsExactly | batch-anchor-cli/src/main.rs:158-207 | after such passes nothing is pending exactly when passes times batch size reaches the initial pending count |
| Progress.DrainedMeansAnchored | batch-anchor-cli/src/main.rs:158-207 | after that many passes the chain holds exactly what it held before, whoever put it there, and the documents queued beyond the cursor whose CID decodes |
| Recovery.RecoveryCompletes | batch-anchor-cli/src/main.rs:145-209 | from every reachable state, dry runs and foreign transactions included, enough passes of a restarted tool add exactly the documents queued beyond its cursor; every queued document is then on chain exactly when each one its dry runs passed over was there or is queued again |
| Recovery.NoDeadEnd | batch-anchor-cli/src/main.rs:145-209 | from every reachable state whose queue can be read and whose account has space, one more tool that joins and works alone puts exactly the missing queued documents on chain |
| Progress.OnceDrainsExactly | batch-anchor-cli/src/main.rs:164-206 | a single `once` pass leaves nothing pending exactly when one window was enough |
| Publish.PublishDocs | scripts/publish-demo-docs.sh:12-31 | the script writes one numbered envelope per document, with the encoded key as its CID |
| Publish.PublishedWellFormed | scripts/publish-demo-docs.sh:13-30 | a published queue is increasing and readable, and every CID on it decodes to its document's key |
| Publish.RepublishedExactly | scripts/publish-demo-docs.sh:12-13 | after a rewrite document k is pending exactly when an old cursor is below its number, and no passed-over document is lost exactly when all of them are on chain already |
| Publish.RewriteLosesExactly | scripts/publish-demo-docs.sh:12-30 | when the queue is rewritten after a tool has drained it, no document is lost exactly when those that reuse an old number were in the old queue |
| Publish.RewriteLosesDocument | scripts/publish-demo-docs.sh:12-30 | one document anchored and the queue rewritten with another: nothing is pending and the new document is not on chain |
| Publish.PublishedDocumentsReachChain | scripts/publish-demo-docs.sh:12-31 | after n / batch size passes, rounded up, a fresh registry holds exactly the keys of the n published documents |
| Publish.PublishedDigestsReachChain | scripts/publish-demo-docs.sh:12-31 | and every record there has the key and the digest of one published document |
| Broadcast.Indexer.TryClaim | document-indexer/src/lib.rs:343-349 | the first critical section claims a CID unless it is claimed |
| Broadcast.Indexer.Undo | document-indexer/src/lib.rs:356-359 | the second critical section removes the CID and nothing else |
| Broadcast.Indexer.BroadcastAlone | document-indexer/src/lib.rs:342-361 | an uninterrupted call returns Ok for a known CID, otherwise the backend's answer, and keeps the CID only on success |
| Broadcast.CallAlone | document-indexer/src/lib.rs:342-361 | a call nobody interleaves with ends as the uninterrupted method does |
| Broadcast.EventExact | document-indexer/src/lib.rs:342-361 | when each event can happen, and that it touches no other task and no other CID |
| Broadcast.OwnershipExact | document-indexer/src/lib.rs:342-361 | with any number of concurrent calls, cancelled or not, a CID is in the set exactly when it has one and only one owner |
| Broadcast.OwnershipWithoutCancel | document-indexer/src/lib.rs:342-361 | without cancellation that owner is sending, about to release, or has delivered |
| Broadcast.AtMostOneDelivery | document-indexer/src/lib.rs:342-361 | at most one call per CID ever returns success after sending |
| Broadcast.FailureReleasesOwnClaim | document-indexer/src/lib.rs:356-359 | a failing call frees its own CID and no other call's |
| Broadcast.AbandonedClaimBlocks | document-indexer/src/lib.rs:343-361 | a call cancelled while holding a claim keeps every later call from sending that CID |
| Broadcast.CancelBlocks | document-indexer/src/lib.rs:343-361 | one call, cancelled while it waits for the network, is enough to block its CID |
| Broadcast.ClaimStaysExactly | document-indexer/src/lib.rs:342-361 | in any reachable session a CID stays in the set for good exactly when its owner delivered it or was cancelled |
| Broadcast.BlockedExactly | document-indexer/src/lib.rs:342-361 | in any reachable session no continuation has a call report the CID as sent exactly when its owner was cancelled |
| Broadcast.DedupedOkWithoutDelivery | document-indexer/src/lib.rs:345-347 | a deduplicated Ok can be returned for a document nobody delivers |
| Broadcast.DedupedOkExactly | document-indexer/src/lib.rs:342-361 | after a deduplicated Ok the document has gone out in every continuation exactly when the owner had delivered it, in none exactly when the owner was cancelled, and otherwise the owner can still give up |
| Upload.OverflowExact | document-indexer/src/lib.rs:260 | a pause is out of range from 2^64 seconds on |
| Upload.DelayOverflow | document-indexer/src/lib.rs:260 | the doubled pause leaves its range exactly from the 67th failure on |
| Upload.UploadWithRetry | document-indexer/src/lib.rs:253-267 | returns the first success among the allowed calls or else the last error, after pauses of 200*(2^(k-1)-1) ms over k calls, and panics exactly for a cap of zero or 67 failures below the cap |

## Left out

- The `http:` delivery source: the bridge decides what it returns, so nothing can be proved about skipped messages.
- The Qt application and its C++ glue: user interface and network plumbing.
- HTTP and `logoscore` transports, temporary files, environment variables and argument parsing: I/O.
- SHA-256, `hash_envelope` and `metadata_hash_from_payload`: digests are inputs; the two hash different text and are not assumed to agree.
- JSON parsing and printing, and SQLite beyond one atomic effect per statement: library code.
- Account ownership, PDA derivation, signatures and RISC0 proofs: the framework's business; the library's own `initialize` assertion is the guard of the `Deploy` step.
- spel's parsers for the hash and timestamp lists are not part of this repository: the model reads them back as the printing inverts.
- Raw pointers and C strings beyond the two result buffers.
- The `status` command and log output: they only read.
- Delivery.SortFacts: the library sort is a stable insertion sort here; its running in place is not modelled.
- RunLoop.RunTool: the process lives for a given list of polls, since the real loop need not end; sleeping between polls is left out. Other parties acting between its polls are covered by `Life.LifeIsReachable` and `Life.DrainsAmongOthers`, not by the method.
