# Deltabadger: the ledger, the caches and the small protocols, in Dafny

A model of the parts of Deltabadger that carry state or arithmetic, with proofs of what they are for. Code that
changes things step by step is a class with methods, and each method is proved against a function of the old state;
what the source promises is then proved about that function, over whole runs. Times are integers (microseconds),
amounts are reals, a table is a sequence or a map of rows and its unique indexes are invariants.

`dafny verify dfyconfig.toml` checks everything.

| module | models |
|---|---|
| `LedgerRows`, `LedgerStore`, `LedgerSync` | one venue's ledger: which API and export rows are the same event, storing a batch, one sync |
| `TransferConvergence`, `TransferCalls`, `TransferExactly` | transfers seen by both sources: what one entry does, whole sequences of calls, exactly which calls converge |
| `Reimport`, `ReimportExactly` | importing the same rows again, and exactly when that adds nothing |
| `DustInvariant`, `DustConvergence`, `DustStrangers`, `DustCalls`, `DustExactly` | dust conversions: what every run keeps, what one leg does, sweeps of several coins over whole sequences of calls, exactly which calls converge |
| `SyncWindow` | the watermark over whole runs |
| `PairingExactly`, `RivalsExactly`, `SweepExactly`, `PlainExactly` | the same rules told in the fields of entries and rows: when an entry adds no row, what it writes on the one it meets, how many alike entries are stored |
| `TransferMatcher` | linking withdrawals to the deposits they arrived as |
| `TickerRows`, `TickerImport` | renaming a venue's tickers in place under two unique indexes |
| `BotActivityFeed` | paging over two tables with one cursor |
| `CandleCache`, `CandleHistory`, `CandleInFields` | a stored candle series extended step by step, a history rewritten behind it, when the venue is asked |
| `Flatten`, `FlattenTree`, `FlattenInFields` | the stack machine over YAML events, the recursive walk it equals, and small files in characters |
| `StatementScan`, `ScanInCharacters`, `MigrationRegistry` | the one-pass SQL scan, what it blanks, and the directory of migrations it guards |
| `WebhookCooldown`, `IbkrLock`, `LockBlocks`, `RateLimiter` | a claim with a cooldown, a lock with a lifetime, a sliding window, by any number of actors |
| `SparkSlopes`, `SparkCurve` | the monotone cubic and when its curve stays within the data |
| `AllocationRing`, `RingArcs`, `CardInFields` | the ring's slices and spans, the arcs drawn in them, and the card's pieces |
| `Prelude` | an optional value, selections, decimal numerals |

## Where the code and its description part

The model follows the code. For each of these the exact condition is proved, and a lemma names an input that fails
it, except for the last, which is about the schema.

- Importing a file again adds nothing, over all ledgers on which no entry that saves is settled by an older reading,
  if and only if each entry that saves is covered by the identical ones before it
  (`ReimportExactly.ReimportExactlyWhen`); `Reimport.MixedShapesAreStoredAgain` is a batch that is not.
- The webhook cooldown does not hold under arbitrary stalls, because a release restores a value loaded before the
  claim. It holds exactly under the bound of `WebhookCooldown.ApartExactlyWhen`; `SlowRequestsMeet` is the run.
- A candle series can be mixed when several restatements between two refreshes cancel to within the tolerance
  (`CandleHistory.OneBasisExactlyWhen`); `MixedSeries` is one.
- The spark curve is described as unable to overshoot. It can on a sharp turn, since the rescaling reuses the ratio
  from before the zeroing (`SparkCurve.NoOvershootExactlyWhen`); `SharpTurnOvershoots` is one.
- The card's ring is described as never lifting a slice, with a scale of 1. A lone small holding is lifted
  (`AllocationRing.ScaleIsOneExactlyWhen`); `CardCanBeSqueezed` is one. That it never drops a slice is true.
- The ring's arcs are described as standing half a gap and half a round cap in from each end of their spans. That is
  so exactly for a span of at least the least one (`RingArcs.ClearExactlyWhen`); `CardDotIsNotClear` is one that is
  not. Every arc lies within its span all the same (`ArcsStayInTheirSpans`).
- The ticker import speaks of a unique index on base and quote. The schema has none; that rows stay apart there too
  is proved as a property beside the indexes.

One call of `store!` is fed by one source. What happens when a call carries copies of both is settled too, though the
code makes no such call: it converges unless an export copy comes after an API copy that looks identical
(`TransferExactly.ConvergesExactlyWhen`). A dust conversion converges exactly as described: one leg alone pairs with
nothing, and the calls that leave it so are the only ones after which it is held from both sources at once
(`DustExactly.ConvergesExactlyWhen`).

## Model

| member | source | states |
|---|---|---|
| LedgerSync.AccountTransactionSync.Take | app/services/account_transaction_sync.rb:496-498 | gives a row an id only while it has none; a second row of one id is refused by the unique index, and every other row keeps its id |
| LedgerSync.AccountTransactionSync.Stamp | app/services/account_transaction_sync.rb:554-557 | stamps a row with the export's date only while no date is stamped, and changes no other row |
| LedgerSync.AccountTransactionSync.SameEventStored | app/services/account_transaction_sync.rb:381-385 | counts the stored rows from before the run that are the same event and may count, and compares the count with the entry's repeat |
| LedgerSync.AccountTransactionSync.TakeTransfer | app/services/account_transaction_sync.rb:475-494 | an arriving API transfer does to the rows exactly what `LedgerStore.ApiTransferTwin` says, and answers as it does |
| LedgerSync.AccountTransactionSync.StampTransfer | app/services/account_transaction_sync.rb:500-522 | an arriving export transfer does exactly what `LedgerStore.FileTransferTwin` says: already there, paired with the one free API row that has no other rival, or neither |
| LedgerSync.AccountTransactionSync.TakeDust | app/services/account_transaction_sync.rb:612-631 | an arriving API dust leg gives both legs of the one export group their ids, or neither |
| LedgerSync.AccountTransactionSync.StampDust | app/services/account_transaction_sync.rb:633-660 | an arriving export dust leg stamps both rows of the one free whole API conversion, or neither |
| LedgerSync.AccountTransactionSync.StampGroup | app/services/account_transaction_sync.rb:647-657 | the pairing of an export group with a conversion, given that nothing settled the leg before it |
| LedgerSync.AccountTransactionSync.StampWhole | app/services/account_transaction_sync.rb:663-665 | both stamps are written, or the transaction is rolled back and neither is |
| LedgerSync.AccountTransactionSync.IsDuplicate | app/services/account_transaction_sync.rb:329-370 | the rows and the answer are those of `LedgerStore.Duplicate`, branch by branch |
| LedgerSync.AccountTransactionSync.CountRepeat | app/services/account_transaction_sync.rb:71-73 | an entry that no id already names is counted among the identical ones, one that an id names is not |
| LedgerSync.AccountTransactionSync.Save | app/services/account_transaction_sync.rb:74-122 | a duplicate is counted, a row that fails validation is skipped and its date remembered when earliest, any other is appended with blank ids and zero fees read as none |
| LedgerSync.AccountTransactionSync.StoreEntry | app/services/account_transaction_sync.rb:66-131 | one turn of the loop is one `LedgerStore.Step` |
| LedgerSync.AccountTransactionSync.StoreAll | app/services/account_transaction_sync.rb:50-134 | after a batch the ledger, the counters and the earliest skipped date are those of `LedgerStore.Store` |
| LedgerSync.AccountTransactionSync.Sync | app/services/account_transaction_sync.rb:7-38 | a sync asks the venue from `StartTime`, stores what it returns and moves the watermark to `Watermark`; a failed fetch changes nothing |
| LedgerRows.LegPairs | app/services/account_transaction_sync.rb:604-610 | the pairs found are all and only an out leg and an in leg of one group among the rows that match |
| LedgerStore.WholeConversions | app/services/account_transaction_sync.rb:642-644 | the API conversions an export leg may belong to are those stored as exactly one row out and one row in |
| LedgerStore.TheConversionIsWhole | app/services/account_transaction_sync.rb:642-650 | a conversion that is chosen is a whole one |
| PairingExactly.ExportWithdrawalAfterApi | app/services/account_transaction_sync.rb:459-468 | an export withdrawal meets the API's row and adds none exactly when the coin agrees, its amount is the API's plus the fee, and it is dated less than a second from the completion; the row then carries its date |
| PairingExactly.ApiWithdrawalAfterExport | app/services/account_transaction_sync.rb:475-498 | the other way round, and the export's row then carries the API's id |
| PairingExactly.ExportDepositAfterApi | app/services/account_transaction_sync.rb:459-464 | an export deposit meets the API's row and adds none exactly when coin and amount agree and it is dated from the API's moment to ten minutes after |
| PairingExactly.ApiDepositAfterExport | app/services/account_transaction_sync.rb:475-498 | the other way round, and the export's row then carries the API's id |
| PairingExactly.UnreadableBeforeExport | app/services/account_transaction_sync.rb:449-453 | a withdrawal whose completion cannot be read pairs with no export row that follows |
| PairingExactly.UnreadableAfterExport | app/services/account_transaction_sync.rb:449-453 | nor with one that was there |
| PairingExactly.MarkedOnce | app/services/account_transaction_sync.rb:532-534 | an export row once marked on an API row is known again to within a second |
| PairingExactly.TwoApiCandidates | app/services/account_transaction_sync.rb:508-513 | an export row that two API rows could be is stored, and neither is marked |
| PairingExactly.TwoExportCandidates | app/services/account_transaction_sync.rb:484-487 | an API row that two export rows could be is stored, and neither takes its id |
| PairingExactly.TwoRivals | app/services/account_transaction_sync.rb:514-519 | two export rows of one batch that one API row could be are both stored, and it is not marked |
| RivalsExactly.StoredIsNoRival | app/services/account_transaction_sync.rb:524-528 | an export row that is stored with an id of its own stands in no other's way: the other is marked on the API row |
| RivalsExactly.MarkedIsNoRival | app/services/account_transaction_sync.rb:528 | nor does one that is marked on another API row |
| RivalsExactly.UnpairedAreRivals | app/services/account_transaction_sync.rb:514-519 | two that are paired with nothing do, whatever other row there is |
| PairingExactly.ExportTransferMeetsAnother | app/services/account_transaction_sync.rb:500-504 | against a row that is no API transfer an export transfer is a duplicate exactly when it is the same thing, less than a second away, or a second from a row with an id |
| PairingExactly.ApiTransferMeetsAnother | app/services/account_transaction_sync.rb:475-478 | against a row that is no export transfer an API transfer is a duplicate exactly when the row has its id, or no id and is the same thing at most a second away |
| PairingExactly.PlainExportEntry | app/services/account_transaction_sync.rb:346-349 | so for an entry without an id that is neither a transfer nor a sweep of the export, or one that an older reading stored as other income |
| PairingExactly.PlainApiEntry | app/services/account_transaction_sync.rb:356-369 | so for an entry with an id that is neither a transfer nor a sweep of the API |
| PairingExactly.LoneExportLeg | app/services/account_transaction_sync.rb:633-637 | a lone export leg of a sweep is a duplicate of the same thing only, and never of an API leg |
| PairingExactly.LoneApiLeg | app/services/account_transaction_sync.rb:612-615 | a lone API leg of its own id or of the same thing without one only, and never of an export leg |
| SweepExactly.ExportSweepAfterApi | app/services/account_transaction_sync.rb:633-665 | an export sweep adds no row to the API's exactly when the coin and amount out agree, the BNB in is the API's gross less the charge to a unit of the 8th decimal, each leg is dated within a second of the API's, and the legs less than a second apart; both rows then carry its date |
| SweepExactly.ApiSweepAfterExport | app/services/account_transaction_sync.rb:612-631 | the other way round, and both rows then carry the API's ids |
| PlainExactly.ExactlyTheExcessWithIds | app/services/account_transaction_sync.rb:367-385 | of n alike entries with new ids against m alike rows without ids at most a second away exactly max(0, n - m) are stored, counted over the fields; entries whose ids are known change nothing about that |
| PlainExactly.ExactlyTheExcessWithoutIds | app/services/account_transaction_sync.rb:346-385 | the same of alike entries without ids |
| PlainExactly.EveryEntryIsAccountedFor | app/services/account_transaction_sync.rb:51-134 | every entry is imported, a duplicate or skipped, and rows grow by the number imported |
| PlainExactly.NewRowIs | app/services/account_transaction_sync.rb:78-101 | a stored row is the entry's own fields, without a blank id or a fee of nothing |
| PlainExactly.IncompleteIsNotStored | app/services/account_transaction_sync.rb:103-117 | an entry without a date or a currency is never stored, and one without a date is skipped unless its id or its completion finds a row |
| PlainExactly.MergedIdsAreKnown | app/services/account_transaction_sync.rb:356 | an id merged into an adjustment, before the call or in it, is not stored again |
| PlainExactly.SwapPairOnATrade | app/services/account_transaction_sync.rb:682-697 | of two entries of one group neither is stored beside a trade exactly when they are the swap pair of the export that the trade is the older reading of, less than a second away; in any other case both are |
| TransferConvergence.CopyVerdict | app/services/account_transaction_sync.rb:329-370 | what a copy of a transfer does to the rows: nothing, a new row, or the pairing written on the row already there |
| TransferConvergence.OneRival | app/services/account_transaction_sync.rb:514-518 | where no other export entry of the call pairs with the API row, an export row is its only rival |
| TransferCalls.StrangerArrives | app/services/account_transaction_sync.rb:329-370 | an entry that matches none of the transfers, whatever it is, leaves each transfer's row where and as it is and adds none of theirs |
| TransferCalls.CallTracks | app/services/account_transaction_sync.rb:432-557 | each copy of such a call moves its own transfer's row from one status to the next and touches no other transfer's |
| TransferCalls.Converges | app/services/account_transaction_sync.rb:329-370 | for transfers whose copies pair with no other event's, from any ledger whose rows match none of them, every sequence of safe calls, in any order, with repeats across calls and with any other entries that match none of them, leaves exactly one row per transfer seen by either source, carrying what both said, and no other row that could be taken for one of theirs; with no other entries the rows that were there are untouched |
| TransferExactly.ConvergesExactlyWhen | app/services/account_transaction_sync.rb:72-73 | a call converges from every ledger that safe calls lead to, if and only if no export copy in it comes after an API copy that looks identical |
| TransferExactly.OneSourceIsSafe | app/services/account_transaction_sync.rb:329-370 | every call fed by one source alone is safe |
| TransferExactly.UnsafeCallStoresTwice | app/services/account_transaction_sync.rb:72-73 | any other call has a prefix after which, its export copy stored before, that transfer has two rows: the two copies share the count of identical entries |
| TransferExactly.MixedCallStoresTwice | app/services/account_transaction_sync.rb:72-73 | the two rows of one such call, written out |
| Reimport.ReimportAddsNothing | app/services/account_transaction_sync.rb:374-385 | storing an id-less batch a second time adds no row, from any ledger, when each entry that saves is covered by the identical ones before it and no entry that saves is settled by an older reading |
| ReimportExactly.ReimportExactlyWhen | app/services/account_transaction_sync.rb:374-385 | over all ledgers on which no entry that saves is settled by an older reading, a second import of an id-less batch adds nothing if and only if each entry that saves is covered by the identical ones before it |
| ReimportExactly.MixedKeyIsStoredAgain | app/services/account_transaction_sync.rb:500-521 | for every other batch, a ledger on which the second import stores a row: one that settles one of the key's two shapes and counts for none of the other |
| ReimportExactly.EachEntry | app/services/account_transaction_sync.rb:329-370 | on that ledger a fresh entry of the key is settled by its count alone, every other entry that saves is a duplicate, and no row changes |
| Reimport.FirstRunSettles | app/services/account_transaction_sync.rb:374-385 | what the first run leaves for an entry: its pairing, or a row for it and for each identical one before it |
| Reimport.MixedShapesAreStoredAgain | app/services/account_transaction_sync.rb:500-521 | one such batch and ledger: a plain entry and a transfer of one key against two API deposits; the second import stores a fourth row |
| Reimport.RowForEach | app/services/account_transaction_sync.rb:374-385 | through the first run every identical entry that came is matched by a row of its own, or its pairing is written down |
| Reimport.Settles | app/services/account_transaction_sync.rb:329-349 | an entry that saves is counted against rows from before the run, paired off, or stored |
| Reimport.ExactlyTheExcess | app/services/account_transaction_sync.rb:376-385 | of n identical plain entries against m matching rows already there exactly max(0, n - m) are stored |
| DustInvariant.StoreKeepsConversionsWhole | app/services/account_transaction_sync.rb:574-665 | every prefix of every batch leaves each export leg's id and each API leg's stamp shared with the opposite leg |
| DustInvariant.EveryLedgerIsPairedWhole | app/services/account_transaction_sync.rb:574-665 | so does every sequence of batches from an empty ledger |
| DustInvariant.ExportGroupWholeOrNot | app/services/account_transaction_sync.rb:612-631 | both legs of an export group carry an API id, or neither does |
| DustInvariant.ApiConversionWholeOrNot | app/services/account_transaction_sync.rb:633-660 | both rows of an API conversion are stamped with one date, or neither is |
| DustConvergence.LegArrives | app/services/account_transaction_sync.rb:574-665 | a leg of a conversion is stored, is known, or writes the pairing on both rows of the other source, and changes no other row |
| DustConvergence.OneLegPairsWithNothing | app/services/account_transaction_sync.rb:570-571 | while the other source's rows stand one leg short, an arriving leg is stored and pairs with nothing |
| DustConvergence.LoneExportLegIsStored | app/services/account_transaction_sync.rb:652-656 | so is an export leg whose group is not whole in the batch, beside a whole API conversion |
| DustStrangers.StrangerArrives | app/services/account_transaction_sync.rb:329-370 | an entry that is no leg of a conversion, whatever it is, leaves the conversion's rows where and as they are and adds none that could be one |
| DustStrangers.SweptCoinsAreStrangers | app/models/exchanges/binance.rb:832-855 | coins of one sweep whose BNB credits rounding cannot confuse are no legs of each other's conversions, nor are conversions more than three seconds apart |
| DustStrangers.TwoCoinsOfASweep | app/models/exchanges/binance.rb:832-855 | such a sweep of two coins, with its amounts |
| DustCalls.CallTracks | app/services/account_transaction_sync.rb:574-665 | every prefix of a safe call leaves each conversion held as the legs shown so far say |
| DustCalls.WholeCallsAreSafe | app/services/account_transaction_sync.rb:570-571 | calls that show each conversion whole, if at all, are safe |
| DustCalls.Converges | app/services/account_transaction_sync.rb:574-665 | for conversions that cannot be taken for each other, from any ledger whose rows match none of them, every sequence of safe calls, in any order, with repeats and with any other entries that match none of them, leaves one row for each leg seen: the copies of the source that came first, both carrying the pairing once the other came, and no other row that could be taken for one of theirs; with no other entries the rows that were there are untouched and nothing else is added |
| DustExactly.ConvergesExactlyWhen | app/services/account_transaction_sync.rb:566-573 | that is so after every call of a sequence if and only if each second source finds the first one's rows whole, and an export that comes second shows its group whole |
| DustExactly.UnsafeCallStoresBoth | app/services/account_transaction_sync.rb:570-571 | after any other call a conversion has rows of both sources |
| DustExactly.RunKeeps | app/services/account_transaction_sync.rb:496-498 | through any run a stored row only ever gains an id, if it has none, or a stamp |
| SyncWindow.WatermarkIsHeldBack | app/services/account_transaction_sync.rb:35-37 | after a sync the watermark is neither past the sync's start nor past the date of an entry that failed to save |
| SyncWindow.WatermarkIsExactly | app/services/account_transaction_sync.rb:35-37 | the watermark is the latest date when every dated entry was saved, the earliest that failed to save otherwise, unchanged when nothing is dated, and never past the sync's start |
| SyncWindow.AsksFrom | app/services/account_transaction_sync.rb:21-22 | a sync asks for everything from 25 hours before the watermark, or before its own start when that is earlier, as far as the venue's window reaches |
| SyncWindow.FirstSyncFetches | app/services/account_transaction_sync.rb:21-23 | over every run of successful and failed syncs and imports, an entry posted at most 25 hours after its own date is fetched by the first sync that starts after it is posted, if no watermark is set or the venue's window still reaches its date, and only if so where the venue answers with nothing older than asked for |
| SyncWindow.SkippedIsFetchedAgain | app/services/account_transaction_sync.rb:108-117 | an entry that failed to save is fetched again by the next sync whose window reaches its date |
| SyncWindow.NoHole | app/services/account_transaction_sync.rb:7-38 | so an entry posted in time is fetched by every later sync whose window reaches its date, until one of them saves it or finds it stored |
| TransferMatcher.Ledger.Run | app/services/transfer_matcher.rb:8-28 | after a run every open withdrawal, in id order, has the earliest candidate not taken before its turn, or nothing when all were; no other row changes; links stay one to one |
| TransferMatcher.EarliestExists | app/services/transfer_matcher.rb:22 | among free candidates one is the earliest |
| TransferMatcher.NewLinksAreValid | app/models/account_transaction.rb:199-212 | every link given passes the model's own validation and lost at most 2 percent |
| TransferMatcher.OnlyOpenWithdrawalsChange | app/services/transfer_matcher.rb:14-24 | a run leaves alone what was unlinked by hand, linked already, another user's or no withdrawal, changes nothing but links, and links only to a deposit of the currency within 72 hours and two percent |
| TransferMatcher.WhatCouldBeLinkedIs | app/services/transfer_matcher.rb:19-24 | every deposit that a withdrawal left unlinked could be is some other row's |
| TransferMatcher.EarliestIsGiven | app/services/transfer_matcher.rb:22 | every earlier deposit that a linked withdrawal could be was another row's before its turn |
| TransferMatcher.NoPairIsLeft | app/services/transfer_matcher.rb:14-23 | no withdrawal and deposit that could still be linked are left |
| TransferMatcher.SecondRunChangesNothing | app/services/transfer_matcher.rb:8-28 | a second run changes no row |
| TransferMatcher.OneOutcome | app/services/transfer_matcher.rb:17-23 | when no two deposits of a user and currency share a moment, the outcome is unique |
| TransferMatcher.FeesAreSmall | app/services/transfer_matcher.rb:15-21 | what the linked deposits received is between 98 and 100 percent of what their withdrawals sent |
| TickerRows.RecordsAreDeduplicated | app/models/market_data.rb:314-323 | a payload is refused exactly when one symbol spans asset classes, and what is kept repeats no pair, no class and display, and no symbol |
| TickerRows.UniqKeepsOneEach | app/models/market_data.rb:320-322 | dropping repeats keeps one of every key |
| TickerRows.UniqKeepsApart | app/models/market_data.rb:320-322 | elements told apart by another key stay apart |
| TickerRows.StaleNamesApart | app/models/market_data.rb:827-831 | no stale name of one row is a stale name of another |
| TickerImport.TickerTable.UpdateRow | db/schema.rb:502 | a write that would repeat another row's symbol is refused by the index |
| TickerImport.TickerTable.FreeHolder | app/models/market_data.rb:857-866 | the holder of a name another pair needs is moved aside and made unavailable in one write that no index refuses |
| TickerImport.TickerTable.FreeRecord | app/models/market_data.rb:851-867 | both holders of a record's names, as indexed before the pass, give them up, and no other row changes |
| TickerImport.TickerTable.FreeHolders | app/models/market_data.rb:844-868 | the first pass moves aside exactly the displaced rows, or leaves the table as it was when a symbol belongs to another class |
| TickerImport.TickerTable.AlignNames | app/models/market_data.rb:872-881 | the second pass gives every known pair its record's names and changes nothing else |
| TickerImport.TickerTable.Upsert | app/models/market_data.rb:345 | each record has its row, in place where the pair was known; every other row is as it was |
| TickerImport.TickerTable.Import | app/models/market_data.rb:326-348 | from any table that meets both indexes, no single write is refused, no row disappears, each record's pair carries its names, and only displaced rows are moved aside |
| TickerImport.TombstoneFree | app/models/market_data.rb:862-866 | a row can always be moved aside |
| TickerImport.FreeingClears | app/models/market_data.rb:850-868 | after the first pass whoever holds a record's names is the record's own row, swaps and cycles of names included |
| TickerImport.RenameFree | app/models/market_data.rb:872-881 | a record's own row can then take its names |
| TickerImport.InsertFree | app/models/market_data.rb:345 | and a pair without a row can get one |
| TickerImport.ImportTwice | app/models/market_data.rb:326-348 | the same records imported again change nothing |
| TickerImport.OwnRowIsRenamed | app/models/market_data.rb:872-885 | a record's own row is given its names, and is available |
| TickerImport.OtherRowsAreParkedOrKept | app/models/market_data.rb:849-868 | any other row whose symbol, or whose class, base and quote, a record claims is moved aside under its own id and made unavailable, and no other row is touched |
| TickerImport.RecordsAreListed | app/models/market_data.rb:326-348 | every record is listed, and every row added lists one |
| TickerImport.RefusedExactlyWhen | app/models/market_data.rb:854-857 | an import is refused exactly when a record's symbol is held by an asset of another class |
| BotActivityFeed.PageIsTop | app/services/bot_activity_feed.rb:47-64 | the rows fetched from each table, one more than the limit, merge into the next rows of the whole feed, and a next cursor is given exactly when more follow |
| BotActivityFeed.PredicateIsPast | app/services/bot_activity_feed.rb:66-76 | each table's own predicate is the feed order seen from the cursor |
| BotActivityFeed.FirstOfMerge | app/services/bot_activity_feed.rb:58-64 | the first n of a merge need no more than the first n of either side |
| BotActivityFeed.RestFromPlace | app/services/bot_activity_feed.rb:86-89 | a row's cursor has behind it exactly the rows that follow it |
| BotActivityFeed.PagesAreTheFeed | app/services/bot_activity_feed.rb:47-89 | following the cursor terminates and the pages joined are the whole feed in order, every shown row once, each page but the last full, however many rows share a time |
| BotActivityFeed.LaterPagesStay | app/services/bot_activity_feed.rb:58-76 | rows that arrive or go ahead of a cursor leave every page after it as it was |
| CandleCache.CandleSeriesCache.FetchSeries | app/models/candle_series_cache.rb:41-55 | a fetch answers and stores what `CandleCache.Fetch` says of the stored series and the venue's answers, with at most two venue calls |
| CandleCache.CandleSeriesCache.RefreshSeries | app/models/candle_series_cache.rb:59-73 | a refresh reads from the last stored candle, rebuilds when it was rewritten, else appends what is newer |
| CandleCache.CandleSeriesCache.RebuildSeries | app/models/candle_series_cache.rb:96-104 | a rebuild that fails or comes back empty leaves the stored series alone |
| CandleCache.CandleSeriesCache.Write | app/models/candle_series_cache.rb:129-133 | what is stored is tidied, and nothing is stored for an empty series |
| CandleCache.TidyKeepsFirst | app/models/candle_series_cache.rb:130 | tidying keeps the first candle given for each opening time |
| CandleCache.Tidy | app/models/candle_series_cache.rb:129-133 | the result ascends strictly and has exactly the opening times given |
| CandleInFields.NotAskedBefore | app/models/candle_series_cache.rb:41-55 | the venue is not asked until the candle after the last stored one has closed |
| CandleInFields.FirstAnswer | app/models/candle_series_cache.rb:59-73 | with nothing stored one answer is enough, and an empty one is not stored |
| CandleInFields.AskedAgainExactlyWhen | app/models/candle_series_cache.rb:84-91 | the whole history is asked for again exactly when the candle stored last now opens more than a tenth of a percent away |
| CandleInFields.AskedAgainWithoutOverlap | app/models/candle_series_cache.rb:84-86 | an answer without that candle leads to it only for a restated series |
| CandleInFields.FailedFirst | app/models/candle_series_cache.rb:63-64 | a first answer that fails leaves what was stored |
| CandleInFields.FailedRebuild | app/models/candle_series_cache.rb:97-104 | so does a rebuild that fails or finds nothing closed |
| CandleHistory.AgreesWithAFullFetch | app/models/candle_series_cache.rb:41-73 | on an immutable history, after any fetches, failures and evictions, a fetch that succeeds answers exactly the closed candles a full fetch would |
| CandleHistory.FetchKeepsOneBasis | app/models/candle_series_cache.rb:59-104 | a fetch from a series on one basis leaves one on one basis, when the venue has not moved or has moved far enough to be noticed |
| CandleHistory.EveryFetchIsOnOneBasis | app/models/candle_series_cache.rb:59-104 | so does every fetch of every run in which each tail read finds the venue on the stored series' basis or noticeably off it, with at most two venue calls |
| CandleHistory.VenueKeepsOneBasis | app/models/candle_series_cache.rb:59-104 | so does every fetch of every run of a venue that, each time it is asked, stands where it stood at each earlier call or noticeably off it: a condition on the venue alone |
| CandleHistory.OneMoveKeepsOneBasis | app/models/candle_series_cache.rb:81-104 | so does every fetch of every run in which the venue rescales at most once, by more than the tolerance, between two answers, and rebuilds succeed |
| CandleHistory.OneBasisExactlyWhen | app/models/candle_series_cache.rb:81-94 | a refresh that finds something new leaves a single basis if and only if the venue did not move or its overall factor since the stored candle is noticed |
| CandleHistory.UnnoticedRestatements | app/models/candle_series_cache.rb:81-94 | two rescalings that each exceed the tolerance can together stay inside it, and the series is then mixed |
| CandleHistory.MixedSeries | app/models/candle_series_cache.rb:81-94 | one such series of three candles, written out |
| Flatten.Flattener.ValuePath | rust/build.rs:224-242 | the path of a value, or none for a mapping key, and the frame's next position or key, as `Flatten.Place` says |
| Flatten.Flattener.StartContainer | rust/build.rs:249-258 | a container's path, its anchor and its problem when it is used as a key |
| Flatten.Flattener.OnEvent | rust/build.rs:245-288 | one event changes the stack, leaves, anchors and problems as `Flatten.Step` says |
| Flatten.Flattener.Load | rust/build.rs:245-288 | a sequence of events runs them in turn |
| FlattenTree.FlatteningIsTheWalk | rust/build.rs:222-288 | for every tree with non-empty, dot-free, distinct keys, whose aliases name completed values or nothing read so far, the machine ends with an empty stack, exactly the path-to-leaf map of the recursive walk with aliases substituted, and exactly the walk's problems |
| FlattenTree.RunNode | rust/build.rs:245-288 | below any stack and at any path, a node's events add that node's leaves and leave the stack as it was |
| FlattenTree.CopyIsWalk | rust/build.rs:278-283 | copying the leaves under an anchor's path is walking the marked value at the alias's path |
| FlattenTree.Reroot | rust/build.rs:280-283 | the leaves below a path do not depend on the path |
| FlattenTree.ProblemExactlyWhenUnreadable | rust/build.rs:267-276 | a problem is reported exactly when some plain leaf is a boolean or null or some alias names no value read before it, as one to an anchor on a key |
| FlattenInFields.BooleansAreSixWords | rust/build.rs:213-219 | a plain scalar is read as a boolean exactly when it spells one of six words, in any case |
| FlattenInFields.OnePairFile | rust/build.rs:224-273 | what a file of one key and one text gives: the name the key is read as, and a problem exactly when the text is a boolean or null |
| FlattenInFields.ContainerKeyIsReported | rust/build.rs:249-258 | a container where a key should stand is reported, and read as if at the top |
| FlattenInFields.AliasKeyIsReported | rust/build.rs:274-277 | so is an alias there, and nothing is copied |
| FlattenInFields.LeafUnderAKey | rust/build.rs:225 | a nested leaf stands under its key and a dot |
| FlattenInFields.LeavesByNumber | rust/build.rs:228-231 | a sequence's leaves stand under their numbers from 0 |
| FlattenInFields.NumeralsRead | rust/build.rs:230 | a number is written as the digits that stand for it |
| StatementScan.Scan | rust/migration_registry.rs:53-63 | the one-pass scan gives the text with every comment and quoted span of its reading blanked |
| StatementScan.SkipBlock | rust/migration_registry.rs:59 | the scan of a block comment, which remembers one character, stops past the first star and slash |
| StatementScan.ReadIsReading | rust/migration_registry.rs:53-63 | every text divides into code, comments and quoted spans |
| StatementScan.OneReading | rust/migration_registry.rs:53-63 | in only one way |
| StatementScan.EditChangesNothing | rust/migration_registry.rs:52-63 | any text put inside a comment or quoted span that closes nothing leaves the scan as it was |
| ScanInCharacters.CodeStays | rust/migration_registry.rs:62 | a character that opens nothing stays |
| ScanInCharacters.LineIsBlank | rust/migration_registry.rs:59 | a comment to the end of its line is a blank |
| ScanInCharacters.BlockIsBlank | rust/migration_registry.rs:60 | a block comment is a blank, to its first star and slash |
| ScanInCharacters.QuotedIsBlank | rust/migration_registry.rs:61 | quoted or bracketed text is a word that is no keyword |
| MigrationRegistry.EditKeepsWords | rust/migration_registry.rs:52-67 | and so the words of every statement, and whether the migration is refused |
| MigrationRegistry.ForbiddenExactlyWhen | rust/migration_registry.rs:34-50 | a migration is refused exactly when some text between semicolons, the first and the last included, is a forbidden statement |
| MigrationRegistry.ControlIsSeen | rust/migration_registry.rs:44-50 | a control keyword that begins a statement is seen in any letter case, be the statement the first, the last or any between |
| MigrationRegistry.TableChangeIsSeen | rust/migration_registry.rs:36-42 | so is a statement that alters or drops a table |
| MigrationRegistry.WordsAreRuns | rust/migration_registry.rs:65 | words are the runs of ASCII letters, in capitals, in the order they stand |
| MigrationRegistry.SplitOfJoined | rust/migration_registry.rs:64 | statements are split in the one way that has no separator in a part |
| MigrationRegistry.JoinedOfSplit | rust/migration_registry.rs:64 | and nothing of the code is lost |
| MigrationRegistry.FindStatement | rust/migration_registry.rs:37-50 | a forbidden statement is found exactly when there is one |
| MigrationRegistry.Load | rust/migration_registry.rs:8-32 | a directory loads as its sorted migrations, and is refused when any file that is not hidden is not acceptable or two share a version |
| MigrationRegistry.LoadedIsInOrder | rust/migration_registry.rs:8-32 | what loads is strictly ascending in version, disjoint from the Rails versions, one for each file, and free of forbidden statements |
| MigrationRegistry.SharedVersionIsRefused | rust/migration_registry.rs:27-30 | two files of one version are refused wherever they stand in the directory |
| MigrationRegistry.LoadsExactlyWhen | rust/migration_registry.rs:8-32 | a directory loads exactly when every visible file is named as a migration, of a version that is not Rails's, with nothing forbidden in it, and no two share a version |
| MigrationRegistry.VersionFound | rust/migration_registry.rs:18-20 | a name of fourteen digits, an underscore and a title gives its version |
| MigrationRegistry.VersionGiven | rust/migration_registry.rs:18-20 | and no other name gives one |
| WebhookCooldown.BotSignal.ClaimTrigger | app/models/bot_signal.rb:27-34 | a claim is won exactly when the rule was never called or not within the cooldown, and then stands in the row and in the record |
| WebhookCooldown.BotSignal.ReleaseTrigger | app/models/bot_signal.rb:38-43 | a claim is handed back only while the row still holds it |
| WebhookCooldown.Create | app/controllers/hooks_controller.rb:14-33 | alone on its rule, a call that could not be kept leaves the row as it found it, so its retry is not swallowed |
| WebhookCooldown.CooldownHolds | app/models/bot_signal.rb:27-42 | in every interleaving of requests quick enough, claims not handed back are a cooldown apart, and every one of them still turns away calls within its cooldown, whatever was released |
| WebhookCooldown.ReleaseKeepsInv | app/controllers/hooks_controller.rb:24-32 | a release that restores a stale value uncovers no other claim |
| WebhookCooldown.ApartExactlyWhen | app/controllers/hooks_controller.rb:18-32 | claims stay apart in every run if and only if an UPDATE never runs late after its now, or the longest load-to-UPDATE time and the longest now-to-UPDATE time together are under the cooldown |
| WebhookCooldown.OneRequest | app/models/bot_signal.rb:27-48 | one request alone: it claims exactly when 30 seconds have passed since the last claim, and a claim handed back restores what was loaded |
| WebhookCooldown.SlowRequestsMeet | app/controllers/hooks_controller.rb:18-32 | otherwise a run of three requests keeps two claims closer than the cooldown |
| IbkrLock.LockTable.ReclaimStale | app/models/ibkr_lock.rb:81-83 | only a row that had run out is deleted |
| IbkrLock.LockTable.Create | app/models/ibkr_lock.rb:44 | the unique index on the key decides |
| IbkrLock.LockTable.Release | app/models/ibkr_lock.rb:61-65 | only the owner's own row is deleted |
| IbkrLock.LockTable.Acquire | app/models/ibkr_lock.rb:39-56 | the first try that finds the key free or run out wins it, and a caller gives up at the first failed try past its deadline |
| IbkrLock.MutualExclusion | app/models/ibkr_lock.rb:24-37 | in every reachable state of many threads, two threads inside blocks for one key means that one of them has outlived its hold |
| IbkrLock.StepKeepsInv | app/models/ibkr_lock.rb:24-83 | every statement of every thread keeps each unexpired hold backed by its own row, and owners apart |
| IbkrLock.LateReleaseIsSafe | app/models/ibkr_lock.rb:58-65 | no release, however late, deletes a row that another hold rests on |
| IbkrLock.ReleaseFreesTheKey | app/models/ibkr_lock.rb:61-65 | a release that finds its own row frees the key, and only it |
| IbkrLock.ReleasedIsTakenAtOnce | app/models/ibkr_lock.rb:61-65 | so a waiting thread has the key with its next try |
| IbkrLock.BlockGivesTheKeyBack | app/models/ibkr_lock.rb:32-65 | leaving the block that took the key, and releasing, leaves the key free and the thread outside |
| LockBlocks.BlockTakesAFreeKey | app/models/ibkr_lock.rb:25-45 | a block for a key that is free or has run out is inside at once, with a row of its own that lasts its time from the clock, and takes nothing else |
| LockBlocks.BlockWaits | app/models/ibkr_lock.rb:39-51 | a block for a key that another holds changes nothing while it tries, and leaves everything as it was when it gives up |
| LockBlocks.NestedBlock | app/models/ibkr_lock.rb:25-26 | a block for a key the thread already holds is inside at once and ends without a release |
| LockBlocks.AbandonedRelease | app/models/ibkr_lock.rb:61-75 | a release that cannot be made leaves the row to run out |
| IbkrLock.NestedLeaveReleasesNothing | app/models/ibkr_lock.rb:25-26 | leaving a nested block leaves the row, the thread's hold and the outer block as they were |
| IbkrLock.ExpiredGivesWay | app/models/ibkr_lock.rb:42-45 | whatever became of its holder, a row keeps the key from others only until it runs out |
| RateLimiter.Middleware.CleanOldRequests | config/initializers/faraday_rate_limit_middleware.rb:34-36 | the stored times lose exactly those older than the interval at the moment each is asked about |
| RateLimiter.Middleware.Visit | config/initializers/faraday_rate_limit_middleware.rb:11-19 | over any number of visits on a clock that does not run back, no closed interval of that length holds more admitted calls than the limit, and the stored times stay sorted and within it |
| RateLimiter.AdmitKeepsLimit | config/initializers/faraday_rate_limit_middleware.rb:13-15 | one more call fits every window, since all the calls of its window are still stored |
| RateLimiter.PrunedForgetsOnlyOld | config/initializers/faraday_rate_limit_middleware.rb:34-36 | pruning forgets nothing of the last interval |
| RateLimiter.SleepIsExact | config/initializers/faraday_rate_limit_middleware.rb:16-18 | while the oldest stored call is within the interval nothing leaves a full window, and once it is past there is room |
| SparkSlopes.SettleAt | app/helpers/bot_helper.rb:114-128 | one visit of the in-place pass |
| SparkSlopes.Slopes | app/helpers/bot_helper.rb:110-131 | the array after the in-place pass is the fold of the visits over the secants |
| SparkSlopes.SettleIsGentle | app/helpers/bot_helper.rb:120-128 | a visit that does not rescale a slope it should have zeroed leaves both ratios non-negative, their squares summing to at most 9, and its first slope no steeper |
| SparkSlopes.PassIsGentle | app/helpers/bot_helper.rb:114-131 | and later visits keep it so |
| SparkSlopes.OverdoneStays | app/helpers/bot_helper.rb:122-128 | a visit that does rescale one leaves a slope against its secant that no later visit mends |
| SparkSlopes.SteadySlopes | app/helpers/bot_helper.rb:110-131 | on a series whose secants go one way no visit does |
| SparkCurve.ProgressRises | app/helpers/bot_helper.rb:95-106 | inside that circle the cubic never turns back |
| SparkCurve.HeightIsProgress | app/helpers/bot_helper.rb:97-103 | the drawn Bézier segment is the Hermite cubic of its two slopes |
| SparkCurve.SteadySeriesIsMonotone | app/helpers/bot_helper.rb:91-94 | a series that never changes direction is drawn monotone, every segment between its end ordinates |
| SparkCurve.NoOvershootExactlyWhen | app/helpers/bot_helper.rb:91-131 | the curve stays within its points on every segment if and only if no visit finds a slope of the wrong sign and rescales it |
| SparkCurve.SharpTurnOvershoots | app/helpers/bot_helper.rb:122-128 | a three-point series on which it does not |
| AllocationRing.RingPlaces | app/helpers/tracker_helper.rb:515-532 | the slices placed are the first of the queue until the ring is over full, in the order given, each span scaled alike |
| AllocationRing.PlaceQueue | app/helpers/tracker_helper.rb:519-528 | the queue stops at the first slice asked for when the ring is already over full |
| RingArcs.DashedRing | app/helpers/tracker_helper.rb:542-554 | one arc for each slice placed, walked in order, no arc reaching a later one nor the last the first a turn later |
| AllocationRing.DrawnOnceAround | app/helpers/tracker_helper.rb:515-532 | the spans drawn sum to the circumference, ascend in index, and number at most circumference / least span + 1 |
| AllocationRing.OnlyTheSmallestAreDropped | app/helpers/tracker_helper.rb:521-524 | whatever is not drawn is worth no more than anything drawn |
| AllocationRing.SqueezedByHalfAtMost | app/helpers/tracker_helper.rb:519-531 | with positive slices and room for one least span, no span drawn is under half the least |
| RingArcs.ArcsStayInTheirSpans | app/helpers/tracker_helper.rb:534-552 | so every arc of the ring lies in its own span, squeezed or not |
| RingArcs.ClearExactlyWhen | app/helpers/tracker_helper.rb:534-552 | an arc stands half a least span in from each end of its span if and only if the span is at least the least |
| RingArcs.CardDotIsNotClear | app/helpers/tracker_helper.rb:534-552 | a ring on the card whose dot does not |
| RingArcs.GapAfter | app/helpers/tracker_helper.rb:534-552 | between one arc and the next lies the least span, or the whole of a span squeezed below it |
| RingArcs.ArcsDoNotMeet | app/helpers/tracker_helper.rb:542-554 | over positive spans no arc reaches a later one |
| RingArcs.PositiveSpansAreApart | app/helpers/tracker_helper.rb:542-554 | nor, where they go once around, the last the first |
| RingArcs.ArcsOfTheRingAreApart | app/helpers/tracker_helper.rb:542-554 | and so of the arcs of every ring |
| AllocationRing.FoldingKeepsWorth | app/helpers/tracker_helper.rb:36-46 | the folded pieces are worth what the holdings are, and at most one is under the least share |
| CardInFields.PiecesOfTheCard | app/helpers/tracker_helper.rb:35-46 | a holding of two percent or more is a piece of its own; two or more under that become one grey piece, last |
| CardInFields.LonePieceStays | app/helpers/tracker_helper.rb:42 | a single one under two percent stays as it is |
| AllocationRing.CardDropsNothing | app/helpers/tracker_helper.rb:23-28 | with the card's constants every piece is drawn, whatever the portfolio |
| AllocationRing.ScaleIsOneExactlyWhen | app/helpers/tracker_helper.rb:505-511 | with every piece placed the scale is 1 exactly when none was lifted |
| AllocationRing.CardCanBeSqueezed | app/helpers/tracker_helper.rb:510-511 | a lone holding of one percent is lifted on the card, so its scale is not always 1 |

## Left out

- Reimport.ReimportAddsNothing: for runs in which no entry that saves is settled by the rules for older readings; with those rules identical rows of one second shift the repeat count.
- TransferCalls.Converges: a call shows each copy once, and entries or rows that match a copy of another transfer are not covered: two candidates are left as a visible double, as the source intends.
- PlainExactly.ExactlyTheExcessWithIds: for batches of plain entries with ids; transfers and sweeps are settled by their own rules.
- DustCalls.Converges: a call shows each leg once and a conversion from one source, and an export leg is the first entry of its key. Conversions that can be taken for each other (one coin twice within seconds, or BNB credits of one sweep that rounding can confuse) are not covered: two candidates are left as a visible double, as the source intends.
- DustExactly.ConvergesExactlyWhen: for the same calls and conversions.
- FlattenTree.FlatteningIsTheWalk: a container or an alias used as a key, and an alias inside the very container it names, are not covered.
- CandleHistory.EveryFetchIsOnOneBasis: for runs in which each move is noticed at the next tail read; `OneBasisExactlyWhen` shows that this is needed, and `VenueKeepsOneBasis` states it of the venue alone.
- CandleHistory.OneMoveKeepsOneBasis: where a rebuild fails the stored series keeps its older basis, so two moves can lie between it and the next tail read.
- TickerImport.TickerTable.Import: for incoming symbols and bases without the stale prefix, and stored stale names that carry their own row's id.
- IbkrLock.MutualExclusion: a hold's lifetime is counted from the clock reading its row was written with, so a stall between the reading and the insert shortens it.
- BotActivityFeed.Load: the cursor's text form (`Cursor.parse`, `to_param`) is not modelled; a cursor is its three values.
- RateLimiter.Middleware.Visit: the retry loop of `call` around it is any number of visits by any number of callers; the sleeping itself is not modelled.
- RingArcs.DashedRing: rounding to two decimals, contrast and the rotation by the start offset's sign are left out; an arc is where it starts and how long it is.
- SparkSlopes.Slopes: the square root is a parameter with a square root's property, and rounding of the path text is left out.
- The second attempt of each pairing (`2.times`): between a read and its compare-and-set no other writer comes, so the first attempt decides.
- Rewriting legacy ids before a batch (`rekey_legacy_ids!`) and refusing unreadable amounts (`refuse_unreadable_amounts!`).
- Matching a stored row to a bot's own order, announcing splits, resolving assets and reporting progress: they do not change which rows are stored.
- An API deposit without a date: the source raises on it, the model pairs it with nothing.
- Ids of merged legs are remembered from one call to the next, as one service object does.
- `LIKE 'dust-%'` and `LIKE 'dustcsv%'` are read as case-sensitive prefixes.
- Decimal precision, floating point, display rounding, and JSON and SQL encodings: amounts are reals.
- The sort of slices, rows or candidates that tie: any order that respects the sort is allowed.
- A candle fetch asks for the time once; the venue's two answers may still differ in basis.
- YAML files of several documents, and the parser that makes the events.
- The texts of migration errors and the file-system errors of reading a directory.
- Lock waits while the database is busy: a busy release is a row left to run out.
- The asset filter, decimals filter and exchange assets of `import_tickers!`, and its market-size columns: records are what passes the filter.
- Exchange and market-data clients, broadcasts, views, bot ordering, FIFO and tax engines, and the engine handover.
