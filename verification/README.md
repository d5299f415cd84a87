# Verified model of the WACS log database

WACS records which Wi-Fi clients were seen by which access point and when. The records live in
one ordered key-value map that holds three families of keys: `L` (log record, by MAC and time),
`P` (last probe, by MAC) and `T` (notification, by MAC). Every query is a cursor scan that seeks
a computed key, walks upwards, skips some rows and stops early at others. This project models
the store, its transactions and scans, the HTTP and command line requests built on them, the
histogram, the MAC text conversions and the SQL backend's filter, and proves what they compute.

`dafny verify dfyconfig.toml` checks the whole project.

## How the model is built

- **Bytes, Keys.** Keys are byte strings in the library's byte order. A log key has 16 bytes:
  tag, MAC, a padding byte, and a 64-bit field that holds the big-endian 32-bit time; padding is
  taken as zero. A notification key is written with the size of a log key from a smaller
  structure (`dblog.cpp:881-886`), so its last nine bytes are arbitrary parameters.
- **Rows, Cursors, Lmdb.** The store is the sequence of its rows in strictly ascending key order.
  `Lmdb.DbEnv` states what is trusted of the library: one write transaction, range seek gives the
  least key not before the sought one, next gives the least key after the one last returned
  (deleted since or not), commit publishes, abort and a failed commit discard. Each call picks
  its answer freely; a full map may be reported at any write or commit. The answers are recorded,
  and a script may fix the first ones. Ghost counters record what happened: `hard` (failures that
  enlarging the map cannot cure, a second full map right after a restart among them), `full` and
  `commitFull` (full maps), `missed` (deletions under the cursor that failed), `dropped` (accepted
  writes discarded with their transaction).
- **Courses.** What `putLog`, `putLogEntries`, `rmLog` and `rmNotification` make of the library's answers, as
  a function of them.
- **LogStore, OtherScans.** What each scan selects, as functions on the rows, and the theorems that
  compare this with the filter that was asked for.
- **DbLog, DbNotes, DbRead.** The calls of `dblog.cpp` as methods on `DbEnv`, proved against those
  functions. The time of a key too short to hold one is read from whatever follows it in memory:
  `DbRead.ReadJudge` takes an arbitrary value each time.
- **Callbacks.** A callback pointer with its environment is a value of `OnLog`; the environments are
  classes. `Feed` is what a sequence of calls does until one asks to stop.
- **Index, Runs, Agreement.** The tie between the `P` index and the `L` records over all runs.
- **Paging, Http, Wacsc, Histogram, Json.** The requests over several filters.
- **Guards.** The requests that are answered as documented on every store that some run leaves.
- **Scripts.** Calls on a database whose library answers by a script.
- **MacText, PgLog.** MAC text and the SQL filter. `MacText.WrittenAs` says which texts write which bytes,
  and `PgLog.Where` what a condition selects, without the functions that parse or build them.
- **JsonReader, Answers.** A reader of JSON and of decimal numbers that knows nothing of the writers, and with
  it what a client of the HTTP service gets: each answer is read back and compared with the stored records.

## Where the code does less than its documentation says

The code is modelled as it is. For each of these the project has a theorem that says exactly
when the documented behaviour holds. "Every store" is every store that a run of the program leaves.

- `readLog` seeks before it puts the two ends of the range in order. With a full MAC and reversed
  ends it reports at most the record at the start time (`LogStore.ReadReversed`, per store
  `LogStore.ReadIsExact`, over every store `Guards.ReadGuard`).
- `rmLog` seeks a zero-padded MAC with the start time, so reversed ends make it miss records of
  that MAC for every prefix length (per store `LogStore.RmIsExact`, over every store `Guards.RmGuard`).
- `rmLog` and `rmNotification` do not look at the result of a deletion and count it in any case, and they
  return the error of a cursor that does not open as it is: a system error is positive, as a count is. A
  result that is not negative is the number of rows removed exactly when every call to the library
  succeeded (`DbLog.RmLog`, `DbNotes.RmNotification`), and so is the number of records or notifications that the tool
  prints (`Wacsc.RmLogs`, `Wacsc.NotificationRm`). How many deletions failed is told by the answers (`Courses.RemoveLoses`).
  Examples: `Scripts.CountWithoutRemoval`, a refused deletion that is counted, and `Scripts.ErrorForACount`, 12
  records "removed" for lack of memory. The first is an outcome that the model permits: it lets the
  library commit a transaction in which a deletion failed.
- `readLastProbe` does not test the tag and reports long enough notifications as last probes (per store
  `OtherScans.ProbeScanIsExact`, example `OtherScans.NoteTakenForProbe`). No request is safe on every
  store (`Guards.ProbeGuard`), every request is after a run that sets no notification (`Guards.ProbesWithoutNotes`).
- `putNotification` is documented to clear with an empty text, but the last nine bytes of its key are
  whatever is in memory. A notification that is set is then cleared, or replaced by a second one,
  exactly when those bytes are the same both times and no other of its MAC was stored before
  (`DbNotes.SetThenClear`, `DbNotes.SetTwice`).
- `putLog` and `putLogEntries` may report success although a restart dropped the first writes of
  the call. Nothing is dropped exactly when no call after the first put is refused for a full map
  (`Courses.PutLogLoses`, `Courses.BatchLoses`); after a refused commit `putLog` succeeds with nothing
  stored. What is then missing: `Index.RecordSurvives` for one record, `Index.BatchIsStored` for a
  batch; example `Scripts.SuccessWithoutRecord`.
- A page whose offset plus count exceeds 64 bits comes out empty (`Paging.PageGuard`). A negative count
  is taken modulo 2^64, and so exceeds them exactly when the offset is at least its absolute value:
  with offset 0 a count of -1 gives every record.
- The repository's README.md:135 limits a page to 1000 records. It is only the default of a count that the
  request leaves out (`Guards.PageLimit`, example `Guards.CountOf1001`).
- A histogram without a finish (zero means no limit for the scan) or with reversed ends counts
  nothing or too little (`Guards.HistogramGuard`); with 2^31 or more whole steps its index wraps
  (`Histogram.IndexGuard`, `Histogram.Coarsening`). Its labels are right exactly when the last slot starts
  less than 2^31 seconds after the first (`Histogram.LabelGuard`, example `Histogram.WrongLabel`).
- `notificationRm` ends its loop at the first count that is not zero, so only one filter's notifications
  are removed (per store `Wacsc.NotificationRmIsExact`, over every store `Guards.NotificationGuard`,
  example `Guards.TwoFilters`).
- `strtomacaddress` is documented to return 0 to 6, but returns -1 for a blank text and for no other
  (`MacText.BlankText`). `rmNotification` copies so many bytes, and the process ends. The blank text is
  the tool's filter when it is given none (`wacsc-config.cpp:167-168`), so that a plain removal of
  notifications never works (`Guards.DefaultFilterCrashes`, and `Guards.NotificationGuard` for the guard).
- The SQL `readLog` expects the status of a command from its SELECT, and so reports no row
  (`PgLog.ReadLog`).

## Model

| member | source | states |
|---|---|---|
| Bytes.BEOrder | dblog.cpp:209-213 | big-endian bytes compare as the numbers they stand for |
| Keys.LogKeyRoundTrip | dblog.cpp:207-218 | decoding a log key gives back its MAC and time |
| Keys.LogKeyDecodes | dblog.cpp:504-510 | every well-formed log key is the encoding of what is decoded from it |
| Keys.LogKeyOrder | dblog.cpp:207-218 | the byte order of log keys is the order of (MAC, time) |
| Keys.TagOrder | dblog.h:61-78 | all keys of one family come before all keys of the next |
| Keys.BlockContiguous | dblog.cpp:464-473 | keys of one tag and MAC prefix form one block, beginning at the seek key |
| Keys.PastBlock | dblog.cpp:511-513 | a scan that left the block never meets it again |
| Rows.PutAllMeaning | dblog.cpp:331-392 | after many writes each key has its last written value or, unwritten, its old row |
| Rows.RestIsAll | dblog.cpp:331-392 | leaving out the first writes of a list changes nothing exactly when each is overwritten later or stored before |
| LogStore.LogValRoundTrip | dblog.cpp:220-222 | device and signal survive being stored |
| LogStore.SeekSkips | dblog.cpp:448-473 | exactly which keys of a prefix lie before the seek keys of `readLog` and `rmLog` |
| LogStore.StopAtPrefix | dblog.cpp:511-513 | stopping at a foreign MAC loses no wanted record |
| LogStore.StopAtTime | dblog.cpp:514-517 | with a full MAC, stopping behind the range loses no wanted record |
| LogStore.StopAtTag | dblog.cpp:523-524 | stopping at another family loses no wanted record |
| LogStore.ReadIsExact | dblog.cpp:448-531 | `readLog` reports exactly the wanted records if the ends are in order or the MAC is partial, and otherwise exactly when no record lies before the seek key; which records are wanted is told by `LogStore.ReadReports` |
| LogStore.ReadReports | dblog.cpp:448-531 | for any arguments `readLog` reports exactly the stored records of the MACs with the prefix at times between the ends (a finish of zero being no end), with a full MAC only those from the start on |
| LogStore.ReadReversed | dblog.cpp:484-499 | full MAC, reversed ends: only the record at the start time |
| LogStore.RmIsExact | dblog.cpp:567-650 | `rmLog` deletes exactly the wanted records and keeps the rest if the ends are in order, and otherwise exactly when none lies before the seek key; nothing is lost or doubled; which rows stay is told by `LogStore.RmLeavesRow` |
| LogStore.RmLeavesRow | dblog.cpp:567-660 | for any arguments `rmLog` leaves exactly the rows that are no records of the MACs with the prefix at times between the ends, and those before the start of the zero-padded MAC |
| LogStore.LogReportsAscend | dblog.cpp:501-531 | reports come in strictly ascending (MAC, time) order, none twice |
| LogStore.LogReported | dblog.cpp:411-419 | a report is made exactly for the stored records with that prefix and a time in range |
| OtherScans.ProbeRowsMembers | dblog.cpp:729-765 | the rows reported as last probes are the wanted ones and the leaking notifications |
| OtherScans.ProbeScanIsExact | dblog.cpp:729-765 | `readLastProbe` is exact exactly when no notification leaks, so always without notifications |
| OtherScans.AllNotesLeak | dblog.cpp:746-765 | without a MAC filter every long enough notification in the range leaks |
| OtherScans.NoteTakenForProbe | dblog.cpp:746-765 | a store with one notification and no probe reports one probe |
| OtherScans.NotesAreTheTail | dblog.cpp:947-979 | the rows from the seek key of `lsNotification` on are exactly the notifications |
| OtherScans.StopAtNote | dblog.cpp:1041-1046 | the first row that is not a notification of the prefix ends the block |
| OtherScans.DeleteThenRead | dblog.cpp:567-660 | `rmLog` deletes as many as `readLog` reports, which then reports none; any other filter's reports are the old ones without the deleted, in order; probes and notifications stay |
| OtherScans.RangeSymmetry | dblog.cpp:737-744 | swapped non-zero ends: no difference for last probes and partial MACs, and exactly when for full MACs |
| Cursors.DeleteStep | dblog.cpp:648-650 | deleting under the cursor is one step of thinning the rows |
| Cursors.NextStep | dblog.cpp:648-650 | from a kept or deleted row the cursor goes to the row that followed it |
| Lmdb.DbEnv.Begin | dblog.h:25 | trusted: a transaction sees the committed rows |
| Lmdb.DbEnv.PutRow | dblog.h:30 | trusted: an accepted write replaces or inserts its row |
| Lmdb.DbEnv.DelKey | dblog.h:31 | trusted: deletes a stored key, or reports it not found |
| Lmdb.DbEnv.Commit | dblog.h:26 | trusted: publishes all writes, or discards them |
| Lmdb.DbEnv.Abort | dblog.h:27 | trusted: discards all writes |
| Lmdb.DbEnv.SetRange | dblog.h:8 | trusted: the least key not before the sought one |
| Lmdb.DbEnv.Next | dblog.h:10 | trusted: the least key after the one last returned |
| Lmdb.DbEnv.CursorDel | dblog.h:34 | trusted: deletes the row under the cursor, which keeps its place, or fails and leaves the row |
| Courses.PutLogLoses | dblog.cpp:183-306 | a successful `putLog` has lost a write exactly when a full map was reported after its first put, and both exactly when at the commit |
| Courses.BatchLoses | dblog.cpp:313-408 | the same for a batch: nothing is lost exactly without a full map after the first put |
| Courses.RemoveLoses | dblog.cpp:618-661 | a removal that succeeds has missed as many rows as it was given other answers than good ones, so none exactly when all were good |
| Courses.CourseDecides | dblog.cpp:183-306 | answers that begin with a whole course of `putLog` fix its outcome and the answers it takes |
| Courses.RemoveDecides | dblog.cpp:550-661 | the same for a removal |
| DbLog.ProcessMapFull | dblog.cpp:52-101 | drops the transaction; a new, empty one is open exactly when four calls are answered well; committed rows never change |
| DbLog.EntryIsStored | dblog.cpp:207-225 | an entry stored without loss is a record with its MAC, device and time and its signal modulo 256, which is the signal itself in -128..127; the MAC's last probe is the time; every other row is as it was |
| DbLog.PutOrRestart | dblog.cpp:234-250 | a put succeeds unless a failure cannot be cured; the transaction then holds all writes but the first, dropped ones |
| DbLog.PutPair | dblog.cpp:358-389 | the two writes of a record; the error code tells which of them failed |
| DbLog.CommitOrRestart | dblog.cpp:286-303 | exactly after a full map all writes are dropped, and success then leaves the committed rows unchanged |
| DbLog.PutLog | dblog.cpp:183-306 | all or nothing on errors, with the code of the write or call that was refused; on success the two writes less the dropped ones, and with nothing dropped the entry itself (`DbLog.EntryIsStored`); its course as a function of the library's answers; loses nothing exactly without a full map after the first put, everything exactly with one at the commit |
| DbLog.PutPairs | dblog.cpp:331-392 | the loop of a batch: all its writes are held, less the dropped ones, or it has failed |
| DbLog.PutLogEntries | dblog.cpp:313-408 | the same for a batch, which returns its size; exactly when it fails, with the code of the write or call that was refused, and when it loses a write |
| DbLog.BatchIsItsParts | dblog.cpp:331-392 | a batch stores what its parts store one after the other |
| DbLog.OpenCursor | dblog.cpp:441-483 | a transaction and a cursor, or an error with no transaction left open |
| DbLog.PrefixOfLength | dblog.cpp:574-582 | the prefix of a MAC that a scan filters by has the length asked for, within zero and six |
| DbLog.RmJudge | dblog.cpp:619-643 | each test of the loop stops, skips or deletes only where the filter allows it |
| DbLog.DeleteCounted | dblog.cpp:648-649 | one row deleted, or spared by a failure, and counted in both cases |
| DbLog.RmScan | dblog.cpp:618-650 | the loop counts exactly the wanted rows from the seek key on and deletes them but for those whose deletion failed, one answer for each |
| DbLog.RmLog | dblog.cpp:550-661 | the whole new store and the result; a result that is not negative is the number removed exactly when no call failed; its course as a function of the library's answers; on a negative result nothing changed |
| DbNotes.PutNotification | dblog.cpp:865-920 | sets or clears one key; exactly when it fails; errors change nothing |
| DbNotes.SetThenClear | dblog.cpp:865-920 | setting and clearing leaves no notification of the MAC exactly when both keys end alike and no other was stored |
| DbNotes.SetTwice | dblog.cpp:865-920 | setting twice leaves the second notification alone exactly under the same condition |
| DbNotes.RmNoteScan | dblog.cpp:1039-1049 | the loop counts exactly the block of the prefix and deletes it but for the rows whose deletion failed |
| DbNotes.RmNotification | dblog.cpp:994-1058 | removes exactly the notifications of the prefix, whatever the key tails; a result that is not negative is the number removed exactly when no call failed; exactly a negative length ends the process, with nothing changed |
| DbNotes.NotesLeft | dblog.cpp:1028-1049 | a row goes exactly when it is a notification of a MAC with the prefix |
| DbNotes.LsNoteScan | wacsc.cpp:176-188 | the loop with its callback prints the rows from the seek key on, in order, and only the first when the user has interrupted |
| DbNotes.LsNotification | dblog.cpp:927-988 | lists exactly the notifications in key order, or reports not found; the lines are told by `DbNotes.NotesListed` |
| DbNotes.NotesListed | wacsc.cpp:176-188 | a MAC and a text are listed exactly when the store has that text as a notification of that MAC |
| DbRead.ReadJudge | dblog.cpp:501-528 | each test stops, skips or reports only where the filter allows it, whatever time a short key seems to have |
| DbRead.Deliver | dblog.cpp:529-530 | one call of the callback extends what it has been fed |
| DbRead.ReadScan | dblog.cpp:501-531 | the loop feeds exactly the reached records to the callback, until it asks to stop |
| DbRead.ReadLog | dblog.cpp:420-540 | the callback's final state, the result, and that the store is unchanged |
| DbRead.ProbeJudge | dblog.cpp:746-763 | the tests of the last-probe loop |
| DbRead.ProbeScan | dblog.cpp:746-765 | the loop feeds exactly the rows of its stretch |
| DbRead.ReadLastProbe | dblog.cpp:672-774 | the callback's final state, the result, and that the store is unchanged |
| MacText.MacToStr2 | hostapd-log-entry.cpp:58-75 | the text of the first bytes, without the last colon |
| MacText.PrintersAgree | hostapd-log-entry.cpp:38-75 | both printers write a whole MAC alike |
| MacText.TextPrefix | hostapd-log-entry.cpp:38-75 | the text of p is a prefix of the text of m exactly when p is a byte prefix of m |
| MacText.StrToMacAddress | hostapd-log-entry.cpp:94-111 | of a text that begins as `MacText.WrittenAs` says, in either case, with one or two digits, it reads exactly those bytes and their number, and whatever it reads is written so; zeros after what is read; negative exactly for a blank text |
| MacText.HexMeaning | hostapd-log-entry.cpp:99-105 | a digit of either case has its value, and nothing else is a digit |
| MacText.ConvertReads | hostapd-log-entry.cpp:99-105 | one conversion reads a group of two digits, one digit, or a sign and a digit as its byte, after white space |
| MacText.ConvertMeans | hostapd-log-entry.cpp:99-105 | and whatever it reads is such a group |
| MacText.WrittenIsRead | hostapd-log-entry.cpp:94-111 | a text that writes up to n bytes is read as them |
| MacText.ReadIsWritten | hostapd-log-entry.cpp:94-111 | the bytes that are read are written at the head of the text |
| MacText.PrintedIsWritten | hostapd-log-entry.cpp:38-75 | the printed text of a prefix writes it |
| MacText.ShortGroups | hostapd-log-entry.cpp:94-111 | "2:0:A" reads 2, 0, 10 |
| MacText.BlankText | hostapd-log-entry.cpp:94-111 | the result is negative exactly when the text is all white space |
| MacText.TextRoundTrip | hostapd-log-entry.cpp:94-111 | parsing a printed prefix reads its bytes and their number |
| Json.ClosedList | http-server.cpp:272-274 | blanking the last comma gives a well-formed list of the items |
| JsonReader.DecRoundTrip | http-server.cpp:208-213 | a printed number consists of digits and reads back as itself, a negative one too |
| JsonReader.ReadListText | http-server.cpp:256-274 | a closed list of objects reads back as those objects in their order |
| JsonReader.ReadNumberTexts | http-server.cpp:256-274 | a closed list of numbers reads back as those numbers |
| Seqs.SortedKeysOf | histogrammacspertime.cpp:73 | buckets are visited once each, in ascending order |
| Histogram.HistogramMacsPerTime.constructor | histogrammacspertime.cpp:30-34 | an empty histogram with a positive step |
| Histogram.HistogramMacsPerTime.Put | histogrammacspertime.cpp:49-56 | one more in the bucket of a time in range |
| Histogram.HistogramMacsPerTime.ToJson | histogrammacspertime.cpp:69-85 | the list of the buckets in order; `Answers.HistogramReadBack` reads it back, `Histogram.LabelGuard` says when the labels are right |
| Histogram.HistogramMacsPerTime.Size | histogrammacspertime.cpp:40-43 | the number of whole slots, for ends in order: the index of the finish, or one more when the last slot is whole; for reversed ends a number near 2^64, or zero |
| Histogram.SlotIsTimeSlot | histogrammacspertime.cpp:40-56 | bucket i is the time slot [start + i step, start + (i+1) step); no index exceeds the number of whole slots |
| Histogram.IndexGuard | histogrammacspertime.cpp:54 | indices are right exactly with less than 2^31 whole steps |
| Histogram.LabelGuard | histogrammacspertime.cpp:75-78 | every label is the start of its slot exactly when the last slot starts less than 2^31 seconds after the first |
| Histogram.WrongLabel | histogrammacspertime.cpp:75-78 | an indexable range whose bucket 2^30 has a negative label |
| Histogram.BucketCount | histogrammacspertime.cpp:49-56 | a bucket holds the number of times put into its slot |
| Histogram.TotalCount | histogrammacspertime.cpp:49-56 | the buckets add up to the number of times in range |
| Histogram.Coarsening | histogrammacspertime.cpp:49-56 | with k times the step every bucket is the sum of k buckets, for all times, exactly with less than 2^31 whole steps or k = 1 |
| Callbacks.HttpReqEnv.OnReqLog | http-server.cpp:187-216 | one record skipped, written as JSON, or refused |
| Callbacks.HttpReqEnv.OnReqLogCount | http-server.cpp:218-230 | one record counted |
| Callbacks.WacscReqEnv.OnLog | wacsc.cpp:117-146 | one record skipped, printed, or refused |
| Callbacks.WacscReqEnv.OnLogCount | wacsc.cpp:148-160 | one record counted |
| Callbacks.OnLog.Call | dblog.h:109-115 | a call through the pointer is one step of the callback's state |
| Callbacks.FeedAppend | dblog.cpp:529-531 | feeding two runs of records is feeding their concatenation, unless stopped |
| Paging.WalkWindow | http-server.cpp:198-206 | one scan emits the records whose running positions lie in the page |
| Paging.PageIsSlice | http-server.cpp:251-265 | over all filters exactly positions offset to offset+count-1 of the concatenated scans |
| Paging.WrappedPageIsEmpty | http-server.cpp:204-205 | a page end beyond 64 bits emits nothing |
| Paging.PageGuard | wacsc.cpp:127-135 | the page is the slice exactly when its end fits 64 bits or it begins behind the last record |
| Paging.PagesJoin | http-server.cpp:198-206 | over any scans, the answer to a page followed by the answer to the next one is the answer to both |
| Paging.HistogramFeedAll | http-server.cpp:306-312 | every record of every filter's scan is put |
| Paging.WacscCountFeedAll | wacsc.cpp:148-160 | the sum is the number of records of all scans, in 64 bits |
| Http.ScanFilter | http-server.cpp:257-262 | the text of a filter selects by the bytes it parses to; what is reported is told by `Answers.LogAnswer` and `Answers.ProbeAnswer` |
| Http.PageLoop | http-server.cpp:257-265 | the loop of a record request |
| Http.CountLoop | http-server.cpp:257-265 | the loop of a count request prints running totals |
| Http.List | http-server.cpp:232-276 | the whole answer text of log and last-probe requests; `Answers.RecordAnswer` and `Answers.CountAnswer` read it back |
| Http.PageAnswer | http-server.cpp:251-265 | the answer is the page asked for exactly when its end fits or it is behind the last record |
| Http.MacsPerTime | http-server.cpp:292-319 | the histogram after all scans |
| Http.HistogramRequest | http-server.cpp:535-548 | the whole answer text of a histogram request; `Answers.HistogramAnswer` reads it back |
| Http.HistogramCountsAll | http-server.cpp:278-312 | with ends in order and a finish, every reported record is counted and the buckets add up to them |
| Http.HistogramBucket | http-server.cpp:278-312 | each bucket is the number of selected log records in its slot, summed over the filters |
| Answers.LogAnswer | http-server.cpp:257-262 | for a filter that writes a MAC prefix a log request reports exactly the stored records of those MACs, with device and signal, at times between the ends (with a full MAC from the start on) |
| Answers.ProbeAnswer | http-server.cpp:346-352 | without notifications a last-probe request reports exactly the last probes of those MACs at times between the ends, without data |
| Answers.ProbesHaveNoData | http-server.cpp:346-352 | with or without notifications a last-probe request reports no data |
| Answers.ScansAt | http-server.cpp:257-262 | one scan for each filter, in their order |
| Answers.ReportsReadBack | http-server.cpp:207-215 | the text of a list of reports, read as JSON, shows the MAC, the time and, if there are any, device and signal of each, in their order |
| Answers.CountInForce | http-server.cpp:251-253 | a request without a count gets the configured one, a positive count is itself, a negative one is taken modulo 2^64 |
| Answers.RecordAnswer | http-server.cpp:232-276 | a record request's answer, read as JSON, shows the records at the positions asked for among those of all filters |
| Answers.TotalNext | http-server.cpp:263-264 | each filter adds its number of records to the total |
| Answers.CountAnswer | http-server.cpp:256-274 | a count request's answer, read back, is the totals so far from the first filter on that brought a record |
| Answers.HistogramReadBack | histogrammacspertime.cpp:69-85 | a histogram's text, read as JSON, shows each bucket's label under t and its count under c, in order |
| Answers.HistogramAnswer | histogrammacspertime.cpp:49-85 | where the labels are right: one object for each slot with a time in range, ascending, with the slot's start and the number of times in it |
| Index.AfterPair | dblog.cpp:253-258 | a record's two writes, or the second alone, keep every MAC's last-probe entry |
| Index.SuffixKeepsEntries | dblog.cpp:331-392 | so does any number of dropped first writes of a batch |
| Index.SuffixKeepsIndex | dblog.cpp:331-392 | with rising times the entries stay at or after every record |
| Index.RecordSurvives | dblog.cpp:286-303 | after success the record is stored exactly when no call after the first put was refused for a full map, its last probe exactly when the commit was not; or if they were stored before |
| Index.BatchIsStored | dblog.cpp:331-407 | after success the store is the one asked for exactly when every lost write that is not replaced later was stored before |
| Index.RemovalKeepsIndex | dblog.cpp:618-650 | removing log records or notifications keeps the index |
| Index.NotFoundMeansEmpty | dblog.cpp:601-607 | not-found at a log seek key means that the store is empty |
| Runs.Perform | dblog.cpp:183-408 | every storing or removing call is a step of the state machine, whatever the library answers, and a put that drops no write, or meets no full map, a clean one |
| Runs.RunKeepsEntries | dblog.cpp:52-101 | in every state of every run every MAC with a log record has a last-probe entry |
| Runs.RunKeepsIndex | dblog.cpp:234-303 | with times that never decrease the entry is at or after every record of its MAC |
| Agreement.CleanRunKeepsLogged | dblog.cpp:373-377 | puts without loss: every last probe is the time of a log record |
| Agreement.LastProbeIsLatestLog | dblog.cpp:746-765 | after a run of clean puts a last probe is reported exactly for the latest time `readLog` reports, each MAC once |
| Agreement.ProbeReads | dblog.cpp:729-765 | without notifications, for any arguments: `readLastProbe` reports exactly the last probes of the MACs with the prefix at times between the ends, and no data |
| Agreement.BatchMeans | dblog.cpp:331-392 | after a batch that lost nothing each MAC and time has the data of the batch's last record with them, each MAC its last time, or else what it had |
| Wacsc.ReadFilter | wacsc.cpp:207-209 | the scan of one filter |
| Wacsc.EarlyExitLosesNothing | wacsc.cpp:210-213 | breaking off after a not-found leaves out empty scans only, as the store is empty |
| Wacsc.EarlyExitNeedsIndex | wacsc.cpp:210-213 | without the index the early exit would lose a record |
| Wacsc.LsLog | wacsc.cpp:190-223 | the callback gets what all filters' scans report, in spite of the early exit; the result |
| Wacsc.PrintedPage | wacsc.cpp:127-145 | the printed lines are the page asked for, exactly when its end fits or it is unlimited or empty |
| Wacsc.RmAllIsExact | wacsc.cpp:238-249 | with ends in order, exactly the records selected by some filter are removed |
| Wacsc.NotFoundWhileRemoving | wacsc.cpp:243-246 | a filter meets not-found exactly if the store was empty from the start |
| Wacsc.RmLogs | wacsc.cpp:225-256 | the whole new store and the number removed, or not-found for an empty store, in spite of the early exit; the number printed is right exactly when no call failed |
| Wacsc.NotificationRm | wacsc.cpp:490-524 | only the first filter that selects a notification removes any, and the count is theirs; it is right exactly when no call failed; a blank filter met before it ends the process |
| Wacsc.NotificationRmIsExact | wacsc.cpp:503-516 | the notifications of all filters are removed exactly when the filter that ends the loop is not blank and selects them all, or there are none |
| Wacsc.MacsPerTime | wacsc.cpp:366-393 | the histogram after all scans |
| Guards.ReadGuard | dblog.cpp:484-499 | over every store, `readLog` meets its filter exactly for a partial MAC or ends in order |
| Guards.RmGuard | dblog.cpp:583-616 | over every store, `rmLog` meets its filter exactly for ends in order |
| Guards.HistogramGuard | http-server.cpp:537-538 | over every store, a histogram request counts every reported record exactly with ends in order and a finish |
| Guards.ProbeGuard | dblog.cpp:746-765 | for every request one notification, set by a run, is reported as a last probe |
| Guards.ProbesWithoutNotes | dblog.cpp:746-765 | after every run that sets no notification every request reports exactly the wanted last probes |
| Guards.ManyAnswered | http-server.cpp:198-206 | a store of enough records fills a page with one filter |
| Guards.PageLimit | http-server.cpp:198-206 | over every store and all filters, no answer has more than 1000 records exactly when the count in force is at most 1000 or the end of the page wraps |
| Guards.CountOf1001 | wacs-http-config.cpp:123 | a store of 1001 records, a request for 1001 with one filter, and an answer of 1001 |
| Guards.NotificationGuard | wacsc.cpp:503-516 | over every store, all filters' notifications are removed exactly when no filter is blank and the first one's prefix is a prefix of the others' |
| Guards.TwoFilters | wacsc.cpp:503-516 | two MACs with a notification each, given as two filters: the second one's stays |
| Guards.DefaultFilterCrashes | wacsc-config.cpp:167-168 | the tool's own filter ends the process on every store |
| Scripts.SuccessWithoutRecord | dblog.cpp:286-303 | a call of `putLog` whose commit is refused for a full map: it returns 0 and the database stays empty |
| Scripts.CountWithoutRemoval | dblog.cpp:648-660 | a call of `rmLog` whose one deletion is refused: it returns 1 and the database is as it was |
| Scripts.ErrorForACount | dblog.cpp:593-600 | a call of `rmLog` whose cursor does not open for lack of memory: it returns 12, and nothing is removed |
| PgLog.LikePlain | pglog.cpp:189-190 | plain text followed by % selects its extensions, alone only itself |
| PgLog.PatternSelects | pglog.cpp:189-190 | the pattern of a prefix selects the MACs that have it |
| PgLog.BackendsAgree | pglog.cpp:178-192 | the query selects a record exactly when the byte filter wants it |
| PgLog.ScanSelectsTheSame | pglog.cpp:178-192 | the WHERE clause selects the same records as the scan of dblog.cpp reports, where that is exact |
| PgLog.StatementSelects | pglog.cpp:186-192 | the statement text, split into words, names the four columns, and its WHERE clause, with the numbers read back, selects the MACs with the prefix between the ends |
| PgLog.RowReported | pglog.cpp:198-204 | a row with the text of a MAC is reported with that MAC and the row's time, device and signal |
| PgLog.BuildPattern | pglog.cpp:190 | the operand of LIKE |
| PgLog.SendQuery | pglog.cpp:178-194 | the statement sent, with the ends in order |
| PgLog.RowLoop | pglog.cpp:197-207 | the callback is fed the rows of the answer until it asks to stop |
| PgLog.ReadLog | pglog.cpp:145-212 | what is sent and reported for every status; a SELECT that answers with rows ends in an error |

## Left out

- Inside LMDB, mdbx, libpq, nanomsg, microhttpd and net-snmp: foreign code; only the contract of `Lmdb.DbEnv` is assumed.
- Failures of `mdb_cursor_get` other than not-found: the cursor contract has none.
- Aborting a transaction that a failed commit has already freed (`dblog.cpp:57` after 290), or that a restart
  has already aborted (`dblog.cpp:246` and 272 after 57): taken to have no effect.
- Writing in a transaction that is not open, after a restart that did not reopen the database (`dblog.cpp:93`,
  then 242): taken to fail and to have no other effect.
- A library that refuses to commit a transaction in which a deletion failed: it never gives the outcome of
  `Scripts.CountWithoutRemoval`.
- The map size itself, and whether doubling it helps: a full map may be reported again at any later call.
- Times outside 0..2^32-1 in a filter: the key field holds 32 bits, and so do the parameters here.
- A null MAC with a positive length: every caller passes a length that is not positive with it.
- What becomes of a process that `rmNotification` ends: it is taken to take its open transaction with it, and nothing else.
- Store keys and values of other shapes than this program writes, and other contents of structure padding.
- Wacsc.LsLog: stated for stores whose log MACs have last-probe entries, which `Runs.RunKeepsEntries` proves of every reachable one.
- Wacsc.RmLogs: stated for the same stores.
- Histogram.Coarsening: the step of the coarser histogram is not cut to 32 bits.
- PgLog.ReadLog: rows come as parsed numbers and a MAC text, and statuses as parameters; the server is not modelled beyond the WHERE clause.
- Two calls that only repeat others: `lsLastProbe` of wacsc.cpp, a loop without an early exit, and `lsLastProbe` of http-server.cpp, which is `Http.List` with the other scan.
- A signal that sets the interrupt flag in the middle of a scan: the flag is read, but does not change during a call.
- `getNotification`, whose positioning ignores the key and which nothing uses.
- `toString` of the histogram and `parseLogLine`: their dates depend on the local time of the C library.
- The signed 32-bit count of the HTTP service beyond 2^31 records, where its arithmetic is undefined.
- The text of the lines that the tool prints: a line is the record or notification it shows; its date is local time.
- Byte swapping of the received entry, logging, option parsing, daemonizing, signals, SNMP and file serving.
