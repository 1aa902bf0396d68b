# prometheus-postgresql-adapter: the write path, modelled in Dafny

The adapter receives Prometheus remote-write requests. It flattens each
request into samples. Unless a leader elector says this instance is a
follower, it hands the batch to its PostgreSQL writer. The writer stores a
batch in six steps on one pooled connection:

1. It creates a session-local staging table `{table}_tmp`.
2. It bulk-copies one row per sample into it: the time, the value, the
   metric name and a canonical JSON text of the labels.
3. In one transaction, it inserts the distinct (metric name, labels) pairs
   into `{table}_labels`, doing nothing on a conflict. Each distinct pair
   draws an id from the table's sequence, even when it conflicts, and a
   rollback does not return the ids.
4. In a second transaction, it inserts one row per staged sample into
   `{table}_values`, with the id of its label row found by a left join.
5. On every path once the connection is held, it drops the staging table.
6. It releases the connection.

The project models this write path:

- `model.dfy` (`Model`): the decoded sample and its label set. `MetricName`
  is the metric name of a label set.
- `strings.dfy` (`Strings`): Go's byte-wise string order, `sort.Strings`
  (as an ascending permutation, unique whatever the algorithm) and
  `strings.Join`.
- `json.dfy` (`Json`): `json.Marshal` of a Go string.
  - The escape rules follow Go's HTML-safe encoder.
  - A decoder is included for the JSON string grammar of section 7 of
    RFC 8259.
  - The round trip through the decoder proves the encoding injective on
    strings of Unicode scalar values. Labels that are not valid UTF-8 are
    outside the model (see "Left out").
- `metricmeta.dfy` (`MetricMeta`): `metricMetaJson`.
  - It is an imperative loop over the label map, visiting keys in
    arbitrary order.
  - The loop is proved equal to a canonical text. That text does not depend
    on the map's iteration order.
  - Two label sets have the same text exactly when they agree on every
    label but `__name__`.
- `store.dfy` (`PgStore`): the storage side, stated on values.
  - The three tables and the meaning of the two insert statements.
  - Each fallible database call of `Client.Write`, with its failures
    injected as a set of failing phases.
  - The whole write (`WriteSpec`), compared with a reference semantics
    (`RunUntil`) that issues the phases in order and stops at the first
    failure.
  - What a write, a failed write and a retried write leave in the tables.
- `client.dfy` (`PgClient`): the writer as the program runs it.
  - A `Database` object whose methods update the session and the tables in
    place.
  - A `Client` whose methods issue the calls in the order of `client.go`.
  - Each method is proved to update the database exactly as its step
    function in `PgStore` does.
- `adapter.dfy` (`Adapter`): the entry point.
  - `initElector`'s choice of backend.
  - `protoToSamples` as nested loops.
  - `sendSamples` as a `Dispatcher` object that owns the package-level
    counters and histogram. Its invariant is that they count exactly the
    calls made to the writer.

Two details of the code are easy to misread:

- **Label text order.** The entries are sorted as whole `"key": "value"`
  strings (`pkg/postgresql/client.go:142`), not by key. These orders
  differ: `"a"` sorts before `"a b"`, yet the entry of `"a b"` comes first.
  The lemma `MetricMeta.EntryOrderNotKeyOrder` proves this.
- **Idle timeout.** Only the default `-1` is rejected
  (`cmd/prometheus-postgresql-adapter/main.go:183`). Any other negative
  timeout starts the liveness monitor. `Adapter.OnlyMinusOneRejected`
  states this.

## Model

| member | source | states |
|---|---|---|
| Model.MetricName | pkg/postgresql/client.go:113 | the metric name is the `__name__` value when present and "" otherwise |
| Json.HexValue | pkg/postgresql/client.go:121-131 | a decoded hex digit is below 16 |
| Json.HexDigitValue | pkg/postgresql/client.go:121-131 | the lower-case digit the encoder writes for `n` decodes back to `n` |
| Json.EscapeChar | pkg/postgresql/client.go:121-131 | every character has a non-empty encoding inside the literal |
| Json.Hex4 | pkg/postgresql/client.go:121-131 | four hex digits decode to a code unit below 0x10000 |
| Json.EscapeBodyPlain | pkg/postgresql/client.go:121-131 | a string without characters that need escaping is written as itself |
| Json.Quote | pkg/postgresql/client.go:121-126 | `json.Marshal` of a label name or value: the escaped text between double quotes; it never fails |
| Json.EscapeCharDecodes | pkg/postgresql/client.go:121-131 | decoding the encoding of any one character yields that character and continues with the rest |
| Json.UnicodeEscapeDecodes | pkg/postgresql/client.go:121-131 | a control character or `<`, `>`, `&`, written as `\u00XX`, decodes back to itself |
| Json.LineSeparatorDecodes | pkg/postgresql/client.go:121-131 | U+2028 and U+2029, written as `\u2028`/`\u2029`, decode back to themselves |
| Json.EscapeBodyDecodes | pkg/postgresql/client.go:121-131 | the escaped body of any string, then the closing quote, decodes to the string and the rest |
| Json.QuoteRoundTrip | pkg/postgresql/client.go:121-131 | `json.Marshal` of any string decodes back to it, whatever text follows |
| Json.QuoteInjective | pkg/postgresql/client.go:121-131 | distinct strings have distinct literals, and no literal is a proper prefix of another |
| Strings.Sort | pkg/postgresql/client.go:142 | `sort.Strings`: the entries in ascending byte-wise order, by insertion |
| Strings.Join | pkg/postgresql/client.go:143 | `strings.Join`: the parts with the separator between consecutive ones |
| Strings.LeReflexive | pkg/postgresql/client.go:142 | the string order is reflexive |
| Strings.LeTotal | pkg/postgresql/client.go:142 | any two strings are comparable |
| Strings.LeAntisymmetric | pkg/postgresql/client.go:142 | strings ordered both ways are equal |
| Strings.LeTransitive | pkg/postgresql/client.go:142 | the string order is transitive |
| Strings.SortedCons | pkg/postgresql/client.go:142 | a head below every element of an ascending list gives an ascending list |
| Strings.InsertMultiset | pkg/postgresql/client.go:142 | insertion adds exactly the one element |
| Strings.InsertSorted | pkg/postgresql/client.go:142 | insertion into an ascending list keeps it ascending |
| Strings.SortCorrect | pkg/postgresql/client.go:142 | `sort.Strings` leaves an ascending permutation of its input |
| Strings.HeadIsLeast | pkg/postgresql/client.go:142 | the head of an ascending list is below every element of the same multiset |
| Strings.TailSorted | pkg/postgresql/client.go:142 | the tail of an ascending list is ascending |
| Strings.TailMultiset | pkg/postgresql/client.go:142 | the tail holds every element but the head |
| Strings.SortedUnique | pkg/postgresql/client.go:142 | two ascending lists with the same elements are equal, so the sorting algorithm does not matter |
| Strings.SortPermutationInvariant | pkg/postgresql/client.go:142 | the sorted result depends only on the multiset of entries, not on their input order |
| MetricMeta.Entry | pkg/postgresql/client.go:131 | one rendered label: the quoted name, `": "`, the quoted value |
| MetricMeta.CanonicalText | pkg/postgresql/client.go:135-143 | the label text: `{`, the sorted entries of the non-name labels joined by `,`, then `}` |
| MetricMeta.EnumerateRemove | pkg/postgresql/client.go:119-133 | visiting one more key adds exactly that key's entries: none for `__name__`, one otherwise |
| MetricMeta.EnumerateSize | pkg/postgresql/client.go:114-118 | there is one entry per label other than `__name__` |
| MetricMeta.EnumerateMembers | pkg/postgresql/client.go:119-133 | the entries are exactly `"key": "value"` for the labels other than `__name__` |
| MetricMeta.EnumerateAgree | pkg/postgresql/client.go:119-133 | label sets that agree on every non-name label have the same entries |
| MetricMeta.EntriesInOrderMultiset | pkg/postgresql/client.go:119-133 | visiting the keys in any order collects the same entries |
| MetricMeta.OrderIndependent | pkg/postgresql/client.go:119-143 | whatever order Go's map iteration takes, the sorted entries are the canonical ones |
| MetricMeta.CanonicalEntriesSpec | pkg/postgresql/client.go:119-142 | the entries are sorted, one per non-name label, and exactly the entries of those labels |
| MetricMeta.JoinNonEmpty | pkg/postgresql/client.go:143 | joining a list whose first part is non-empty gives a non-empty string |
| MetricMeta.EmptyTextIff | pkg/postgresql/client.go:135-143 | the text is `{}` exactly when no label besides `__name__` exists |
| MetricMeta.EnumerateWithoutName | pkg/postgresql/client.go:120 | the `__name__` label contributes no entry |
| MetricMeta.NameLabelIgnored | pkg/postgresql/client.go:120 | dropping `__name__` or changing its value leaves the label text unchanged |
| MetricMeta.NoLabelsText | pkg/postgresql/client.go:135-140 | when the label count without the name is 0, the text is `{}` |
| MetricMeta.SortedText | pkg/postgresql/client.go:142-143 | sorting and joining any collection of the entries gives the canonical text |
| MetricMeta.SingleEntry | pkg/postgresql/client.go:141-143 | with a single non-name label, the text is `{` + its entry + `}` |
| MetricMeta.SingleLabelExample | pkg/postgresql/client.go:112-145 | `{__name__="up", job="a"}` has the name `up` and the text `{"job": "a"}` |
| MetricMeta.EntryExample | pkg/postgresql/client.go:131 | the entry of `job`=`a` is `"job": "a"` |
| MetricMeta.PlainEntry | pkg/postgresql/client.go:121-131 | without characters to escape, an entry is both sides quoted as they are, joined by `": "` |
| MetricMeta.SortedPair | pkg/postgresql/client.go:142 | an ascending list of two strings, one strictly below the other, has the lower one first |
| MetricMeta.PrefixKeyEntries | pkg/postgresql/client.go:131 | the entries of `a b`=`2` and `a`=`1` are both sides quoted as they are |
| MetricMeta.PrefixKeyOrder | pkg/postgresql/client.go:142 | the entry text of key `a b` sorts strictly below that of key `a` |
| MetricMeta.TwoEntries | pkg/postgresql/client.go:119-142 | with two non-name labels whose entries compare strictly, the canonical entries are the two, lower first |
| MetricMeta.EntryOrderNotKeyOrder | pkg/postgresql/client.go:142 | entries are ordered as whole strings, not by key: `a` < `a b`, yet `a b`'s entry comes first |
| MetricMeta.SameEnumerationSameText | pkg/postgresql/client.go:142-143 | label sets with the same entries, in whatever order, have the same text |
| MetricMeta.EntryInjective | pkg/postgresql/client.go:121-131 | an entry determines its key and its value, and no entry is a proper prefix of another |
| MetricMeta.EntryStartsWithQuote | pkg/postgresql/client.go:131 | every entry starts with the opening quote of its key |
| MetricMeta.HeadEntryInjective | pkg/postgresql/client.go:131 | two entries each followed by text are equal, with equal rests, when the whole strings are |
| MetricMeta.JoinEmptyIff | pkg/postgresql/client.go:143 | joining entries gives the empty string exactly when there are none |
| MetricMeta.JoinEntriesInjective | pkg/postgresql/client.go:143 | the comma-joined entries, closed by `}`, determine the list of entries |
| MetricMeta.JoinedTailsAgree | pkg/postgresql/client.go:143 | after equal first entries, equal rests of the text mean equal remaining entries |
| MetricMeta.CanonicalAllEntries | pkg/postgresql/client.go:119-142 | every canonical entry is a rendered `"key": "value"` |
| MetricMeta.TextDeterminesEntries | pkg/postgresql/client.go:141-143 | equal label texts have equal canonical entries |
| MetricMeta.EntriesDetermineLabels | pkg/postgresql/client.go:119-142 | equal canonical entries mean every non-name label of one set is in the other, with the same value |
| MetricMeta.LabelTextInjective | pkg/postgresql/client.go:112-145 | two label sets have the same text iff they agree on every label except `__name__` |
| MetricMeta.MetricMetaJson | pkg/postgresql/client.go:112-145 | the map loop returns the metric name and the canonical label text, whatever order it visits the keys in |
| PgStore.InsertDistinctLabels | pkg/postgresql/client.go:63 | the labels insert: each distinct staged pair, in first-occurrence order, draws the next id; a missing pair is stored with it, a stored one wastes it |
| PgStore.JoinValues | pkg/postgresql/client.go:64 | the values insert: per staged row, in order, its time, its value and the id of its label row, or NULL when there is none |
| PgStore.StagedKeysPrefix | pkg/postgresql/client.go:63 | the distinct staged pairs grow by the key of each row added |
| PgStore.OccursStagedKeys | pkg/postgresql/client.go:63 | a pair occurs in the staging rows iff it is one of the distinct staged pairs |
| PgStore.InsertDistinctLabelsRows | pkg/postgresql/client.go:63 | the labels insert stores exactly the missing staged pairs, keeps every existing row and id, and gives new rows ids drawn from the sequence |
| PgStore.InsertDistinctLabelsIds | pkg/postgresql/client.go:63 | the sequence advances by one per distinct staged pair, conflicting pairs included |
| PgStore.InsertDistinctLabelsCount | pkg/postgresql/client.go:63 | one new row per distinct staged pair that was missing; one id drawn per missing pair and one wasted per conflicting pair |
| PgStore.InsertDistinctLabelsValid | pkg/postgresql/client.go:63 | the labels insert keeps ids distinct and below the sequence's next value |
| PgStore.SequenceAdvanceValid | pkg/postgresql/client.go:63 | advancing the sequence without adding rows keeps ids distinct and below its next value |
| PgStore.InsertDistinctLabelsStored | pkg/postgresql/client.go:63 | when every staged pair is stored, `on conflict do nothing` adds no row and changes no id |
| PgStore.InsertDistinctLabelsRepeat | pkg/postgresql/client.go:63 | repeating the labels insert adds no row but draws one more id per distinct staged pair |
| PgStore.JoinValuesSpec | pkg/postgresql/client.go:64 | one value row per staged row, in order, with its time, its value and the id the left join finds (NULL if none) |
| PgStore.AcquireStep | pkg/postgresql/client.go:208-212 | `DB.Conn`: trace the acquisition; on success the connection is held, on failure return its error |
| PgStore.CreateTmpStep | pkg/postgresql/client.go:215-219 | the create statement: fails when injected or when the staging table exists, else an empty staging table exists |
| PgStore.CopyStep | pkg/postgresql/client.go:233-241 | `CopyFrom`: fails when injected or without a staging table, else appends all rows to it |
| PgStore.Rollback | pkg/postgresql/client.go:155-157 | undoing a transaction: the rows at its begin come back, the sequence keeps the ids drawn since |
| PgStore.TransactionStep | pkg/postgresql/client.go:147-182 | `copyFromTmpTableInTransaction`: begin, prepare, exec, close, commit up to the first failure; the statement's rows stay only if the commit succeeds |
| PgStore.CleanupStep | pkg/postgresql/client.go:194-202 | `cleanup`: the drop, whose failure only leaves the table as it was, then the release of the connection |
| PgStore.StagedRows | pkg/postgresql/client.go:224-232 | the staging rows: per sample, in order, its time, its value, and the metric name and label text of `metricMetaJson` |
| PgStore.WriteSpec | pkg/postgresql/client.go:204-258 | `Client.Write`: acquire (return at once on failure), run the held phases, then clean up on every path; the held phases' error is returned |
| PgStore.RunUntilAppend | pkg/postgresql/client.go:204-258 | running two phase lists one after the other is running their concatenation |
| PgStore.RunUntilCons | pkg/postgresql/client.go:204-258 | a phase either fails and stops the run or is issued before the rest |
| PgStore.TxCallsSpec | pkg/postgresql/client.go:147-182 | a run of transaction steps issues them up to the first failure, returns that error and changes nothing else |
| PgStore.TxPhasesSplit | pkg/postgresql/client.go:147-182 | the five steps are begin and prepare, then exec, then close and commit |
| PgStore.TransactionStepTrace | pkg/postgresql/client.go:147-182 | begin, prepare, exec, close and commit are issued in order up to the first failing one, whose error is returned |
| PgStore.TransactionTraceStopped | pkg/postgresql/client.go:148-168 | a transaction stopped by a failing begin, prepare or exec issues exactly the steps of the reference run and returns its error |
| PgStore.TransactionTraceRan | pkg/postgresql/client.go:164-181 | a transaction whose statement ran issues the close and the commit after it, as the reference run does, and returns its error |
| PgStore.TransactionFailsAtBegin | pkg/postgresql/client.go:148-153 | a failed begin issues only itself, returns its error and changes no table |
| PgStore.TransactionFailsAtPrepare | pkg/postgresql/client.go:158-162 | a failed prepare returns its error after two steps and changes no table |
| PgStore.TransactionFailsAtExec | pkg/postgresql/client.go:164-168 | a failed exec returns its error after three steps and changes no table |
| PgStore.TransactionFailsAtClose | pkg/postgresql/client.go:170-174 | a failed close returns its error; the rollback restores the rows but not the ids the statement drew |
| PgStore.TransactionFailsAtCommit | pkg/postgresql/client.go:176-180 | a failed commit returns its error; the server has aborted the transaction, so the rows are gone, while the ids the statement drew are not returned |
| PgStore.TransactionCommits | pkg/postgresql/client.go:147-182 | with no failing step all five are issued and the statement's effect stays |
| PgStore.TransactionStepEffect | pkg/postgresql/client.go:155-181 | the insert is visible iff the commit succeeds; if the statement ran and the transaction then failed, only the ids it drew stay used; otherwise the tables are unchanged |
| PgStore.InsertPhasesStepErr | pkg/postgresql/client.go:243-251 | the two inserts return the first failing step's error, and the values one runs only after the labels one committed |
| PgStore.InsertPhasesStepTrace | pkg/postgresql/client.go:243-251 | the steps of both transactions are issued in order up to the first failure |
| PgStore.InsertPhasesStepEffect | pkg/postgresql/client.go:243-251 | the label rows are visible iff their transaction committed, even when the values one fails, and their drawn ids stay used once the statement ran; the value rows are visible iff both committed |
| PgStore.CopyAndInsertStepErr | pkg/postgresql/client.go:233-251 | with the staging table present, the copy and the inserts return the first failure's error |
| PgStore.CopyAndInsertStepTrace | pkg/postgresql/client.go:233-251 | with the staging table present, the copy and the inserts are issued in order up to the first failure |
| PgStore.HeldPhasesStepErr | pkg/postgresql/client.go:215-251 | the held phases return the first failure's error; a leftover staging table fails the create |
| PgStore.CreateFailsTrace | pkg/postgresql/client.go:215-219 | a failed create is the only held phase issued, as in the reference run |
| PgStore.CreatedRun | pkg/postgresql/client.go:215-251 | after a successful create, the reference run continues with the copy and the inserts |
| PgStore.CreatedStepTrace | pkg/postgresql/client.go:215-251 | after a successful create, the copy and the inserts are issued after it |
| PgStore.CreatedTrace | pkg/postgresql/client.go:215-251 | after a successful create, the held phases' trace is the reference run's |
| PgStore.HeldPhasesStepTrace | pkg/postgresql/client.go:215-251 | the held phases are issued in order and nothing runs after a failure |
| PgStore.HeldPhasesStepEffect | pkg/postgresql/client.go:215-251 | label rows are visible iff their transaction committed and drawn ids stay used once its statement ran; value rows are visible iff everything succeeded; the staging table is created unless the create fails and holds the copied rows |
| PgStore.WriteAcquireFails | pkg/postgresql/client.go:208-212 | a failed connection acquisition returns its error and issues nothing else, not even the cleanup |
| PgStore.WriteErr | pkg/postgresql/client.go:213-257 | once the connection is held, `Write` returns the first failing phase's error; the cleanup never changes it |
| PgStore.WriteTrace | pkg/postgresql/client.go:213-257 | the held phases run in order up to the first failure, then the staging table is dropped and the connection released, on every path |
| PgStore.WriteCleanup | pkg/postgresql/client.go:194-213 | the connection is always released; the staging table is dropped unless the drop fails, and a failed drop leaves it as it was |
| PgStore.WriteEffect | pkg/postgresql/client.go:204-258 | a `Write` stores the batch's distinct label rows iff the labels transaction committed, keeps the ids drawn by a labels statement that ran, and stores its value rows iff it returns no error |
| PgStore.RunUntilAgree | pkg/postgresql/client.go:204-258 | fault sets that agree on a run's phases give the same run |
| PgStore.HeldPhasesNotCleanup | pkg/postgresql/client.go:208-251 | no held phase is the acquisition or the drop |
| PgStore.WriteCleanupFaultErr | pkg/postgresql/client.go:197-200 | a failing drop does not change the error `Write` returns |
| PgStore.WriteCleanupFaultIgnored | pkg/postgresql/client.go:197-200 | a failing drop changes neither the returned error nor the tables; it is only logged |
| PgStore.WriteStaleTmpTable | pkg/postgresql/client.go:213-219 | a staging table left over by an earlier failed drop fails the create, so both tables stay unchanged and this cleanup drops the table |
| PgStore.StagedRowsSpec | pkg/postgresql/client.go:224-232 | one staging row per sample, in input order, keyed by the sample's series |
| PgStore.WriteLabelRows | pkg/postgresql/client.go:63 | once the labels transaction committed, the stored series are the earlier ones plus the batch's, earlier ids are kept, new ids come from the sequence, and one id is drawn per distinct series of the batch |
| PgStore.WriteLabelsRolledBack | pkg/postgresql/client.go:155-181 | when the labels statement ran but its transaction failed, no label row changes and one id is still drawn per distinct series of the batch |
| PgStore.WriteValueRows | pkg/postgresql/client.go:64 | after a successful `Write`, after the earlier rows come one value row per sample, in order, referencing its series' label row (never NULL) |
| PgStore.WriteSharedSeries | pkg/postgresql/client.go:63-64 | samples of one series in a successful write reference the same label row |
| PgStore.RunUntilNoFailure | pkg/postgresql/client.go:204-258 | with no failing phase, every phase is issued and no error is returned |
| PgStore.WriteSucceedsWithoutFaults | pkg/postgresql/client.go:204-258 | with no faults and no leftover staging table, `Write` succeeds |
| PgStore.FailedWriteStep | pkg/postgresql/client.go:204-258 | one more failed write keeps the value rows, keeps every earlier label id, adds only the batch's series, with fresh ids, and never moves the sequence back |
| PgStore.FailedWrites | pkg/postgresql/client.go:204-258 | the same holds after any number of failed writes |
| PgStore.SuccessAfterFailuresLabels | pkg/postgresql/client.go:204-258 | a successful write after failed ones stores the earlier series plus the batch's, keeps earlier ids, and gives new series fresh ids |
| PgStore.WriteRetryAfterFailure | pkg/postgresql/client.go:204-258 | after any number of failed writes, a successful retry stores the earlier series plus the batch's, keeps earlier ids, gives new series fresh ids, and appends each sample's value row exactly once |
| PgStore.WriteRetryAfterSuccess | pkg/postgresql/client.go:204-258 | retrying a write that did succeed adds no label row, draws one more id per series, and appends the batch's value rows a second time |
| PgStore.ValuesReferenceGrow | pkg/postgresql/client.go:63-64 | value rows keep referencing stored label rows when the labels table only grows |
| PgStore.JoinValuesReference | pkg/postgresql/client.go:64 | the left join only yields ids of stored label rows |
| PgStore.ValuesReferenceAppend | pkg/postgresql/client.go:64 | appending referencing rows keeps the reference property |
| PgStore.WritePreservesValid | pkg/postgresql/client.go:204-258 | every `Write`, whatever fails, keeps label ids valid and every value row's id pointing at a stored label row |
| PgStore.InsertTwoOfOneKey | pkg/postgresql/client.go:63 | two staged rows of one new series store one label row with the next id |
| PgStore.JoinTwo | pkg/postgresql/client.go:64 | two staged rows give two value rows, in order |
| PgStore.WriteTwoSamplesOneSeries | pkg/postgresql/client.go:204-258 | two samples of one new series give one label row with the next id and two value rows referencing it |
| PgClient.Database.constructor | pkg/postgresql/client.go:97 | a database with the given tables, no staging table, no connection held and no transaction open |
| PgClient.Database.Conn | pkg/postgresql/client.go:208-212 | acquiring a connection updates the session as `AcquireStep` does |
| PgClient.Database.ExecCreateTmpTable | pkg/postgresql/client.go:215-219 | the create fails if injected or if the table exists; otherwise an empty staging table exists |
| PgClient.Database.CopyFrom | pkg/postgresql/client.go:233-241 | the copy appends all rows or none |
| PgClient.Database.TxCall | pkg/postgresql/client.go:147-182 | each transaction step is traced; begin records the rows a rollback restores; exec runs the statement; commit closes the transaction whether it succeeds or not, and a failed commit, aborted by the server, restores the rows; any other failing step changes nothing else |
| PgClient.Database.Rollback | pkg/postgresql/client.go:155-157 | in an open transaction, the rows return to those at its begin while the sequence keeps the ids drawn; after a commit, failed or not, nothing changes |
| PgClient.Database.ExecDropTmpTable | pkg/postgresql/client.go:197 | the drop succeeds iff not injected and the table exists; the table is then gone |
| PgClient.Database.Close | pkg/postgresql/client.go:201 | the connection is released and nothing else changes |
| PgClient.Client.constructor | pkg/postgresql/client.go:104-107 | the client writes through the given database |
| PgClient.Client.CopyFromTmpTableInTransaction | pkg/postgresql/client.go:147-182 | the five calls with early returns and the deferred rollback update the database exactly as `TransactionStep`, and leave no transaction open once it has begun |
| PgClient.Client.InsertLabels | pkg/postgresql/client.go:184-187 | the labels insert in its own transaction |
| PgClient.Client.InsertValues | pkg/postgresql/client.go:189-192 | the values insert in its own transaction |
| PgClient.Client.Cleanup | pkg/postgresql/client.go:194-202 | drop (a failure is ignored), then release, exactly as `CleanupStep` |
| PgClient.Client.Write | pkg/postgresql/client.go:204-258 | the method's effect on the database and its returned error are exactly `WriteSpec`, the function the lemmas above are about |
| PgClient.Client.WriteHeld | pkg/postgresql/client.go:215-251 | the phases under the held connection behave exactly as `HeldPhasesStep` |
| PgClient.Client.StageRows | pkg/postgresql/client.go:224-232 | one row per sample, in order, with its timestamp, value, `metricMetaJson` name and label text |
| PgClient.Client.CopyAndInsert | pkg/postgresql/client.go:233-251 | the copy and the two inserts behave exactly as `CopyAndInsertStep` |
| Adapter.InitElector | cmd/prometheus-postgresql-adapter/main.go:171-207 | exits iff both backends are set, the timeout is -1 with a lock id, or lock creation fails; runs REST iff only REST; no elector iff neither is set; otherwise an advisory-lock elector with the configured id and interval, monitored iff the timeout is non-zero |
| Adapter.OnlyMinusOneRejected | cmd/prometheus-postgresql-adapter/main.go:183-194 | a timeout below -1 is accepted and starts the liveness monitor |
| Adapter.MetricOf | cmd/prometheus-postgresql-adapter/main.go:276-279 | the label set of a series: each label name mapped to its value, a later one overwriting an earlier one |
| Adapter.Flatten | cmd/prometheus-postgresql-adapter/main.go:273-290 | the samples of a request: series by series, one per protobuf sample, each with the label set of its series |
| Adapter.MetricOfLastWins | cmd/prometheus-postgresql-adapter/main.go:276-279 | a repeated label name keeps the value of its last occurrence |
| Adapter.MetricOfKeys | cmd/prometheus-postgresql-adapter/main.go:276-279 | a series' label set holds exactly the names of its labels |
| Adapter.FlattenLength | cmd/prometheus-postgresql-adapter/main.go:273-290 | one sample per protobuf sample |
| Adapter.FlattenIndex | cmd/prometheus-postgresql-adapter/main.go:273-290 | the k-th sample of series i sits after the samples of the earlier series, with series i's labels, value and timestamp |
| Adapter.BuildMetric | cmd/prometheus-postgresql-adapter/main.go:276-279 | the loop builds the label set of the series |
| Adapter.ProtoToSamples | cmd/prometheus-postgresql-adapter/main.go:273-290 | the nested loops flatten the request series by series, with one sample per protobuf sample |
| Adapter.Dispatcher.constructor | cmd/prometheus-postgresql-adapter/main.go:71-103 | at start-up the last request time is the start time and the counters are empty |
| Adapter.Dispatcher.SendSamples | cmd/prometheus-postgresql-adapter/main.go:292-318 | stores the request time; an elector error is returned with nothing counted; a follower returns nil with nothing counted; otherwise the batch is counted as failed or sent, and a success observes its duration; the counters keep matching the calls made |

## Left out

- HTTP handling (`write`, `health`, `timeHandler`), snappy decoding and protobuf unmarshalling: transport plumbing outside the write path. The `write` handler only logs the error `sendSamples` returns.
- Configuration parsing, `NewClient`, `readPassword`, `HealthCheck` and `Close`: set-up, with no effect on what a write stores.
- The elector implementations (advisory lock, REST election, scheduled elector), the liveness-check goroutine and its ticker, and the throughput calculator. These belong to another package. `IsLeader`'s answer and whether lock creation fails are inputs to the model.
- Logging and the optional printing of each sample line (`pgPrometheusLogSamples`): output only.
- The atomic store of the last request time: an ordinary field here, since the model has no concurrency.
- Sample values are `float64` in the source and `int` here. The core only carries them through, so NaN and float formatting are not modelled.
- Timestamps are milliseconds as integers. The conversion to UTC `time.Time` and its RFC 3339 text (used only in the logged line) is not modelled.
- Durations are inputs (`time.Since`, clocks). The histogram records the raw observations; Prometheus buckets are not modelled.
- The `jsonb` column compares label documents by value, not by text. The model compares the texts as strings. The two agree here: the writer only ever stores canonical texts, and `MetricMeta.LabelTextInjective` proves that two canonical texts are equal iff the label sets agree on every label but `__name__`, which is when their jsonb documents are equal.
- The connection pool is one session and one connection. Pool sizing, blocking on exhaustion and connection reuse by other requests are left out.
- The writer's outcome in `SendSamples` is an input: `Dispatcher.SendSamples` is not composed with `PgClient.Client.Write`.
- The table-name prefix `%s` of the SQL statements is not modelled. There is one set of tables.
- The `json.Marshal` error branches (client.go:122-130) cannot be taken for Go strings, so the model has none.
- The decoder in `Json` exists only to state the round trip. The source has no decoder.
- JSON escapes are those of Go's current encoder: `\b` and `\f` as two-character escapes, lower-case hex. An older Go release writes these as `\u0008`/`\u000c`.
- The deferred `tx.Rollback` is not a traced phase. Its effect is part of the model (`PgClient.Database.Rollback`, `PgStore.Rollback`): the rows of an uncommitted transaction are restored, the ids it drew are not. After a failed `tx.Commit` it does nothing, since `database/sql` has already marked the transaction done. The rows are then gone because the server aborted the transaction (`PgClient.Database.TxCall`).
- PgStore.TransactionFailsAtCommit: a commit that took effect on the server but whose reply was lost, so that `tx.Commit` returns an error, is not modelled. Every failed commit is taken to have aborted. `PgStore.WriteEffect` ("value rows iff no error") and `PgStore.WriteRetryAfterFailure` ("each value row exactly once") rely on this. After such a lost reply, a retry would append the value rows a second time, as `PgStore.WriteRetryAfterSuccess` shows for a write that succeeded.
- Json.QuoteRoundTrip: holds for label names and values that are sequences of Unicode scalar values, which is what `string` is here. Go's encoder replaces each byte of invalid UTF-8 with U+FFFD, so for such labels the round trip does not hold.
- Json.QuoteInjective: holds for valid UTF-8 labels only, for the same reason: two Go strings that differ only in invalid bytes can encode to the same literal.
- PgStore.InsertDistinctLabels: new ids follow the order in which pairs first occur in the staging rows. PostgreSQL's `select distinct` gives no order, so a different order of ids is possible. The `id` column is taken to be a sequence-backed default. The schema is not part of this model.
- PgStore.InsertDistinctLabels: a failing `Exec` is modelled as drawing no id. A statement that fails part-way may already have drawn some.
- PgStore.WriteRetryAfterFailure: it does not promise that a retry stores exactly what a single successful write would. Failed attempts may already have drawn ids, so the ids of the batch's new series may differ.
