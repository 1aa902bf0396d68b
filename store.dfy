/**
 * The storage side of the PostgreSQL writer, as values: the three relations
 * the writer touches, the meaning of each of its SQL statements, and the
 * phase protocol of one `Write` with a fault injected at any subset of
 * phases.
 *
 * Relations: the session's staging table `{table}_tmp (time, value,
 * metric_name, labels)`, `{table}_labels (id, metric_name, labels)` with a
 * uniqueness constraint on (metric_name, labels), and `{table}_values (time,
 * value, labels_id)`.
 */
module PgStore {
  import opened Model
  import opened MetricMeta

  /** A row of the staging table. */
  datatype StagedRow = StagedRow(time: int, value: int, metricName: string, labels: string)

  /** The unique key of a label row: (metric_name, labels). */
  datatype LabelKey = LabelKey(metricName: string, labels: string)

  function KeyOf(r: StagedRow): LabelKey
  {
    LabelKey(r.metricName, r.labels)
  }

  /** A row of the values table; `labelsId` is NULL (None) when the left join finds no label row. */
  datatype ValueRow = ValueRow(time: int, value: int, labelsId: Option<nat>)

  /**
   * The labels table: the id of each stored key (the map makes the key
   * unique) and the next value of the id sequence.
   */
  datatype LabelTable = LabelTable(ids: map<LabelKey, nat>, nextId: nat)

  /** Ids come from the sequence, so they are below its next value and distinct. */
  ghost predicate LabelTableValid(t: LabelTable)
  {
    && (forall k :: k in t.ids ==> t.ids[k] < t.nextId)
    && (forall k1, k2 :: k1 in t.ids && k2 in t.ids && t.ids[k1] == t.ids[k2] ==> k1 == k2)
  }

  /** The distinct (metric_name, labels) pairs of the staged rows. */
  ghost function StagedKeys(staging: seq<StagedRow>): set<LabelKey>
  {
    set i | 0 <= i < |staging| :: KeyOf(staging[i])
  }

  /** Whether some staged row has key `k`. */
  predicate Occurs(staging: seq<StagedRow>, k: LabelKey)
  {
    exists i :: 0 <= i < |staging| && KeyOf(staging[i]) == k
  }

  /**
   * `insert into {table}_labels (metric_name, labels) select distinct
   * sample.metric_name, sample.labels from {table}_tmp sample on conflict do
   * nothing`: the distinct select yields each staged pair once, and every
   * row it yields draws the next value of the id sequence for its `id`
   * default before the uniqueness check; a pair that is already stored is
   * then skipped, so its id is used up without a row. The rows are taken in
   * the order of their first staging row.
   */
  function InsertDistinctLabels(t: LabelTable, staging: seq<StagedRow>): LabelTable
    decreases |staging|
  {
    if |staging| == 0 then t
    else
      var prefix := staging[..|staging| - 1];
      var before := InsertDistinctLabels(t, prefix);
      var k := KeyOf(staging[|staging| - 1]);
      if Occurs(prefix, k) then before
      else if k in before.ids then before.(nextId := before.nextId + 1)
      else LabelTable(before.ids[k := before.nextId], before.nextId + 1)
  }

  /** The id the left join finds for a key. */
  function Lookup(ids: map<LabelKey, nat>, k: LabelKey): Option<nat>
  {
    if k in ids then Some(ids[k]) else None
  }

  /**
   * `insert into {table}_values (time, value, labels_id) select sample.time,
   * sample.value, lbl.id from {table}_tmp sample left join {table}_labels lbl
   * on lbl.metric_name = sample.metric_name and lbl.labels = sample.labels`:
   * one value row per staged row, in staging order.
   */
  function JoinValues(staging: seq<StagedRow>, ids: map<LabelKey, nat>): seq<ValueRow>
    decreases |staging|
  {
    if |staging| == 0 then []
    else
      var last := staging[|staging| - 1];
      JoinValues(staging[..|staging| - 1], ids) + [ValueRow(last.time, last.value, Lookup(ids, KeyOf(last)))]
  }

  /** A key occurs in the staged rows iff it is one of their distinct pairs. */
  lemma OccursStagedKeys(staging: seq<StagedRow>, k: LabelKey)
    ensures Occurs(staging, k) <==> k in StagedKeys(staging)
  {
    if k in StagedKeys(staging) {
      var i :| 0 <= i < |staging| && KeyOf(staging[i]) == k;
    }
  }

  lemma {:induction false} StagedKeysPrefix(staging: seq<StagedRow>)
    requires |staging| > 0
    ensures StagedKeys(staging) == StagedKeys(staging[..|staging| - 1]) + {KeyOf(staging[|staging| - 1])}
  {
    var n := |staging| - 1;
    forall k | k in StagedKeys(staging) ensures k in StagedKeys(staging[..n]) + {KeyOf(staging[n])} {
      var i :| 0 <= i < |staging| && KeyOf(staging[i]) == k;
      if i < n { assert staging[..n][i] == staging[i]; }
    }
    forall k | k in StagedKeys(staging[..n]) ensures k in StagedKeys(staging) {
      var i :| 0 <= i < n && KeyOf(staging[..n][i]) == k;
      assert staging[..n][i] == staging[i];
    }
  }

  /**
   * The label insert stores exactly the staged pairs that were missing, keeps
   * every existing row and its id, and gives every new row an id drawn from
   * the sequence by this statement.
   */
  lemma {:induction false} InsertDistinctLabelsRows(t: LabelTable, staging: seq<StagedRow>)
    ensures var r := InsertDistinctLabels(t, staging);
      && r.ids.Keys == t.ids.Keys + StagedKeys(staging)
      && (forall k :: k in t.ids ==> r.ids[k] == t.ids[k])
      && t.nextId <= r.nextId
      && (forall k :: k in r.ids && k !in t.ids ==> t.nextId <= r.ids[k] < r.nextId)
    decreases |staging|
  {
    if |staging| > 0 {
      InsertDistinctLabelsRows(t, staging[..|staging| - 1]);
      StagedKeysPrefix(staging);
      OccursStagedKeys(staging[..|staging| - 1], KeyOf(staging[|staging| - 1]));
    }
  }

  /** One id is drawn from the sequence per distinct staged pair, whether or not it was stored already. */
  lemma {:induction false} InsertDistinctLabelsIds(t: LabelTable, staging: seq<StagedRow>)
    ensures InsertDistinctLabels(t, staging).nextId == t.nextId + |StagedKeys(staging)|
    decreases |staging|
  {
    if |staging| > 0 {
      var n := |staging| - 1;
      var k := KeyOf(staging[n]);
      InsertDistinctLabelsIds(t, staging[..n]);
      StagedKeysPrefix(staging);
      OccursStagedKeys(staging[..n], k);
      if !Occurs(staging[..n], k) {
        assert |StagedKeys(staging)| == |StagedKeys(staging[..n])| + 1;
      } else {
        assert StagedKeys(staging) == StagedKeys(staging[..n]);
      }
    }
  }

  /**
   * One new label row per distinct staged pair that was missing, duplicates
   * in the staging table counted once, and one id drawn per distinct staged
   * pair, the skipped ones included: the sequence moves past the stored ids
   * by as many ids as there were conflicts.
   */
  lemma InsertDistinctLabelsCount(t: LabelTable, staging: seq<StagedRow>)
    ensures var r := InsertDistinctLabels(t, staging);
      && |r.ids.Keys| == |t.ids.Keys| + |StagedKeys(staging) - t.ids.Keys|
      && r.nextId == t.nextId + |StagedKeys(staging) - t.ids.Keys| + |StagedKeys(staging) * t.ids.Keys|
  {
    var r := InsertDistinctLabels(t, staging);
    var ks := StagedKeys(staging);
    assert r.ids.Keys == t.ids.Keys + (ks - t.ids.Keys) by { InsertDistinctLabelsRows(t, staging); }
    assert r.nextId == t.nextId + |ks| by { InsertDistinctLabelsIds(t, staging); }
    AddedKeysSize(t.ids.Keys, ks);
    SplitKeysSize(ks, t.ids.Keys);
  }

  /** Adding the keys of `ks` that `stored` lacks adds that many keys. */
  lemma AddedKeysSize(stored: set<LabelKey>, ks: set<LabelKey>)
    ensures |stored + (ks - stored)| == |stored| + |ks - stored|
  {
    assert stored !! (ks - stored);
  }

  /** The keys of `ks` are those `stored` lacks and those it has. */
  lemma SplitKeysSize(ks: set<LabelKey>, stored: set<LabelKey>)
    ensures |ks| == |ks - stored| + |ks * stored|
  {
    assert ks == (ks - stored) + (ks * stored);
    assert (ks - stored) !! (ks * stored);
  }

  /** The label insert keeps the table's ids valid. */
  lemma {:induction false} InsertDistinctLabelsValid(t: LabelTable, staging: seq<StagedRow>)
    requires LabelTableValid(t)
    ensures LabelTableValid(InsertDistinctLabels(t, staging))
    decreases |staging|
  {
    if |staging| > 0 {
      InsertDistinctLabelsValid(t, staging[..|staging| - 1]);
    }
  }

  /** Moving the sequence forward keeps the table's ids valid. */
  lemma SequenceAdvanceValid(t: LabelTable, next: nat)
    requires LabelTableValid(t) && t.nextId <= next
    ensures LabelTableValid(t.(nextId := next))
  {
  }

  /**
   * When every staged pair is already stored, the label insert adds no row;
   * it still draws one id per distinct staged pair.
   */
  lemma {:induction false} InsertDistinctLabelsStored(t: LabelTable, staging: seq<StagedRow>)
    requires StagedKeys(staging) <= t.ids.Keys
    ensures InsertDistinctLabels(t, staging).ids == t.ids
    decreases |staging|
  {
    if |staging| > 0 {
      StagedKeysPrefix(staging);
      InsertDistinctLabelsStored(t, staging[..|staging| - 1]);
    }
  }

  /**
   * Repeating the label insert over the same staged rows adds no row and
   * changes no id; only the sequence moves on, by one per distinct pair.
   */
  lemma InsertDistinctLabelsRepeat(t: LabelTable, staging: seq<StagedRow>)
    ensures var once := InsertDistinctLabels(t, staging); var twice := InsertDistinctLabels(once, staging);
      && twice.ids == once.ids
      && twice.nextId == once.nextId + |StagedKeys(staging)|
  {
    InsertDistinctLabelsRows(t, staging);
    InsertDistinctLabelsStored(InsertDistinctLabels(t, staging), staging);
    InsertDistinctLabelsIds(InsertDistinctLabels(t, staging), staging);
  }

  /** The value insert yields one row per staged row, in order, carrying that row's time, value and label id. */
  lemma {:induction false} JoinValuesSpec(staging: seq<StagedRow>, ids: map<LabelKey, nat>)
    ensures |JoinValues(staging, ids)| == |staging|
    ensures forall i :: 0 <= i < |staging| ==>
      JoinValues(staging, ids)[i] == ValueRow(staging[i].time, staging[i].value, Lookup(ids, KeyOf(staging[i])))
    decreases |staging|
  {
    if |staging| > 0 {
      var n := |staging| - 1;
      JoinValuesSpec(staging[..n], ids);
      forall i | 0 <= i < n
        ensures JoinValues(staging, ids)[i] == ValueRow(staging[i].time, staging[i].value, Lookup(ids, KeyOf(staging[i])))
      {
        assert JoinValues(staging, ids)[i] == JoinValues(staging[..n], ids)[i];
        assert staging[..n][i] == staging[i];
      }
    }
  }

  // ---------------------------------------------------------------------------
  // The phase protocol of `Write`
  // ---------------------------------------------------------------------------

  datatype Query = LabelsQuery | ValuesQuery

  /** The steps of `copyFromTmpTableInTransaction`. */
  datatype TxStep = Begin | Prepare | Exec | CloseStmt | Commit

  /** Every operation `Write` issues against the database. */
  datatype Phase =
    | AcquireConn
    | CreateTmpTable
    | CopyRows
    | Tx(query: Query, step: TxStep)
    | DropTmpTable
    | ReleaseConn

  /**
   * What the writer can observe of the database and its one session: the
   * staging table (and whether it exists), the labels and values tables,
   * whether a connection is held, and the operations issued so far.
   */
  datatype DbState = DbState(
    staging: seq<StagedRow>,
    tmpExists: bool,
    labels: LabelTable,
    values: seq<ValueRow>,
    connHeld: bool,
    trace: seq<Phase>)

  /** A new state and the error returned (the phase that failed), None for success. */
  datatype Step = Step(state: DbState, err: Option<Phase>)

  function Issue(s: DbState, p: Phase): DbState
  {
    s.(trace := s.trace + [p])
  }

  /** `c.DB.Conn(ctx)`. */
  function AcquireStep(s: DbState, faults: set<Phase>): Step
  {
    if AcquireConn in faults then Step(Issue(s, AcquireConn), Some(AcquireConn))
    else Step(Issue(s, AcquireConn).(connHeld := true), None)
  }

  /** `create temporary table {table}_tmp (...) on commit preserve rows`; fails if the table exists. */
  function CreateTmpStep(s: DbState, faults: set<Phase>): Step
  {
    if CreateTmpTable in faults || s.tmpExists then Step(Issue(s, CreateTmpTable), Some(CreateTmpTable))
    else Step(Issue(s, CreateTmpTable).(tmpExists := true, staging := []), None)
  }

  /** The bulk COPY of all rows into the staging table; all rows or none. */
  function CopyStep(s: DbState, rows: seq<StagedRow>, faults: set<Phase>): Step
  {
    if CopyRows in faults || !s.tmpExists then Step(Issue(s, CopyRows), Some(CopyRows))
    else Step(Issue(s, CopyRows).(staging := s.staging + rows), None)
  }

  /** The effect of executing one of the two insert statements. */
  function ApplyQuery(s: DbState, q: Query): DbState
  {
    match q
    case LabelsQuery => s.(labels := InsertDistinctLabels(s.labels, s.staging))
    case ValuesQuery => s.(values := s.values + JoinValues(s.staging, s.labels.ids))
  }

  /**
   * The deferred `tx.Rollback()`: the rows the transaction's statement wrote
   * are discarded and the tables are again those of `begin`, but the ids the
   * statement drew from the sequence are not given back (a sequence is not
   * transactional).
   */
  function Rollback(s: DbState, begin: DbState): DbState
  {
    s.(labels := begin.labels.(nextId := s.labels.nextId), values := begin.values)
  }

  /** The steps of `copyFromTmpTableInTransaction`, in order. */
  const TxSteps: seq<TxStep> := [Begin, Prepare, Exec, CloseStmt, Commit]

  /**
   * Transaction calls that change no table (begin, prepare, close, commit):
   * each is issued and, if it fails, ends the run with its error.
   */
  function TxCalls(s: DbState, q: Query, steps: seq<TxStep>, faults: set<Phase>): Step
    decreases |steps|
  {
    if |steps| == 0 then Step(s, None)
    else
      var p := Tx(q, steps[0]);
      if p in faults then Step(Issue(s, p), Some(p)) else TxCalls(Issue(s, p), q, steps[1..], faults)
  }

  /**
   * `copyFromTmpTableInTransaction`: begin and prepare; execute the
   * statement, which changes the tables within the transaction; close the
   * statement and commit. A failure before the statement ran leaves nothing
   * to undo. A failed close is undone by the deferred rollback. A failed
   * commit is one the server aborted, which undoes the statement just as
   * well. Either way the ids the statement drew stay used.
   */
  function TransactionStep(s: DbState, q: Query, faults: set<Phase>): Step
  {
    var started := TxCalls(s, q, [Begin, Prepare], faults);
    if started.err.Some? then started
    else
      var exec := Tx(q, Exec);
      if exec in faults then Step(Issue(started.state, exec), Some(exec))
      else
        var closed := TxCalls(ApplyQuery(Issue(started.state, exec), q), q, [CloseStmt, Commit], faults);
        if closed.err.Some? then Step(Rollback(closed.state, s), closed.err) else closed
  }

  /**
   * `cleanup`: drop the staging table (a failure, including a missing table,
   * is only logged) and release the connection.
   */
  function CleanupStep(s: DbState, faults: set<Phase>): DbState
  {
    var dropped := Issue(s, DropTmpTable);
    var afterDrop := if DropTmpTable in faults || !s.tmpExists then dropped
                     else dropped.(tmpExists := false, staging := []);
    Issue(afterDrop, ReleaseConn).(connHeld := false)
  }

  /** The phases of `Write` that run while the connection is held, up to the first failure. */
  function HeldPhasesStep(s: DbState, rows: seq<StagedRow>, faults: set<Phase>): Step
  {
    var created := CreateTmpStep(s, faults);
    if created.err.Some? then created else
    CopyAndInsertStep(created.state, rows, faults)
  }

  /** The copy, then the two insert transactions unless the copy failed. */
  function CopyAndInsertStep(s: DbState, rows: seq<StagedRow>, faults: set<Phase>): Step
  {
    var copied := CopyStep(s, rows, faults);
    if copied.err.Some? then copied else InsertPhasesStep(copied.state, faults)
  }

  /** The two insert transactions of `Write`: labels first, then values unless the labels failed. */
  function InsertPhasesStep(s: DbState, faults: set<Phase>): Step
  {
    var labelled := TransactionStep(s, LabelsQuery, faults);
    if labelled.err.Some? then labelled else TransactionStep(labelled.state, ValuesQuery, faults)
  }

  /** The staging row of a sample: its timestamp, value, metric name and canonical label text. */
  ghost function StagedRowOf(x: Sample): StagedRow
  {
    StagedRow(x.timestamp, x.value, MetricName(x.metric), CanonicalText(x.metric))
  }

  ghost function StagedRows(samples: seq<Sample>): seq<StagedRow>
  {
    seq(|samples|, i requires 0 <= i < |samples| => StagedRowOf(samples[i]))
  }

  /**
   * `Client.Write`: acquire a connection (on failure return at once, with no
   * cleanup); otherwise run the held phases and, on every exit path, clean up.
   * The result is the error of the held phases; the cleanup never changes it.
   */
  ghost function WriteSpec(s: DbState, samples: seq<Sample>, faults: set<Phase>): Step
  {
    var acquired := AcquireStep(s, faults);
    if acquired.err.Some? then acquired
    else
      var held := HeldPhasesStep(acquired.state, StagedRows(samples), faults);
      Step(CleanupStep(held.state, faults), held.err)
  }

  // ---------------------------------------------------------------------------
  // Properties of one `Write`
  // ---------------------------------------------------------------------------

  /** The phases of the transaction steps `steps` on query `q`. */
  function TxPhasesOf(q: Query, steps: seq<TxStep>): seq<Phase>
  {
    seq(|steps|, i requires 0 <= i < |steps| => Tx(q, steps[i]))
  }

  /** The steps of one transaction, in the order they are issued. */
  function TxPhases(q: Query): seq<Phase>
  {
    TxPhasesOf(q, TxSteps)
  }

  /** The phases of the two insert transactions, in order. */
  function InsertPhases(): seq<Phase>
  {
    TxPhases(LabelsQuery) + TxPhases(ValuesQuery)
  }

  /** The copy and the two insert transactions, in order. */
  function CopyPhases(): seq<Phase>
  {
    [CopyRows] + InsertPhases()
  }

  /** The phases `Write` issues while it holds the connection, in order. */
  function HeldPhases(): seq<Phase>
  {
    [CreateTmpTable] + CopyPhases()
  }

  /**
   * Reference semantics of a sequence of fallible phases: issue them in
   * order and stop at the first one in `failing`, which becomes the error.
   */
  function RunUntil(ps: seq<Phase>, failing: set<Phase>): (seq<Phase>, Option<Phase>)
    decreases |ps|
  {
    if |ps| == 0 then ([], None)
    else if ps[0] in failing then ([ps[0]], Some(ps[0]))
    else
      var rest := RunUntil(ps[1..], failing);
      ([ps[0]] + rest.0, rest.1)
  }

  /** Running two sequences one after the other is running their concatenation. */
  lemma {:induction false} RunUntilAppend(a: seq<Phase>, b: seq<Phase>, failing: set<Phase>)
    ensures var ra := RunUntil(a, failing); var rb := RunUntil(b, failing);
      RunUntil(a + b, failing) == if ra.1.Some? then ra else (ra.0 + rb.0, rb.1)
    decreases |a|
  {
    if |a| > 0 {
      assert (a + b)[0] == a[0];
      assert (a + b)[1..] == a[1..] + b;
      RunUntilAppend(a[1..], b, failing);
      if a[0] !in failing {
        var ra' := RunUntil(a[1..], failing);
        var rb := RunUntil(b, failing);
        assert [a[0]] + (ra'.0 + rb.0) == ([a[0]] + ra'.0) + rb.0;
      }
    } else {
      assert a + b == b;
      assert [] + RunUntil(b, failing).0 == RunUntil(b, failing).0;
    }
  }

  /** The phases that fail when `Write` runs them on `s`: the injected faults, and the create when a staging table is left over. */
  function Failing(s: DbState, faults: set<Phase>): set<Phase>
  {
    if s.tmpExists then faults + {CreateTmpTable} else faults
  }

  /** One phase followed by others: it fails and stops the run, or it is issued and the rest run. */
  lemma RunUntilCons(p: Phase, rest: seq<Phase>, failing: set<Phase>)
    ensures RunUntil([p] + rest, failing)
      == if p in failing then ([p], Some(p)) else ([p] + RunUntil(rest, failing).0, RunUntil(rest, failing).1)
  {
    assert ([p] + rest)[1..] == rest;
  }

  /** Calls that change no table are issued in order up to the first failing one, whose error they return. */
  lemma {:induction false} TxCallsSpec(s: DbState, q: Query, steps: seq<TxStep>, faults: set<Phase>)
    ensures var r := TxCalls(s, q, steps, faults); var run := RunUntil(TxPhasesOf(q, steps), faults);
      && r.state == s.(trace := s.trace + run.0)
      && r.err == run.1
    decreases |steps|
  {
    var ps := TxPhasesOf(q, steps);
    if |steps| > 0 {
      var p := Tx(q, steps[0]);
      assert ps == [p] + TxPhasesOf(q, steps[1..]);
      RunUntilCons(p, TxPhasesOf(q, steps[1..]), faults);
      if p !in faults {
        TxCallsSpec(Issue(s, p), q, steps[1..], faults);
      }
    } else {
      assert ps == [];
    }
  }

  /** The five steps: the two before the statement, the statement, the two after it. */
  lemma TxPhasesSplit(q: Query)
    ensures TxPhases(q) == TxPhasesOf(q, [Begin, Prepare]) + ([Tx(q, Exec)] + TxPhasesOf(q, [CloseStmt, Commit]))
  {
  }

  /** The transaction of `copyFromTmpTableInTransaction` issues its five steps in order up to the first failing one, whose error it returns. */
  lemma TransactionStepTrace(s: DbState, q: Query, faults: set<Phase>)
    ensures TransactionStep(s, q, faults).state.trace == s.trace + RunUntil(TxPhases(q), faults).0
    ensures TransactionStep(s, q, faults).err == RunUntil(TxPhases(q), faults).1
  {
    TxCallsSpec(s, q, [Begin, Prepare], faults);
    if TxCalls(s, q, [Begin, Prepare], faults).err.None? && Tx(q, Exec) !in faults {
      TransactionTraceRan(s, q, faults);
    } else {
      TransactionTraceStopped(s, q, faults);
    }
  }

  /** The trace of a transaction that stops before its statement runs. */
  lemma TransactionTraceStopped(s: DbState, q: Query, faults: set<Phase>)
    requires TxCalls(s, q, [Begin, Prepare], faults).err.Some? || Tx(q, Exec) in faults
    ensures TransactionStep(s, q, faults).state.trace == s.trace + RunUntil(TxPhases(q), faults).0
    ensures TransactionStep(s, q, faults).err == RunUntil(TxPhases(q), faults).1
  {
    var before := TxPhasesOf(q, [Begin, Prepare]);
    var after := TxPhasesOf(q, [CloseStmt, Commit]);
    TxPhasesSplit(q);
    RunUntilAppend(before, [Tx(q, Exec)] + after, faults);
    RunUntilCons(Tx(q, Exec), after, faults);
    TxCallsSpec(s, q, [Begin, Prepare], faults);
  }

  /** The trace of a transaction whose statement runs. */
  lemma TransactionTraceRan(s: DbState, q: Query, faults: set<Phase>)
    requires TxCalls(s, q, [Begin, Prepare], faults).err.None? && Tx(q, Exec) !in faults
    ensures TransactionStep(s, q, faults).state.trace == s.trace + RunUntil(TxPhases(q), faults).0
    ensures TransactionStep(s, q, faults).err == RunUntil(TxPhases(q), faults).1
  {
    var before := TxPhasesOf(q, [Begin, Prepare]);
    var after := TxPhasesOf(q, [CloseStmt, Commit]);
    TxPhasesSplit(q);
    RunUntilAppend(before, [Tx(q, Exec)] + after, faults);
    RunUntilCons(Tx(q, Exec), after, faults);
    TxCallsSpec(s, q, [Begin, Prepare], faults);
    var started := TxCalls(s, q, [Begin, Prepare], faults);
    var ran := ApplyQuery(Issue(started.state, Tx(q, Exec)), q);
    TxCallsSpec(ran, q, [CloseStmt, Commit], faults);
    var t0 := RunUntil(before, faults).0;
    var t1 := RunUntil(after, faults).0;
    assert s.trace + t0 + [Tx(q, Exec)] + t1 == s.trace + (t0 + ([Tx(q, Exec)] + t1));
  }

  /** The session once `Begin` and `Prepare` of the transaction on `q` are issued. */
  function Prepared(s: DbState, q: Query): DbState
  {
    Issue(Issue(s, Tx(q, Begin)), Tx(q, Prepare))
  }

  /** The session once the statement of the transaction on `q` has run. */
  function Ran(s: DbState, q: Query): DbState
  {
    ApplyQuery(Issue(Prepared(s, q), Tx(q, Exec)), q)
  }

  /** A transaction whose `Begin` fails issues only that step. */
  lemma TransactionFailsAtBegin(s: DbState, q: Query, faults: set<Phase>)
    requires Tx(q, Begin) in faults
    ensures TransactionStep(s, q, faults) == Step(Issue(s, Tx(q, Begin)), Some(Tx(q, Begin)))
  {
  }

  /** A transaction whose first failing step is `Prepare` issues two steps and changes no table. */
  lemma TransactionFailsAtPrepare(s: DbState, q: Query, faults: set<Phase>)
    requires Tx(q, Begin) !in faults && Tx(q, Prepare) in faults
    ensures TransactionStep(s, q, faults) == Step(Prepared(s, q), Some(Tx(q, Prepare)))
  {
  }

  /** A transaction whose first failing step is `Exec` issues three steps and changes no table. */
  lemma TransactionFailsAtExec(s: DbState, q: Query, faults: set<Phase>)
    requires Tx(q, Begin) !in faults && Tx(q, Prepare) !in faults && Tx(q, Exec) in faults
    ensures TransactionStep(s, q, faults) == Step(Issue(Prepared(s, q), Tx(q, Exec)), Some(Tx(q, Exec)))
  {
  }

  /** A transaction whose first failing step is the close of the statement: its rows are rolled back, its drawn ids are not. */
  lemma TransactionFailsAtClose(s: DbState, q: Query, faults: set<Phase>)
    requires Tx(q, Begin) !in faults && Tx(q, Prepare) !in faults && Tx(q, Exec) !in faults
    requires Tx(q, CloseStmt) in faults
    ensures TransactionStep(s, q, faults) == Step(Rollback(Issue(Ran(s, q), Tx(q, CloseStmt)), s), Some(Tx(q, CloseStmt)))
  {
  }

  /** A transaction whose only failing step is the commit, aborted by the server: its rows are gone, its drawn ids are not returned. */
  lemma TransactionFailsAtCommit(s: DbState, q: Query, faults: set<Phase>)
    requires Tx(q, Begin) !in faults && Tx(q, Prepare) !in faults && Tx(q, Exec) !in faults
    requires Tx(q, CloseStmt) !in faults && Tx(q, Commit) in faults
    ensures TransactionStep(s, q, faults)
      == Step(Rollback(Issue(Issue(Ran(s, q), Tx(q, CloseStmt)), Tx(q, Commit)), s), Some(Tx(q, Commit)))
  {
  }

  /** A transaction in which no step fails issues all five and keeps the statement's effect. */
  lemma TransactionCommits(s: DbState, q: Query, faults: set<Phase>)
    requires Tx(q, Begin) !in faults && Tx(q, Prepare) !in faults && Tx(q, Exec) !in faults
    requires Tx(q, CloseStmt) !in faults && Tx(q, Commit) !in faults
    ensures TransactionStep(s, q, faults) == Step(Issue(Issue(Ran(s, q), Tx(q, CloseStmt)), Tx(q, Commit)), None)
  {
  }

  /** Whether the statement of the transaction on `q` ran and was then rolled back: it ended at the close or the commit. */
  predicate StatementRolledBack(q: Query, err: Option<Phase>)
  {
    err == Some(Tx(q, CloseStmt)) || err == Some(Tx(q, Commit))
  }

  /** What remains of a statement that was rolled back: the ids it drew from the sequence. */
  function Drawn(s: DbState, q: Query): DbState
  {
    s.(labels := s.labels.(nextId := ApplyQuery(s, q).labels.nextId))
  }

  /**
   * The statement's effect is there iff the transaction commits. If it ran
   * and the transaction was then rolled back, only the ids it drew stay
   * used; if it did not run, only the trace changes.
   */
  lemma TransactionStepEffect(s: DbState, q: Query, faults: set<Phase>)
    ensures var r := TransactionStep(s, q, faults);
      r.state.(trace := s.trace)
        == if r.err.None? then ApplyQuery(s, q) else if StatementRolledBack(q, r.err) then Drawn(s, q) else s
  {
    TxCallsSpec(s, q, [Begin, Prepare], faults);
    var started := TxCalls(s, q, [Begin, Prepare], faults);
    if started.err.None? && Tx(q, Exec) !in faults {
      var ran := ApplyQuery(Issue(started.state, Tx(q, Exec)), q);
      TxCallsSpec(ran, q, [CloseStmt, Commit], faults);
      assert TxPhasesOf(q, [CloseStmt, Commit]) == [Tx(q, CloseStmt), Tx(q, Commit)];
    } else if started.err.Some? {
      assert TxPhasesOf(q, [Begin, Prepare]) == [Tx(q, Begin), Tx(q, Prepare)];
    }
  }

  /** Whether the labels transaction of a `Write` that ended with `err` committed. */
  predicate LabelsCommitted(err: Option<Phase>)
  {
    err.None? || (err.value.Tx? && err.value.query == ValuesQuery)
  }

  /**
   * The labels table after the phases of a `Write` that ended with `err`:
   * the insert's rows if its transaction committed; if its statement ran but
   * was rolled back, the old rows with the sequence moved on by the ids the
   * statement drew; otherwise the table as it was.
   */
  function LabelsAfter(t: LabelTable, staging: seq<StagedRow>, err: Option<Phase>): LabelTable
  {
    var labelled := InsertDistinctLabels(t, staging);
    if LabelsCommitted(err) then labelled
    else if StatementRolledBack(LabelsQuery, err) then t.(nextId := labelled.nextId)
    else t
  }

  /** The two transactions return the error of the first failing step, the values one running only once the labels one committed. */
  lemma InsertPhasesStepErr(s: DbState, faults: set<Phase>)
    ensures InsertPhasesStep(s, faults).err == RunUntil(InsertPhases(), faults).1
  {
    RunUntilAppend(TxPhases(LabelsQuery), TxPhases(ValuesQuery), faults);
    TransactionStepTrace(s, LabelsQuery, faults);
    var labelled := TransactionStep(s, LabelsQuery, faults);
    if labelled.err.None? {
      TransactionStepTrace(labelled.state, ValuesQuery, faults);
    }
  }

  /** The two transactions issue their steps in order up to the first failing one. */
  lemma InsertPhasesStepTrace(s: DbState, faults: set<Phase>)
    ensures InsertPhasesStep(s, faults).state.trace == s.trace + RunUntil(InsertPhases(), faults).0
  {
    RunUntilAppend(TxPhases(LabelsQuery), TxPhases(ValuesQuery), faults);
    TransactionStepTrace(s, LabelsQuery, faults);
    var labelled := TransactionStep(s, LabelsQuery, faults);
    if labelled.err.None? {
      TransactionStepTrace(labelled.state, ValuesQuery, faults);
    }
  }

  /**
   * The labels insert is there iff its transaction committed, and a later
   * failure of the values transaction does not undo it; a labels statement
   * rolled back after it ran leaves only the ids it drew. The values insert
   * is there iff both transactions committed. Nothing else but the trace
   * changes.
   */
  lemma InsertPhasesStepEffect(s: DbState, faults: set<Phase>)
    ensures var r := InsertPhasesStep(s, faults); var labelled := InsertDistinctLabels(s.labels, s.staging);
      && r.state.(trace := s.trace) == s.(
        labels := LabelsAfter(s.labels, s.staging, r.err),
        values := if r.err.None? then s.values + JoinValues(s.staging, labelled.ids) else s.values)
  {
    TransactionStepEffect(s, LabelsQuery, faults);
    var labelled := TransactionStep(s, LabelsQuery, faults);
    if labelled.err.None? {
      TransactionStepEffect(labelled.state, ValuesQuery, faults);
    }
  }

  /** Once the staging table exists, the copy and the inserts return the error of the first failing one. */
  lemma CopyAndInsertStepErr(s: DbState, rows: seq<StagedRow>, faults: set<Phase>)
    requires s.tmpExists
    ensures CopyAndInsertStep(s, rows, faults).err == RunUntil(CopyPhases(), faults).1
  {
    RunUntilCons(CopyRows, InsertPhases(), faults);
    var copied := CopyStep(s, rows, faults);
    if copied.err.None? {
      InsertPhasesStepErr(copied.state, faults);
    }
  }

  /** Once the staging table exists, the copy and the inserts are issued in order up to the first failing one. */
  lemma CopyAndInsertStepTrace(s: DbState, rows: seq<StagedRow>, faults: set<Phase>)
    requires s.tmpExists
    ensures CopyAndInsertStep(s, rows, faults).state.trace == s.trace + RunUntil(CopyPhases(), faults).0
  {
    RunUntilCons(CopyRows, InsertPhases(), faults);
    var copied := CopyStep(s, rows, faults);
    if copied.err.None? {
      InsertPhasesStepTrace(copied.state, faults);
      var t := RunUntil(InsertPhases(), faults).0;
      assert s.trace + [CopyRows] + t == s.trace + ([CopyRows] + t);
    }
  }

  /** The held phases return the error of the first failing one. */
  lemma HeldPhasesStepErr(s: DbState, rows: seq<StagedRow>, faults: set<Phase>)
    ensures HeldPhasesStep(s, rows, faults).err == RunUntil(HeldPhases(), Failing(s, faults)).1
  {
    var f := Failing(s, faults);
    RunUntilCons(CreateTmpTable, CopyPhases(), f);
    var created := CreateTmpStep(s, faults);
    if created.err.None? {
      assert f == faults;
      CopyAndInsertStepErr(created.state, rows, faults);
    }
  }

  /** When the create fails, it is the only held phase issued. */
  lemma CreateFailsTrace(s: DbState, rows: seq<StagedRow>, faults: set<Phase>)
    requires CreateTmpStep(s, faults).err.Some?
    ensures HeldPhasesStep(s, rows, faults).state.trace == s.trace + [CreateTmpTable]
    ensures HeldPhasesStep(s, rows, faults).state.trace == s.trace + RunUntil(HeldPhases(), Failing(s, faults)).0
  {
    RunUntilCons(CreateTmpTable, CopyPhases(), Failing(s, faults));
  }

  /** When the create succeeds, the reference run continues with the copy and the inserts. */
  lemma CreatedRun(s: DbState, faults: set<Phase>)
    requires CreateTmpStep(s, faults).err.None?
    ensures RunUntil(HeldPhases(), Failing(s, faults)).0 == [CreateTmpTable] + RunUntil(CopyPhases(), faults).0
  {
    assert Failing(s, faults) == faults;
    RunUntilCons(CreateTmpTable, CopyPhases(), faults);
  }

  /** When the create succeeds, the copy and the inserts are issued after it. */
  lemma CreatedStepTrace(s: DbState, rows: seq<StagedRow>, faults: set<Phase>)
    requires CreateTmpStep(s, faults).err.None?
    ensures HeldPhasesStep(s, rows, faults).state.trace == s.trace + [CreateTmpTable] + RunUntil(CopyPhases(), faults).0
  {
    CopyAndInsertStepTrace(CreateTmpStep(s, faults).state, rows, faults);
  }

  /** When the create succeeds, the copy and the inserts follow it. */
  lemma CreatedTrace(s: DbState, rows: seq<StagedRow>, faults: set<Phase>)
    requires CreateTmpStep(s, faults).err.None?
    ensures HeldPhasesStep(s, rows, faults).state.trace == s.trace + RunUntil(HeldPhases(), Failing(s, faults)).0
  {
    CreatedRun(s, faults);
    CreatedStepTrace(s, rows, faults);
    ConcatAssoc(s.trace, CreateTmpTable, RunUntil(CopyPhases(), faults).0);
  }

  lemma ConcatAssoc(a: seq<Phase>, p: Phase, t: seq<Phase>)
    ensures a + [p] + t == a + ([p] + t)
  {
  }

  /** The held phases are issued in order up to the first failing one; a later phase never runs after a failure. */
  lemma HeldPhasesStepTrace(s: DbState, rows: seq<StagedRow>, faults: set<Phase>)
    ensures HeldPhasesStep(s, rows, faults).state.trace == s.trace + RunUntil(HeldPhases(), Failing(s, faults)).0
  {
    if CreateTmpStep(s, faults).err.None? {
      CreatedTrace(s, rows, faults);
    } else {
      CreateFailsTrace(s, rows, faults);
    }
  }

  /**
   * What the held phases do to the tables: the labels table is as
   * `LabelsAfter` gives it, the values insert is there iff every phase succeeded;
   * the staging table exists unless its creation failed, and holds the
   * copied rows once the copy succeeded.
   */
  lemma HeldPhasesStepEffect(s: DbState, rows: seq<StagedRow>, faults: set<Phase>)
    ensures var r := HeldPhasesStep(s, rows, faults); var labelled := InsertDistinctLabels(s.labels, rows);
      && r.state.connHeld == s.connHeld
      && r.state.tmpExists == (s.tmpExists || r.err != Some(CreateTmpTable))
      && (r.err != Some(CreateTmpTable) && r.err != Some(CopyRows) ==> r.state.staging == rows)
      && r.state.labels == LabelsAfter(s.labels, rows, r.err)
      && r.state.values == (if r.err.None? then s.values + JoinValues(rows, labelled.ids) else s.values)
  {
    var created := CreateTmpStep(s, faults);
    if created.err.None? {
      var copied := CopyStep(created.state, rows, faults);
      if copied.err.None? {
        assert copied.state.staging == rows;
        InsertPhasesStepEffect(copied.state, faults);
      }
    }
  }

  /** If acquiring the connection fails, `Write` returns that error and issues nothing else, not even the cleanup. */
  lemma WriteAcquireFails(s: DbState, samples: seq<Sample>, faults: set<Phase>)
    requires AcquireConn in faults
    ensures WriteSpec(s, samples, faults) == Step(s.(trace := s.trace + [AcquireConn]), Some(AcquireConn))
  {
  }

  /**
   * Once the connection is held, `Write` returns the error of the first
   * failing held phase (None if none fails); the cleanup never changes it.
   */
  lemma WriteErr(s: DbState, samples: seq<Sample>, faults: set<Phase>)
    requires AcquireConn !in faults
    ensures WriteSpec(s, samples, faults).err == RunUntil(HeldPhases(), Failing(s, faults)).1
  {
    HeldPhasesStepErr(AcquireStep(s, faults).state, StagedRows(samples), faults);
  }

  /**
   * Once the connection is held, `Write` issues the held phases in order up
   * to the first failing one, and then, on every path, drops the staging
   * table and releases the connection.
   */
  lemma WriteTrace(s: DbState, samples: seq<Sample>, faults: set<Phase>)
    requires AcquireConn !in faults
    ensures WriteSpec(s, samples, faults).state.trace
      == s.trace + [AcquireConn] + RunUntil(HeldPhases(), Failing(s, faults)).0 + [DropTmpTable, ReleaseConn]
  {
    var acquired := AcquireStep(s, faults).state;
    HeldPhasesStepTrace(acquired, StagedRows(samples), faults);
    var t := RunUntil(HeldPhases(), Failing(s, faults)).0;
    assert acquired.trace + t + [DropTmpTable] + [ReleaseConn] == s.trace + [AcquireConn] + t + [DropTmpTable, ReleaseConn];
  }

  /**
   * Once the connection is held, the cleanup always releases it, and drops
   * the staging table unless the drop fails; a failed drop leaves the table
   * as the held phases left it.
   */
  lemma WriteCleanup(s: DbState, samples: seq<Sample>, faults: set<Phase>)
    requires AcquireConn !in faults
    ensures !WriteSpec(s, samples, faults).state.connHeld
    ensures DropTmpTable !in faults ==> !WriteSpec(s, samples, faults).state.tmpExists
    ensures DropTmpTable in faults ==>
      WriteSpec(s, samples, faults).state.tmpExists == (s.tmpExists || WriteSpec(s, samples, faults).err != Some(CreateTmpTable))
  {
    HeldPhasesStepEffect(AcquireStep(s, faults).state, StagedRows(samples), faults);
  }

  /**
   * What one `Write` does to the two tables, on every path: the distinct
   * label rows of the samples are stored iff the labels transaction
   * committed (a labels statement rolled back after it ran still uses up its
   * ids), and the value rows iff the whole write succeeded.
   */
  lemma WriteEffect(s: DbState, samples: seq<Sample>, faults: set<Phase>)
    ensures var r := WriteSpec(s, samples, faults); var labelled := InsertDistinctLabels(s.labels, StagedRows(samples));
      && r.state.labels == LabelsAfter(s.labels, StagedRows(samples), r.err)
      && r.state.values == (if r.err.None? then s.values + JoinValues(StagedRows(samples), labelled.ids) else s.values)
  {
    if AcquireConn !in faults {
      HeldPhasesStepEffect(AcquireStep(s, faults).state, StagedRows(samples), faults);
    }
  }

  /** Two fault sets that agree on the phases of a run give the same run. */
  lemma {:induction false} RunUntilAgree(ps: seq<Phase>, f1: set<Phase>, f2: set<Phase>)
    requires forall i :: 0 <= i < |ps| ==> (ps[i] in f1 <==> ps[i] in f2)
    ensures RunUntil(ps, f1) == RunUntil(ps, f2)
    decreases |ps|
  {
    if |ps| > 0 {
      RunUntilAgree(ps[1..], f1, f2);
    }
  }

  /** The held phases are neither the acquisition nor the cleanup. */
  lemma HeldPhasesNotCleanup(i: nat)
    requires i < |HeldPhases()|
    ensures HeldPhases()[i] != DropTmpTable && HeldPhases()[i] != AcquireConn
  {
    var ps := HeldPhases();
    assert ps[i] == CreateTmpTable || ps[i] == CopyRows || ps[i].Tx?;
  }

  /** A failing drop of the staging table does not change the error `Write` returns. */
  lemma WriteCleanupFaultErr(s: DbState, samples: seq<Sample>, faults: set<Phase>)
    ensures WriteSpec(s, samples, faults + {DropTmpTable}).err == WriteSpec(s, samples, faults - {DropTmpTable}).err
  {
    var f1 := faults + {DropTmpTable};
    var f2 := faults - {DropTmpTable};
    if AcquireConn in faults {
      WriteAcquireFails(s, samples, f1);
      WriteAcquireFails(s, samples, f2);
    } else {
      assert AcquireConn !in f1 && AcquireConn !in f2;
      var ps := HeldPhases();
      assert RunUntil(ps, Failing(s, f1)) == RunUntil(ps, Failing(s, f2)) by {
        forall i | 0 <= i < |ps| ensures ps[i] in Failing(s, f1) <==> ps[i] in Failing(s, f2) {
          HeldPhasesNotCleanup(i);
        }
        RunUntilAgree(ps, Failing(s, f1), Failing(s, f2));
      }
      WriteErr(s, samples, f1);
      WriteErr(s, samples, f2);
    }
  }

  /** A failing drop of the staging table changes neither the error `Write` returns nor the tables. */
  lemma WriteCleanupFaultIgnored(s: DbState, samples: seq<Sample>, faults: set<Phase>)
    ensures WriteSpec(s, samples, faults + {DropTmpTable}).err == WriteSpec(s, samples, faults - {DropTmpTable}).err
    ensures WriteSpec(s, samples, faults + {DropTmpTable}).state.labels == WriteSpec(s, samples, faults - {DropTmpTable}).state.labels
    ensures WriteSpec(s, samples, faults + {DropTmpTable}).state.values == WriteSpec(s, samples, faults - {DropTmpTable}).state.values
  {
    WriteCleanupFaultErr(s, samples, faults);
    WriteEffect(s, samples, faults + {DropTmpTable});
    WriteEffect(s, samples, faults - {DropTmpTable});
  }

  /**
   * A staging table left over in the session (its earlier drop failed) makes
   * the create fail, so `Write` changes neither table; its own cleanup then
   * drops the table, unless that drop fails too.
   */
  lemma WriteStaleTmpTable(s: DbState, samples: seq<Sample>, faults: set<Phase>)
    requires s.tmpExists && AcquireConn !in faults
    ensures WriteSpec(s, samples, faults).err == Some(CreateTmpTable)
    ensures WriteSpec(s, samples, faults).state.labels == s.labels
    ensures WriteSpec(s, samples, faults).state.values == s.values
    ensures DropTmpTable !in faults ==> !WriteSpec(s, samples, faults).state.tmpExists
  {
    WriteErr(s, samples, faults);
    RunUntilCons(CreateTmpTable, CopyPhases(), Failing(s, faults));
    WriteEffect(s, samples, faults);
    WriteCleanup(s, samples, faults);
  }

  /** The (metric_name, labels) key under which a sample's label row is stored. */
  ghost function SeriesKey(x: Sample): LabelKey
  {
    LabelKey(MetricName(x.metric), CanonicalText(x.metric))
  }

  /** The distinct series keys of a batch of samples. */
  ghost function SeriesKeys(samples: seq<Sample>): set<LabelKey>
  {
    set i | 0 <= i < |samples| :: SeriesKey(samples[i])
  }

  /** The staging copy holds one row per sample, in input order, keyed by the sample's series. */
  lemma StagedRowsSpec(samples: seq<Sample>)
    ensures |StagedRows(samples)| == |samples|
    ensures forall i :: 0 <= i < |samples| ==> StagedRows(samples)[i] == StagedRowOf(samples[i])
    ensures forall i :: 0 <= i < |samples| ==> KeyOf(StagedRows(samples)[i]) == SeriesKey(samples[i])
    ensures StagedKeys(StagedRows(samples)) == SeriesKeys(samples)
  {
    var rows := StagedRows(samples);
    forall k | k in StagedKeys(rows) ensures k in SeriesKeys(samples) {
      var i :| 0 <= i < |rows| && KeyOf(rows[i]) == k;
      assert SeriesKey(samples[i]) == k;
    }
    forall k | k in SeriesKeys(samples) ensures k in StagedKeys(rows) {
      var i :| 0 <= i < |samples| && SeriesKey(samples[i]) == k;
      assert KeyOf(rows[i]) == k;
    }
  }

  /**
   * Once the labels transaction committed, the labels table holds every
   * earlier row with its id and one new row per series of the batch that was
   * missing, with an id drawn from the sequence by this write; the sequence
   * has moved on by one id per series of the batch, stored before or not.
   */
  lemma WriteLabelRows(s: DbState, samples: seq<Sample>, faults: set<Phase>)
    requires LabelsCommitted(WriteSpec(s, samples, faults).err)
    ensures var t := WriteSpec(s, samples, faults).state.labels;
      && t.ids.Keys == s.labels.ids.Keys + SeriesKeys(samples)
      && (forall k :: k in s.labels.ids ==> t.ids[k] == s.labels.ids[k])
      && (forall k :: k in t.ids && k !in s.labels.ids ==> s.labels.nextId <= t.ids[k] < t.nextId)
      && t.nextId == s.labels.nextId + |SeriesKeys(samples)|
  {
    WriteEffect(s, samples, faults);
    StagedRowsSpec(samples);
    InsertDistinctLabelsRows(s.labels, StagedRows(samples));
    InsertDistinctLabelsIds(s.labels, StagedRows(samples));
  }

  /**
   * A labels transaction that fails at the close or the commit, after its
   * statement ran, stores no label row, yet the ids the statement drew stay
   * used: the sequence has moved on by one per series of the batch.
   */
  lemma WriteLabelsRolledBack(s: DbState, samples: seq<Sample>, faults: set<Phase>)
    requires StatementRolledBack(LabelsQuery, WriteSpec(s, samples, faults).err)
    ensures var t := WriteSpec(s, samples, faults).state.labels;
      && t.ids == s.labels.ids
      && t.nextId == s.labels.nextId + |SeriesKeys(samples)|
  {
    WriteEffect(s, samples, faults);
    StagedRowsSpec(samples);
    InsertDistinctLabelsIds(s.labels, StagedRows(samples));
  }

  /**
   * `values` holds the rows `before` and then one row per sample, in order,
   * with the sample's timestamp and value and the id of its series' row in
   * `ids`.
   */
  ghost predicate AppendsBatch(values: seq<ValueRow>, before: seq<ValueRow>, ids: map<LabelKey, nat>, samples: seq<Sample>)
  {
    && |values| == |before| + |samples|
    && values[..|before|] == before
    && (forall i :: 0 <= i < |samples| ==>
          SeriesKey(samples[i]) in ids
          && values[|before| + i] == ValueRow(samples[i].timestamp, samples[i].value, Some(ids[SeriesKey(samples[i])])))
  }

  /**
   * After a successful `Write` the values table holds the earlier rows and
   * then one row per sample, in input order, each with the sample's
   * timestamp and value and the id of its series' label row: no new value
   * row has a NULL `labels_id`.
   */
  lemma WriteValueRows(s: DbState, samples: seq<Sample>, faults: set<Phase>)
    requires WriteSpec(s, samples, faults).err.None?
    ensures var r := WriteSpec(s, samples, faults).state; AppendsBatch(r.values, s.values, r.labels.ids, samples)
  {
    var r := WriteSpec(s, samples, faults).state;
    var rows := StagedRows(samples);
    var joined := JoinValues(rows, r.labels.ids);
    assert r.values == s.values + joined by { WriteEffect(s, samples, faults); }
    assert forall i :: 0 <= i < |samples| ==> SeriesKey(samples[i]) in r.labels.ids by {
      WriteLabelRows(s, samples, faults);
      forall i | 0 <= i < |samples| ensures SeriesKey(samples[i]) in r.labels.ids {
        assert SeriesKey(samples[i]) in SeriesKeys(samples);
      }
    }
    assert |joined| == |samples| && forall i :: 0 <= i < |samples| ==>
        joined[i] == ValueRow(samples[i].timestamp, samples[i].value, Some(r.labels.ids[SeriesKey(samples[i])])) by {
      StagedRowsSpec(samples);
      JoinValuesSpec(rows, r.labels.ids);
    }
    AppendedBatch(r.values, s.values, joined, r.labels.ids, samples);
  }

  /** Rows appended after `before`, one per sample as `AppendsBatch` states them. */
  lemma AppendedBatch(values: seq<ValueRow>, before: seq<ValueRow>, joined: seq<ValueRow>, ids: map<LabelKey, nat>, samples: seq<Sample>)
    requires values == before + joined && |joined| == |samples|
    requires forall i :: 0 <= i < |samples| ==> SeriesKey(samples[i]) in ids
    requires forall i :: 0 <= i < |samples| ==>
      joined[i] == ValueRow(samples[i].timestamp, samples[i].value, Some(ids[SeriesKey(samples[i])]))
    ensures AppendsBatch(values, before, ids, samples)
  {
    forall i | 0 <= i < |samples| ensures values[|before| + i] == joined[i] {
    }
  }


  /** Samples of one series in one successful `Write` reference the same label row. */
  lemma WriteSharedSeries(s: DbState, samples: seq<Sample>, faults: set<Phase>, i: nat, j: nat)
    requires WriteSpec(s, samples, faults).err.None?
    requires i < |samples| && j < |samples| && samples[i].metric == samples[j].metric
    ensures var r := WriteSpec(s, samples, faults).state;
      && |r.values| == |s.values| + |samples|
      && r.values[|s.values| + i].labelsId == r.values[|s.values| + j].labelsId
      && r.values[|s.values| + i].labelsId.Some?
  {
    WriteValueRows(s, samples, faults);
  }

  /** A run in which no phase fails issues every phase and returns no error. */
  lemma {:induction false} RunUntilNoFailure(ps: seq<Phase>, failing: set<Phase>)
    requires forall i :: 0 <= i < |ps| ==> ps[i] !in failing
    ensures RunUntil(ps, failing) == (ps, None)
    decreases |ps|
  {
    if |ps| > 0 {
      RunUntilNoFailure(ps[1..], failing);
      assert [ps[0]] + ps[1..] == ps;
    }
  }

  /** Without faults and without a leftover staging table, `Write` succeeds. */
  lemma WriteSucceedsWithoutFaults(s: DbState, samples: seq<Sample>)
    requires !s.tmpExists
    ensures WriteSpec(s, samples, {}).err == None
  {
    WriteErr(s, samples, {});
    RunUntilNoFailure(HeldPhases(), {});
  }

  /** Successive `Write`s of one batch, one per fault set, each on the state the previous one left. */
  ghost function Attempts(s: DbState, samples: seq<Sample>, fs: seq<set<Phase>>): DbState
    decreases |fs|
  {
    if |fs| == 0 then s else Attempts(WriteSpec(s, samples, fs[0]).state, samples, fs[1..])
  }

  /** Every one of the successive `Write`s returned an error. */
  ghost predicate AllFail(s: DbState, samples: seq<Sample>, fs: seq<set<Phase>>)
    decreases |fs|
  {
    |fs| == 0 || (WriteSpec(s, samples, fs[0]).err.Some? && AllFail(WriteSpec(s, samples, fs[0]).state, samples, fs[1..]))
  }

  /**
   * What failed writes of the batch may have left, relative to the state
   * `s0` before them: no value row; the earlier label rows with their ids,
   * and possibly rows of the batch's series with ids drawn since.
   */
  ghost predicate AfterFailedWrites(s0: DbState, s: DbState, samples: seq<Sample>)
  {
    && s.values == s0.values
    && s0.labels.ids.Keys <= s.labels.ids.Keys <= s0.labels.ids.Keys + SeriesKeys(samples)
    && (forall k :: k in s0.labels.ids ==> s.labels.ids[k] == s0.labels.ids[k])
    && s0.labels.nextId <= s.labels.nextId
    && (forall k :: k in s.labels.ids && k !in s0.labels.ids ==> s0.labels.nextId <= s.labels.ids[k] < s.labels.nextId)
  }

  /** One more failed write keeps what failed writes may leave. */
  lemma FailedWriteStep(s0: DbState, s: DbState, samples: seq<Sample>, f: set<Phase>)
    requires AfterFailedWrites(s0, s, samples)
    requires WriteSpec(s, samples, f).err.Some?
    ensures AfterFailedWrites(s0, WriteSpec(s, samples, f).state, samples)
  {
    var err := WriteSpec(s, samples, f).err;
    WriteEffect(s, samples, f);
    if LabelsCommitted(err) {
      WriteLabelRows(s, samples, f);
    } else if StatementRolledBack(LabelsQuery, err) {
      WriteLabelsRolledBack(s, samples, f);
    }
  }

  /** Any number of failed writes leave what failed writes may leave. */
  lemma {:induction false} FailedWrites(s0: DbState, s: DbState, samples: seq<Sample>, fs: seq<set<Phase>>)
    requires AfterFailedWrites(s0, s, samples)
    requires AllFail(s, samples, fs)
    ensures AfterFailedWrites(s0, Attempts(s, samples, fs), samples)
    decreases |fs|
  {
    if |fs| > 0 {
      FailedWriteStep(s0, s, samples, fs[0]);
      FailedWrites(s0, WriteSpec(s, samples, fs[0]).state, samples, fs[1..]);
    }
  }

  /**
   * Retrying a `Write` of a batch after any number of failed attempts, until
   * one succeeds, stores what a single successful `Write` stores
   * (`WriteLabelRows`, `WriteValueRows`): the earlier label rows with their
   * ids, one row per series of the batch, none twice (the labels insert
   * does nothing on conflict), and after the earlier value rows exactly one
   * row per sample, in order, referencing its series' label row (no failed
   * attempt stored a value row). Only the ids of the new series' rows may
   * differ from a single write's, since the failed attempts may have drawn
   * ids. A staging table left over by a failed cleanup only makes the next
   * attempt fail.
   */
  lemma WriteRetryAfterFailure(s: DbState, samples: seq<Sample>, fs: seq<set<Phase>>, f: set<Phase>)
    requires AllFail(s, samples, fs)
    requires WriteSpec(Attempts(s, samples, fs), samples, f).err.None?
    ensures var r := WriteSpec(Attempts(s, samples, fs), samples, f).state;
      && r.labels.ids.Keys == s.labels.ids.Keys + SeriesKeys(samples)
      && (forall k :: k in s.labels.ids ==> r.labels.ids[k] == s.labels.ids[k])
      && (forall k :: k in r.labels.ids && k !in s.labels.ids ==> s.labels.nextId <= r.labels.ids[k] < r.labels.nextId)
      && AppendsBatch(r.values, s.values, r.labels.ids, samples)
  {
    var last := Attempts(s, samples, fs);
    FailedWrites(s, s, samples, fs);
    SuccessAfterFailuresLabels(s, last, samples, f);
    var r := WriteSpec(last, samples, f).state;
    assert AppendsBatch(r.values, s.values, r.labels.ids, samples) by {
      WriteValueRows(last, samples, f);
      assert last.values == s.values;
    }
  }

  /** The label rows of a successful write after failed ones, relative to the state before them all. */
  lemma SuccessAfterFailuresLabels(s0: DbState, s: DbState, samples: seq<Sample>, f: set<Phase>)
    requires AfterFailedWrites(s0, s, samples)
    requires WriteSpec(s, samples, f).err.None?
    ensures var t := WriteSpec(s, samples, f).state.labels;
      && t.ids.Keys == s0.labels.ids.Keys + SeriesKeys(samples)
      && (forall k :: k in s0.labels.ids ==> t.ids[k] == s0.labels.ids[k])
      && (forall k :: k in t.ids && k !in s0.labels.ids ==> s0.labels.nextId <= t.ids[k] < t.nextId)
  {
    WriteLabelRows(s, samples, f);
  }

  /**
   * Retrying a `Write` that in fact succeeded (its result was lost) stores
   * every value row twice: the labels insert adds no row and changes no id
   * (only the sequence moves on, one id per series), but the values insert
   * is not idempotent.
   */
  lemma WriteRetryAfterSuccess(s: DbState, samples: seq<Sample>, f1: set<Phase>, f2: set<Phase>)
    requires WriteSpec(s, samples, f1).err.None?
    requires WriteSpec(WriteSpec(s, samples, f1).state, samples, f2).err.None?
    ensures var once := WriteSpec(s, samples, f1).state;
      var twice := WriteSpec(once, samples, f2).state;
      && twice.labels.ids == once.labels.ids
      && twice.labels.nextId == once.labels.nextId + |SeriesKeys(samples)|
      && twice.values == once.values + JoinValues(StagedRows(samples), once.labels.ids)
      && |twice.values| == |s.values| + 2 * |samples|
  {
    var rows := StagedRows(samples);
    var once := WriteSpec(s, samples, f1).state;
    WriteEffect(s, samples, f1);
    WriteEffect(once, samples, f2);
    InsertDistinctLabelsRepeat(s.labels, rows);
    StagedRowsSpec(samples);
    JoinValuesSpec(rows, s.labels.ids);
    JoinValuesSpec(rows, once.labels.ids);
  }

  /** Every value row with a `labels_id` references a label row of `ids`. */
  ghost predicate ValuesReference(values: seq<ValueRow>, ids: map<LabelKey, nat>)
  {
    forall i :: 0 <= i < |values| && values[i].labelsId.Some? ==> values[i].labelsId.value in ids.Values
  }

  /** The database invariant: label ids are valid, and value rows reference stored label rows. */
  ghost predicate Valid(d: DbState)
  {
    LabelTableValid(d.labels) && ValuesReference(d.values, d.labels.ids)
  }

  /** References survive a labels table that keeps every row and id. */
  lemma ValuesReferenceGrow(values: seq<ValueRow>, ids1: map<LabelKey, nat>, ids2: map<LabelKey, nat>)
    requires ValuesReference(values, ids1)
    requires forall k :: k in ids1 ==> k in ids2 && ids2[k] == ids1[k]
    ensures ValuesReference(values, ids2)
  {
    forall i | 0 <= i < |values| && values[i].labelsId.Some? ensures values[i].labelsId.value in ids2.Values {
      var k :| k in ids1 && ids1[k] == values[i].labelsId.value;
      assert ids2[k] == ids1[k];
    }
  }

  /** The left join only yields ids of stored label rows. */
  lemma JoinValuesReference(rows: seq<StagedRow>, ids: map<LabelKey, nat>)
    ensures ValuesReference(JoinValues(rows, ids), ids)
  {
    JoinValuesSpec(rows, ids);
    forall i | 0 <= i < |rows| && JoinValues(rows, ids)[i].labelsId.Some?
      ensures JoinValues(rows, ids)[i].labelsId.value in ids.Values
    {
      assert KeyOf(rows[i]) in ids;
    }
  }

  lemma ValuesReferenceAppend(a: seq<ValueRow>, b: seq<ValueRow>, ids: map<LabelKey, nat>)
    requires ValuesReference(a, ids) && ValuesReference(b, ids)
    ensures ValuesReference(a + b, ids)
  {
    forall i | 0 <= i < |a + b| && (a + b)[i].labelsId.Some? ensures (a + b)[i].labelsId.value in ids.Values {
      if i >= |a| {
        assert (a + b)[i] == b[i - |a|];
      }
    }
  }

  /** Every `Write`, whatever fails, keeps the database invariant. */
  lemma WritePreservesValid(s: DbState, samples: seq<Sample>, faults: set<Phase>)
    requires Valid(s)
    ensures Valid(WriteSpec(s, samples, faults).state)
  {
    var r := WriteSpec(s, samples, faults).state;
    var rows := StagedRows(samples);
    var labelled := InsertDistinctLabels(s.labels, rows);
    WriteEffect(s, samples, faults);
    InsertDistinctLabelsValid(s.labels, rows);
    InsertDistinctLabelsRows(s.labels, rows);
    SequenceAdvanceValid(s.labels, labelled.nextId);
    ValuesReferenceGrow(s.values, s.labels.ids, labelled.ids);
    JoinValuesReference(rows, labelled.ids);
    ValuesReferenceAppend(s.values, JoinValues(rows, labelled.ids), labelled.ids);
  }

  /** The label insert of two staged rows of one new key stores one row, with the next id. */
  lemma InsertTwoOfOneKey(t: LabelTable, a: StagedRow, b: StagedRow)
    requires KeyOf(a) == KeyOf(b) && KeyOf(a) !in t.ids
    ensures InsertDistinctLabels(t, [a, b]) == LabelTable(t.ids[KeyOf(a) := t.nextId], t.nextId + 1)
  {
    assert [a, b][..1] == [a];
    assert [a][..0] == [];
    assert InsertDistinctLabels(t, []) == t;
    var one := InsertDistinctLabels(t, [a]);
    assert one == LabelTable(t.ids[KeyOf(a) := t.nextId], t.nextId + 1);
    assert KeyOf(b) in one.ids;
  }

  /** The value insert of two staged rows: two rows, in order. */
  lemma JoinTwo(a: StagedRow, b: StagedRow, ids: map<LabelKey, nat>)
    ensures JoinValues([a, b], ids) == [ValueRow(a.time, a.value, Lookup(ids, KeyOf(a))), ValueRow(b.time, b.value, Lookup(ids, KeyOf(b)))]
  {
    assert [a, b][..1] == [a];
    assert [a][..0] == [];
    assert JoinValues([], ids) == [];
    assert JoinValues([a], ids) == [ValueRow(a.time, a.value, Lookup(ids, KeyOf(a)))];
  }

  /**
   * Two samples of one new series in one successful `Write`: one label row,
   * with the next id of the sequence, and two value rows that reference it.
   */
  lemma WriteTwoSamplesOneSeries(s: DbState, x: Sample, y: Sample, faults: set<Phase>)
    requires x.metric == y.metric && SeriesKey(x) !in s.labels.ids
    requires WriteSpec(s, [x, y], faults).err.None?
    ensures WriteSpec(s, [x, y], faults).state.labels
      == LabelTable(s.labels.ids[SeriesKey(x) := s.labels.nextId], s.labels.nextId + 1)
    ensures WriteSpec(s, [x, y], faults).state.values
      == s.values + [ValueRow(x.timestamp, x.value, Some(s.labels.nextId)), ValueRow(y.timestamp, y.value, Some(s.labels.nextId))]
  {
    var rows := StagedRows([x, y]);
    assert rows == [StagedRowOf(x), StagedRowOf(y)];
    InsertTwoOfOneKey(s.labels, StagedRowOf(x), StagedRowOf(y));
    JoinTwo(StagedRowOf(x), StagedRowOf(y), InsertDistinctLabels(s.labels, rows).ids);
    WriteEffect(s, [x, y], faults);
  }
}
