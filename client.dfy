/**
 * The PostgreSQL writer as the program runs it: a database session whose
 * tables the statements change in place, and a client whose `Write` issues
 * the statements one after the other. Each database call may fail; the
 * phases given in `faults` are the ones that do. Every method is proved to
 * change the session exactly as the corresponding phase of the value model
 * does, so `Write` is proved to be `WriteSpec`.
 */
module PgClient {
  import opened Model
  import opened MetricMeta
  import opened PgStore

  /** The database and the session of the one pooled connection the client uses. */
  class Database {
    var staging: seq<StagedRow>
    var tmpExists: bool
    var labels: LabelTable
    var values: seq<ValueRow>
    var connHeld: bool
    ghost var trace: seq<Phase>
    /** Whether a transaction is open, and the rows to restore if it is rolled back. */
    var inTx: bool
    var undoIds: map<LabelKey, nat>
    var undoValues: seq<ValueRow>

    /** The session as a value. */
    ghost function State(): DbState
      reads this
    {
      DbState(staging, tmpExists, labels, values, connHeld, trace)
    }

    /** `sql.OpenDB`: a database with the given tables, no staging table, no connection held and no open transaction. */
    constructor (labels0: LabelTable, values0: seq<ValueRow>)
      ensures State() == DbState([], false, labels0, values0, false, [])
      ensures !inTx
    {
      staging := [];
      tmpExists := false;
      labels := labels0;
      values := values0;
      connHeld := false;
      trace := [];
      inTx := false;
      undoIds := map[];
      undoValues := [];
    }

    /** `DB.Conn`: take a connection from the pool. */
    method Conn(faults: set<Phase>) returns (err: Option<Phase>)
      modifies this
      ensures State() == AcquireStep(old(State()), faults).state
      ensures err == AcquireStep(old(State()), faults).err
      ensures inTx == old(inTx) && undoIds == old(undoIds) && undoValues == old(undoValues)
    {
      trace := trace + [AcquireConn];
      if AcquireConn in faults {
        err := Some(AcquireConn);
      } else {
        connHeld := true;
        err := None;
      }
    }

    /** `ExecContext` of the create statement of the staging table. */
    method ExecCreateTmpTable(faults: set<Phase>) returns (err: Option<Phase>)
      modifies this
      ensures State() == CreateTmpStep(old(State()), faults).state
      ensures err == CreateTmpStep(old(State()), faults).err
      ensures inTx == old(inTx) && undoIds == old(undoIds) && undoValues == old(undoValues)
    {
      trace := trace + [CreateTmpTable];
      if CreateTmpTable in faults || tmpExists {
        err := Some(CreateTmpTable);
      } else {
        tmpExists := true;
        staging := [];
        err := None;
      }
    }

    /** `CopyFrom` into the staging table: all rows or none. */
    method CopyFrom(rows: seq<StagedRow>, faults: set<Phase>) returns (err: Option<Phase>)
      modifies this
      ensures State() == CopyStep(old(State()), rows, faults).state
      ensures err == CopyStep(old(State()), rows, faults).err
      ensures inTx == old(inTx) && undoIds == old(undoIds) && undoValues == old(undoValues)
    {
      trace := trace + [CopyRows];
      if CopyRows in faults || !tmpExists {
        err := Some(CopyRows);
      } else {
        staging := staging + rows;
        err := None;
      }
    }

    /**
     * One step of a transaction. `Begin` opens the transaction and records
     * the rows to restore on a rollback; `Exec` runs the statement, whose
     * rows the transaction holds until the commit. `Commit` closes the
     * transaction whether or not it succeeds, since `Tx.Commit` marks it
     * done before it reaches the server. A failed commit is one the server
     * aborted: its rows are gone, while the ids it drew stay used. Any other
     * failing step changes nothing but the trace.
     */
    method TxCall(q: Query, step: TxStep, faults: set<Phase>) returns (err: Option<Phase>)
      modifies this
      ensures trace == old(trace) + [Tx(q, step)]
      ensures err == if Tx(q, step) in faults then Some(Tx(q, step)) else None
      ensures State() ==
        if step == Exec && err.None? then ApplyQuery(Issue(old(State()), Tx(q, step)), q)
        else if step == Commit && err.Some? && old(inTx)
        then Issue(old(State()), Tx(q, step)).(labels := LabelTable(old(undoIds), old(labels.nextId)), values := old(undoValues))
        else Issue(old(State()), Tx(q, step))
      ensures step == Begin && err.None? ==> inTx && undoIds == old(labels.ids) && undoValues == old(values)
      ensures step == Commit ==> !inTx && undoIds == old(undoIds) && undoValues == old(undoValues)
      ensures step != Commit && (step != Begin || err.Some?) ==>
        inTx == old(inTx) && undoIds == old(undoIds) && undoValues == old(undoValues)
    {
      trace := trace + [Tx(q, step)];
      if Tx(q, step) in faults {
        err := Some(Tx(q, step));
        if step == Commit && inTx {
          labels := LabelTable(undoIds, labels.nextId);
          values := undoValues;
        }
        if step == Commit {
          inTx := false;
        }
      } else {
        err := None;
        if step == Begin {
          inTx := true;
          undoIds := labels.ids;
          undoValues := values;
        } else if step == Exec {
          match q
          case LabelsQuery => labels := InsertDistinctLabels(labels, staging);
          case ValuesQuery => values := values + JoinValues(staging, labels.ids);
        } else if step == Commit {
          inTx := false;
        }
      }
    }

    /**
     * `tx.Rollback()`: in an open transaction, restore the rows recorded at
     * its begin and close it; the sequence keeps the ids drawn meanwhile.
     * Once the transaction is done, committed or not, it has no effect.
     */
    method Rollback()
      modifies this
      ensures State() == if old(inTx) then old(State()).(labels := LabelTable(old(undoIds), old(labels.nextId)), values := old(undoValues)) else old(State())
      ensures !inTx && undoIds == old(undoIds) && undoValues == old(undoValues)
    {
      if inTx {
        labels := LabelTable(undoIds, labels.nextId);
        values := undoValues;
        inTx := false;
      }
    }

    /** `ExecContext` of the drop statement of the staging table. */
    method ExecDropTmpTable(faults: set<Phase>) returns (err: Option<Phase>)
      modifies this
      ensures inTx == old(inTx) && undoIds == old(undoIds) && undoValues == old(undoValues)
      ensures trace == old(trace) + [DropTmpTable]
      ensures err.None? <==> DropTmpTable !in faults && old(tmpExists)
      ensures State() == (if err.None? then old(State()).(tmpExists := false, staging := []) else old(State())).(trace := trace)
    {
      trace := trace + [DropTmpTable];
      if DropTmpTable in faults || !tmpExists {
        err := Some(DropTmpTable);
      } else {
        tmpExists := false;
        staging := [];
        err := None;
      }
    }

    /** `conn.Close`: return the connection to the pool. */
    method Close()
      modifies this
      ensures inTx == old(inTx) && undoIds == old(undoIds) && undoValues == old(undoValues)
      ensures State() == old(State()).(connHeld := false, trace := old(trace) + [ReleaseConn])
    {
      trace := trace + [ReleaseConn];
      connHeld := false;
    }
  }

  /** `Client`: writes batches of samples through its database handle. */
  class Client {
    const db: Database

    constructor (db0: Database)
      ensures db == db0
    {
      db := db0;
    }

    /**
     * `copyFromTmpTableInTransaction`: begin, prepare, exec, close, commit;
     * the first failing step's error is returned. Once the transaction has
     * begun, the deferred rollback runs on every way out. It undoes the
     * statement after a failed prepare, exec or close. After a commit, failed
     * or not, it has nothing left to do.
     */
    method CopyFromTmpTableInTransaction(q: Query, faults: set<Phase>) returns (err: Option<Phase>)
      modifies db
      ensures db.State() == TransactionStep(old(db.State()), q, faults).state
      ensures err == TransactionStep(old(db.State()), q, faults).err
      ensures err != Some(Tx(q, Begin)) ==> !db.inTx
    {
      ghost var s0 := db.State();
      err := db.TxCall(q, Begin, faults);
      if err.Some? {
        TransactionFailsAtBegin(s0, q, faults);
        return;
      }
      err := db.TxCall(q, Prepare, faults);
      assert db.State() == Prepared(s0, q);
      if err.Some? {
        db.Rollback();
        TransactionFailsAtPrepare(s0, q, faults);
        return;
      }
      err := db.TxCall(q, Exec, faults);
      if err.Some? {
        db.Rollback();
        TransactionFailsAtExec(s0, q, faults);
        return;
      }
      assert db.State() == Ran(s0, q);
      err := db.TxCall(q, CloseStmt, faults);
      if err.Some? {
        db.Rollback();
        TransactionFailsAtClose(s0, q, faults);
        return;
      }
      err := db.TxCall(q, Commit, faults);
      db.Rollback();
      if err.Some? {
        TransactionFailsAtCommit(s0, q, faults);
      } else {
        TransactionCommits(s0, q, faults);
      }
    }

    /** `insertLabels`: the labels insert in its own transaction. */
    method InsertLabels(faults: set<Phase>) returns (err: Option<Phase>)
      modifies db
      ensures db.State() == TransactionStep(old(db.State()), LabelsQuery, faults).state
      ensures err == TransactionStep(old(db.State()), LabelsQuery, faults).err
    {
      err := CopyFromTmpTableInTransaction(LabelsQuery, faults);
    }

    /** `insertValues`: the values insert in its own transaction. */
    method InsertValues(faults: set<Phase>) returns (err: Option<Phase>)
      modifies db
      ensures db.State() == TransactionStep(old(db.State()), ValuesQuery, faults).state
      ensures err == TransactionStep(old(db.State()), ValuesQuery, faults).err
    {
      err := CopyFromTmpTableInTransaction(ValuesQuery, faults);
    }

    /** `cleanup`: drop the staging table (a failure is only logged), then release the connection. */
    method Cleanup(faults: set<Phase>)
      modifies db
      ensures db.State() == CleanupStep(old(db.State()), faults)
    {
      var dropErr := db.ExecDropTmpTable(faults);
      db.Close();
    }

    /**
     * `Write`: acquire a connection (returning at once if that fails); once
     * it is held, run the remaining phases and then, as the deferred
     * `cleanup`, drop the staging table and release the connection.
     */
    method Write(samples: seq<Sample>, faults: set<Phase>) returns (err: Option<Phase>)
      modifies db
      ensures db.State() == WriteSpec(old(db.State()), samples, faults).state
      ensures err == WriteSpec(old(db.State()), samples, faults).err
    {
      err := db.Conn(faults);
      if err.Some? {
        return;
      }
      err := WriteHeld(samples, faults);
      Cleanup(faults);
    }

    /**
     * The body of `Write` while the connection is held: create the staging
     * table, build the staging rows, then copy and insert, stopping at the
     * first failure.
     */
    method WriteHeld(samples: seq<Sample>, faults: set<Phase>) returns (err: Option<Phase>)
      modifies db
      ensures db.State() == HeldPhasesStep(old(db.State()), StagedRows(samples), faults).state
      ensures err == HeldPhasesStep(old(db.State()), StagedRows(samples), faults).err
    {
      err := db.ExecCreateTmpTable(faults);
      if err.Some? {
        return;
      }
      var inputRows := StageRows(samples);
      err := CopyAndInsert(inputRows, faults);
    }

    /**
     * The rows `Write` copies into the staging table: one per sample, in
     * input order, holding the sample's timestamp and value and the metric
     * name and label text `metricMetaJson` gives for its labels.
     */
    method StageRows(samples: seq<Sample>) returns (inputRows: seq<StagedRow>)
      ensures |inputRows| == |samples|
      ensures forall i :: 0 <= i < |samples| ==>
        inputRows[i] == StagedRow(samples[i].timestamp, samples[i].value, MetricName(samples[i].metric), CanonicalText(samples[i].metric))
      ensures inputRows == StagedRows(samples)
    {
      inputRows := [];
      for i := 0 to |samples|
        invariant |inputRows| == i
        invariant forall j :: 0 <= j < i ==> inputRows[j] == StagedRowOf(samples[j])
      {
        var sample := samples[i];
        var metricName, metricJson := MetricMetaJson(sample.metric);
        inputRows := inputRows + [StagedRow(sample.timestamp, sample.value, metricName, metricJson)];
      }
    }

    /** The copy, then the labels and the values inserts, stopping at the first failure. */
    method CopyAndInsert(inputRows: seq<StagedRow>, faults: set<Phase>) returns (err: Option<Phase>)
      modifies db
      ensures db.State() == CopyAndInsertStep(old(db.State()), inputRows, faults).state
      ensures err == CopyAndInsertStep(old(db.State()), inputRows, faults).err
    {
      err := db.CopyFrom(inputRows, faults);
      if err.Some? {
        return;
      }
      err := InsertLabels(faults);
      if err.Some? {
        return;
      }
      err := InsertValues(faults);
    }
  }
}
