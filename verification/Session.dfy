/** Transactions around statements, and scripts (core/src/executor/execute.rs, core/src/glue.rs).

  A storage either keeps snapshots, as the sled storage does, or has no transactions, as the memory
  storage does: then `begin(true)` answers that there is nothing to commit. */
module Session {
  import opened Data
  import opened Store
  import opened Dml
  import opened Integrity
  import opened Reachable

  datatype Transaction = Idle | Open(saved: Database, autocommit: bool)

  datatype State = State(db: Database, tx: Transaction)

  datatype Command = Execute(statement: Statement) | StartTransaction | Commit | Rollback

  datatype Reply = Rows(payload: Payload) | Started | Committed | RolledBack

  // ----- the transaction interface -----

  /** `begin`.  Registering a new transaction may fail, which leaves the storage idle. */
  ghost predicate BeginStep(snapshots: bool, s: State, autocommit: bool, s': State, r: Result<bool>) {
    if !snapshots then s' == s && (if autocommit then r == Ok(false) else r.Err?)
    else match s.tx
      case Open(_, current) => s' == s && (if autocommit then r == Ok(current) else r.Err?)
      case Idle => (r == Ok(autocommit) && s' == s.(tx := Open(s.db, autocommit))) || (r.Err? && s' == s)
  }

  /** `commit`.  It may fail before the lock is released, which leaves the transaction open, or while
    collecting garbage after that, when the transaction is closed already. */
  ghost predicate CommitStep(snapshots: bool, s: State, s': State, r: Result<()>) {
    if !snapshots then s' == s && r.Ok?
    else match s.tx
      case Idle => s' == s && r.Err?
      case Open(_, _) => s' == s.(tx := Idle) || (r.Err? && s' == s)
  }

  /** `rollback`.  It may fail before the rows are restored or after that, when releasing the lock;
    either way the transaction stays open. */
  ghost predicate RollbackStep(snapshots: bool, s: State, s': State, r: Result<()>) {
    if !snapshots then s' == s && r.Ok?
    else match s.tx
      case Idle => s' == s && r.Err?
      case Open(saved, _) =>
        if r.Ok? then s' == State(saved, Idle) else s' == s || s' == s.(db := saved)
  }

  // ----- one command -----

  /** What happened inside one statement: the answers of `begin`, of the statement itself with the rows
    it left behind, and of the commit or rollback that closed it. */
  datatype Inside = Inside(begun: Result<bool>, db: Database, result: Result<Payload>, closed: Result<()>)

  /** A statement between `begin(true)` and, if that opened a transaction, commit or rollback. */
  ghost predicate StatementVia(
      approx: (Value, Value) -> bool, snapshots: bool, s: State, statement: Statement, s': State, r: Result<Payload>,
      i: Inside)
  {
    exists s1 | BeginStep(snapshots, s, true, s1, i.begun) ::
      if i.begun.Err? then s' == s1 && r.Err?
      else
        && Step(approx, s1.db, statement, i.db, i.result)
        && if !i.begun.value then s' == s1.(db := i.db) && r == i.result
           else if i.result.Ok? then
             CommitStep(snapshots, s1.(db := i.db), s', i.closed) && (if i.closed.Ok? then r == i.result else r.Err?)
           else RollbackStep(snapshots, s1.(db := i.db), s', i.closed) && r.Err?
  }

  ghost predicate StatementStep(
      approx: (Value, Value) -> bool, snapshots: bool, s: State, statement: Statement, s': State, r: Result<Payload>)
  {
    exists i :: StatementVia(approx, snapshots, s, statement, s', r, i)
  }

  ghost predicate CommandStep(
      approx: (Value, Value) -> bool, snapshots: bool, s: State, c: Command, s': State, r: Result<Reply>)
  {
    match c
    case Execute(statement) =>
      exists p :: StatementStep(approx, snapshots, s, statement, s', p) &&
                  (r == match p case Ok(payload) => Ok(Rows(payload)) case Err(e) => Err(e))
    case StartTransaction =>
      exists b :: BeginStep(snapshots, s, false, s', b) && (r.Ok? <==> b.Ok?) && (r.Ok? ==> r.value == Started)
    case Commit =>
      exists c :: CommitStep(snapshots, s, s', c) && (r.Ok? <==> c.Ok?) && (r.Ok? ==> r.value == Committed)
    case Rollback =>
      exists c :: RollbackStep(snapshots, s, s', c) && (r.Ok? <==> c.Ok?) && (r.Ok? ==> r.value == RolledBack)
  }

  // ----- atomic statements -----

  /** The statement was accepted, and all of its rows reached the storage. */
  ghost predicate AppliedWhole(
      approx: (Value, Value) -> bool, before: Database, statement: Statement, after: Database)
  {
    && Accepts(approx, before, statement)
    && var change := ChangeOf(approx, before, statement);
    && CanApply(before, statement.table, change, Size(change))
    && after == Apply(before, statement.table, change, Size(change))
  }

  lemma SucceededStepApplies(
      approx: (Value, Value) -> bool, before: Database, statement: Statement, after: Database, r: Result<Payload>)
    requires Step(approx, before, statement, after, r) && r.Ok?
    ensures AppliedWhole(approx, before, statement, after)
  {
    hide Accepts, Apply, ChangeOf, PayloadOf, CanApply;
  }

  /** Where a statement leads that began outside a transaction on a snapshot storage.
    If `begin` failed, nowhere.  If the statement itself failed, the store is as it was exactly when the
    rollback answered Ok; otherwise the transaction stays open, with the rows restored or as the statement
    left them.  Otherwise the whole change is there: for good if the lock was released, and in the open
    transaction if the commit failed before that. */
  ghost predicate Outcome(approx: (Value, Value) -> bool, s: State, statement: Statement, s': State, i: Inside) {
    if i.begun.Err? then s' == s
    else if i.result.Err? then
      && (i.closed.Ok? <==> s' == s)
      && (i.closed.Err? ==> s'.tx == Open(s.db, true) && (s'.db == s.db || s'.db == i.db))
    else
      && AppliedWhole(approx, s.db, statement, s'.db)
      && (s'.tx.Idle? || (i.closed.Err? && s'.tx == Open(s.db, true)))
  }

  /** A statement outside a transaction succeeds exactly when `begin`, the statement and the commit do,
    and leads exactly to the stated outcomes. */
  lemma AutocommittedStatementIsAtomic(
      approx: (Value, Value) -> bool, s: State, statement: Statement, s': State, r: Result<Payload>, i: Inside)
    requires s.tx.Idle? && StatementVia(approx, true, s, statement, s', r, i)
    ensures r.Ok? <==> i.begun.Ok? && i.result.Ok? && i.closed.Ok?
    ensures Outcome(approx, s, statement, s', i)
    ensures r.Ok? ==> s'.tx.Idle?
  {
    hide Step, AppliedWhole;
    if i.begun.Ok? && i.result.Ok? { SucceededStepApplies(approx, s.db, statement, i.db, i.result); }
  }

  /** What a failed rollback or commit leaves open, the next statement joins: its success closes both
    for good, and its failure followed by a rollback that answers Ok undoes both. */
  lemma NextStatementJoinsWhatIsOpen(
      approx: (Value, Value) -> bool, s: State, saved: Database, statement: Statement, s': State, r: Result<Payload>,
      i: Inside)
    requires s.tx == Open(saved, true) && StatementVia(approx, true, s, statement, s', r, i)
    ensures r.Ok? ==> s'.tx.Idle? && AppliedWhole(approx, s.db, statement, s'.db)
    ensures i.result.Err? && i.closed.Ok? ==> s' == State(saved, Idle)
  {
    hide Step, AppliedWhole;
    if i.result.Ok? { SucceededStepApplies(approx, s.db, statement, i.db, i.result); }
  }

  // ----- consistency across transactions -----

  ghost predicate Sound(s: State) {
    Consistent(s.db) && (s.tx.Open? ==> Consistent(s.tx.saved))
  }

  lemma StatementKeepsSound(
      approx: (Value, Value) -> bool, snapshots: bool, s: State, statement: Statement, s': State, r: Result<Payload>,
      i: Inside)
    requires Sound(s) && StatementVia(approx, snapshots, s, statement, s', r, i)
    ensures Sound(s')
  {
    hide Consistent, Step;
    if i.begun.Ok? && Step(approx, s.db, statement, i.db, i.result) {
      StepKeepsConsistency(approx, s.db, statement, i.db, i.result);
    }
  }

  lemma CommandKeepsSound(
      approx: (Value, Value) -> bool, snapshots: bool, s: State, c: Command, s': State, r: Result<Reply>)
    requires Sound(s) && CommandStep(approx, snapshots, s, c, s', r)
    ensures Sound(s')
  {
    hide Consistent, StatementVia;
    if c.Execute? {
      var p :| StatementStep(approx, snapshots, s, c.statement, s', p);
      var i :| StatementVia(approx, snapshots, s, c.statement, s', p, i);
      StatementKeepsSound(approx, snapshots, s, c.statement, s', p, i);
    }
  }

  // ----- runs of commands -----

  ghost predicate Session(
      approx: (Value, Value) -> bool, snapshots: bool, trace: seq<State>, commands: seq<Command>,
      replies: seq<Result<Reply>>)
  {
    && |trace| == |commands| + 1 && |replies| == |commands|
    && forall i | 0 <= i < |commands| :: CommandStep(approx, snapshots, trace[i], commands[i], trace[i + 1], replies[i])
  }

  /** Every store of every session is consistent, also inside transactions and after rollbacks. */
  lemma {:induction false} SessionsStaySound(
      approx: (Value, Value) -> bool, snapshots: bool, trace: seq<State>, commands: seq<Command>,
      replies: seq<Result<Reply>>, i: nat)
    requires Session(approx, snapshots, trace, commands, replies) && Sound(trace[0]) && i < |trace|
    ensures Sound(trace[i])
  {
    hide Sound, CommandStep;
    if i > 0 {
      SessionsStaySound(approx, snapshots, trace, commands, replies, i - 1);
      CommandKeepsSound(approx, snapshots, trace[i - 1], commands[i - 1], trace[i], replies[i - 1]);
    }
  }

  /** Inside a transaction, statements keep the saved store, whether they succeed or fail. */
  lemma {:induction false} StatementsKeepTransaction(
      approx: (Value, Value) -> bool, trace: seq<State>, commands: seq<Command>, replies: seq<Result<Reply>>,
      saved: Database, i: nat)
    requires Session(approx, true, trace, commands, replies) && trace[0].tx == Open(saved, false) && i < |trace|
    requires forall j | 0 <= j < |commands| :: commands[j].Execute?
    ensures trace[i].tx == Open(saved, false)
  {
    hide Step;
    if i > 0 {
      StatementsKeepTransaction(approx, trace, commands, replies, saved, i - 1);
      assert CommandStep(approx, true, trace[i - 1], commands[i - 1], trace[i], replies[i - 1]);
    }
  }

  /** ROLLBACK undoes every statement since START TRANSACTION exactly when it answers Ok; if it fails,
    the transaction is still open and its start can still be restored. */
  lemma RollbackUndoesTransaction(
      approx: (Value, Value) -> bool, s: State, statements: seq<Command>, trace: seq<State>,
      replies: seq<Result<Reply>>)
    requires s.tx.Idle?
    requires forall j | 0 <= j < |statements| :: statements[j].Execute?
    requires Session(approx, true, trace, [StartTransaction] + statements + [Rollback], replies) && trace[0] == s
    requires replies[0].Ok?
    ensures replies[|replies| - 1].Ok? <==> trace[|trace| - 1] == s
    ensures replies[|replies| - 1].Err? ==> trace[|trace| - 1].tx == Open(s.db, false)
  {
    hide Step, StatementStep;
    var commands, n := [StartTransaction] + statements + [Rollback], |statements|;
    assert CommandStep(approx, true, trace[0], commands[0], trace[1], replies[0]);
    var inner := trace[1..n + 2];
    forall i | 0 <= i < n ensures CommandStep(approx, true, inner[i], statements[i], inner[i + 1],
      replies[1..n + 1][i]) {
      assert CommandStep(approx, true, trace[i + 1], commands[i + 1], trace[i + 2], replies[i + 1]);
    }
    StatementsKeepTransaction(approx, inner, statements, replies[1..n + 1], s.db, n);
    assert CommandStep(approx, true, trace[n + 1], commands[n + 1], trace[n + 2], replies[n + 1]);
  }

  // ----- scripts -----

  /** `plan_with_params`: every statement of the script is planned before any runs. */
  function PlanAll(
      plan: (Database, string) -> Result<Command>, db: Database, script: seq<string>): (r: Result<seq<Command>>)
    ensures r.Ok? <==> forall i | 0 <= i < |script| :: plan(db, script[i]).Ok?
    ensures r.Ok? ==> |r.value| == |script| && forall i | 0 <= i < |script| :: plan(db, script[i]) == Ok(r.value[i])
  {
    if script == [] then Ok([])
    else
      var first :- plan(db, script[0]);
      var rest :- PlanAll(plan, db, script[1..]);
      Ok([first] + rest)
  }

  /** The commands ran in order up to the first failure: `done` are the replies of those that
    succeeded, and `trace` goes from the first state to the last. */
  ghost predicate ScriptRun(
      approx: (Value, Value) -> bool, snapshots: bool, trace: seq<State>, commands: seq<Command>, done: seq<Reply>,
      r: Result<seq<Reply>>)
  {
    var n := |done|;
    && n <= |commands|
    && |trace| == n + (if r.Ok? then 1 else 2)
    && (forall i | 0 <= i < n :: CommandStep(approx, snapshots, trace[i], commands[i], trace[i + 1], Ok(done[i])))
    && (r.Ok? ==> n == |commands| && r.value == done)
    && (r.Err? ==> n < |commands| && CommandStep(approx, snapshots, trace[n], commands[n], trace[n + 1], Err(r.error)))
  }

  /** Outside transactions on a snapshot storage, the statements before the failing one of a script are
    applied for good, and the failing one leads exactly to the outcomes of a single failing statement: it
    left nothing if `begin` failed or its rollback answered Ok, and it is applied whole if only its commit
    failed. */
  lemma FailedScriptAppliedItsPrefix(
      approx: (Value, Value) -> bool, trace: seq<State>, commands: seq<Command>, done: seq<Reply>,
      r: Result<seq<Reply>>)
    returns (i: Inside)
    requires ScriptRun(approx, true, trace, commands, done, r) && r.Err? && trace[0].tx.Idle?
    requires forall i | 0 <= i < |commands| :: commands[i].Execute?
    ensures trace[|done|].tx.Idle?
    ensures forall j | 0 <= j < |done| :: AppliedWhole(approx, trace[j].db, commands[j].statement, trace[j + 1].db)
    ensures !(i.begun.Ok? && i.result.Ok? && i.closed.Ok?)
    ensures Outcome(approx, trace[|done|], commands[|done|].statement, trace[|done| + 1], i)
  {
    hide Step, StatementVia, Outcome, AppliedWhole;
    var n := |done|;
    forall j | 0 <= j < n ensures AppliedWhole(approx, trace[j].db, commands[j].statement, trace[j + 1].db) {
      SucceededStatementsCommit(approx, trace, commands, done, j + 1);
    }
    SucceededStatementsCommit(approx, trace, commands, done, n);
    var failed := commands[n];
    var p :| StatementStep(approx, true, trace[n], failed.statement, trace[n + 1], p) && p.Err?;
    i :| StatementVia(approx, true, trace[n], failed.statement, trace[n + 1], p, i);
    AutocommittedStatementIsAtomic(approx, trace[n], failed.statement, trace[n + 1], p, i);
  }

  lemma {:induction false} SucceededStatementsCommit(
      approx: (Value, Value) -> bool, trace: seq<State>, commands: seq<Command>, done: seq<Reply>, i: nat)
    requires |done| <= |commands| && |done| < |trace| && i <= |done| && trace[0].tx.Idle?
    requires forall j | 0 <= j < |commands| :: commands[j].Execute?
    requires forall j | 0 <= j < |done| :: CommandStep(approx, true, trace[j], commands[j], trace[j + 1], Ok(done[j]))
    ensures trace[i].tx.Idle?
    ensures i > 0 ==> AppliedWhole(approx, trace[i - 1].db, commands[i - 1].statement, trace[i].db)
  {
    hide Step, StatementVia, AppliedWhole;
    if i > 0 {
      SucceededStatementsCommit(approx, trace, commands, done, i - 1);
      assert CommandStep(approx, true, trace[i - 1], commands[i - 1], trace[i], Ok(done[i - 1]));
      var p :| StatementStep(approx, true, trace[i - 1], commands[i - 1].statement, trace[i], p) && p.Ok?;
      var inside :| StatementVia(approx, true, trace[i - 1], commands[i - 1].statement, trace[i], p, inside);
      AutocommittedStatementIsAtomic(approx, trace[i - 1], commands[i - 1].statement, trace[i], p, inside);
    }
  }
}
