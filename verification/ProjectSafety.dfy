/**
 What holds in every reachable state, whatever the interleaving: the committed projects are the result of carrying
 out the successful requests one after the other in commit order, each of them legal; every project's account exists
 and is enabled for demand; and no update of a project ever succeeds.
 */
module ProjectSafety {
  import opened Wrappers
  import opened Identifiers
  import opened ProjectTransactions

  // ---------- The log as a serial execution ----------

  /** One request carried out on its own. */
  function CarryOut(projects: map<Id, Id>, c: Commit): map<Id, Id> {
    match c
    case Created(_, id, accountId) => projects[id := accountId]
    case Removed(_, id) => projects - {id}
  }

  /** A project is created when absent and removed when present. */
  predicate CanCarryOut(projects: map<Id, Id>, c: Commit) {
    c.Created? <==> c.id !in projects
  }

  /** The projects and their accounts after carrying out the logged requests in order. */
  function Replay(log: seq<Commit>): map<Id, Id> {
    if |log| == 0 then map[] else CarryOut(Replay(log[..|log| - 1]), log[|log| - 1])
  }

  /** Each logged request could succeed where it stands. */
  predicate Legal(log: seq<Commit>) {
    |log| > 0 ==> Legal(log[..|log| - 1]) && CanCarryOut(Replay(log[..|log| - 1]), log[|log| - 1])
  }

  function AccountsOf(projects: map<Id, Row>): map<Id, Id> {
    map id | id in projects :: projects[id].accountId
  }

  // ---------- The invariant ----------

  predicate Charged(db: Db, accountId: Id) {
    accountId in db.accounts && db.accounts[accountId]
  }

  /** What the database alone keeps. */
  predicate DbOk(db: Db) {
    && (forall id :: id in db.projects ==>
          && ValidResourceID(id)
          && db.projects[id].version < db.nextVersion
          && Charged(db, db.projects[id].accountId))
    && db.billed <= db.projects.Keys
  }

  /** What a transaction at its stage knows of the database. */
  predicate TxnOk(db: Db, t: Txn) {
    match t.request
    case CreateProject(id, accountId) =>
      (match t.stage
       case Begun => ValidResourceID(id)
       case AccountChecked => ValidResourceID(id) && Charged(db, accountId)
       case SeenAbsent => ValidResourceID(id) && Charged(db, accountId)
       case Inserted(row) =>
         && ValidResourceID(id) && Charged(db, accountId)
         && row.accountId == accountId && row.version < db.nextVersion && id !in db.projects
       case Done(_) => true
       case _ => false)
    case DeleteProject(id) =>
      (match t.stage
       case Begun => true
       case SeenPresent => true
       case Deleting(version) => version < db.nextVersion
       case Deleted => id in db.projects && id !in db.billed
       case Done(_) => true
       case _ => false)
    case UpdateProject(id, accountId) =>
      (match t.stage
       case Begun => true
       case Locking(version) => version < db.nextVersion
       case Locked(row) => id in db.projects && db.projects[id] == row
       case Decided(row, newAccount) => id in db.projects && db.projects[id] == row && Charged(db, newAccount)
       case Done(status) => status != OK
       case _ => false)
    case CreateAccount(id) =>
      (match t.stage
       case Begun => true
       case AccountInserted => id !in db.accounts
       case Done(_) => true
       case _ => false)
  }

  predicate TxnsOk(s: State) {
    forall u :: u in s.txns ==> TxnOk(s.db, s.txns[u])
  }

  /** No two transactions hold the same project, or insert the same account. */
  ghost predicate Exclusive(s: State) {
    && (forall u, v, id :: u in s.txns && v in s.txns && u != v && Holds(s.txns[u], id) ==> !Holds(s.txns[v], id))
    && (forall u, v, id :: u in s.txns && v in s.txns && u != v && InsertsAccount(s.txns[u], id) ==>
                             !InsertsAccount(s.txns[v], id))
  }

  /** The log is a legal serial execution, and the committed projects are its result. */
  predicate LogOk(s: State) {
    Legal(s.log) && AccountsOf(s.db.projects) == Replay(s.log)
  }

  /** The logged requests are those of the transactions that created or deleted a project and answered OK. */
  ghost predicate AnswersOk(s: State) {
    && (forall u :: u in s.txns && s.txns[u].request.CreateProject? && s.txns[u].stage == Done(OK) ==>
                      Created(u, s.txns[u].request.id, s.txns[u].request.accountId) in s.log)
    && (forall u :: u in s.txns && s.txns[u].request.DeleteProject? && s.txns[u].stage == Done(OK) ==>
                      Removed(u, s.txns[u].request.id) in s.log)
    && (forall i :: 0 <= i < |s.log| ==> s.log[i].tx in s.txns && s.txns[s.log[i].tx].stage == Done(OK))
    && (forall i, j :: 0 <= i < j < |s.log| ==> s.log[i].tx != s.log[j].tx)
  }

  ghost predicate Invariant(s: State) {
    DbOk(s.db) && TxnsOk(s) && Exclusive(s) && LogOk(s) && AnswersOk(s)
  }

  // ---------- One statement keeps it ----------

  /** The database changed in a way that a transaction not holding `id` does not notice. */
  ghost predicate Step(before: Db, after: Db, id: Option<Id>, account: Option<Id>) {
    && before.nextVersion <= after.nextVersion
    && (forall a :: a in before.accounts ==> a in after.accounts && (before.accounts[a] ==> after.accounts[a]))
    && (forall a :: a in after.accounts && a !in before.accounts ==> account == Some(a))
    && (forall p :: Some(p) != id ==> (p in before.projects <==> p in after.projects))
    && (forall p :: Some(p) != id && p in before.projects ==> before.projects[p] == after.projects[p])
  }

  /** A transaction that holds neither the project nor the account that changed is not disturbed. */
  lemma Undisturbed(before: Db, after: Db, id: Option<Id>, account: Option<Id>, t: Txn)
    requires TxnOk(before, t) && Step(before, after, id, account)
    requires id.Some? ==> !Holds(t, id.value)
    requires account.Some? ==> !InsertsAccount(t, account.value)
    requires forall p :: p in after.billed && p !in before.billed ==> !Holds(t, p)
    ensures TxnOk(after, t)
  {}

  /** The project a transaction holds changes when it commits, the account when it commits an account. */
  function Touched(t: Txn): Option<Id> {
    if !t.request.CreateAccount? && (t.stage.Inserted? || t.stage.Deleted?) then Some(t.request.id) else None
  }

  function TouchedAccount(t: Txn): Option<Id> {
    if t.request.CreateAccount? && t.stage.AccountInserted? then Some(t.request.id) else None
  }

  ghost predicate KeepsDb(db: Db, t: Txn, e: Effect) {
    && DbOk(e.db)
    && TxnOk(e.db, Txn(t.request, e.stage))
    && Step(db, e.db, Touched(t), TouchedAccount(t))
    && e.db.billed == db.billed
  }

  lemma CreateKeepsDb(db: Db, log: seq<Commit>, tx: TxId, t: Txn)
    requires DbOk(db) && TxnOk(db, t) && !t.stage.Done? && t.request.CreateProject?
    ensures KeepsDb(db, t, Execute(db, log, tx, t))
  {
    hide ValidResourceID;
  }

  lemma DeleteKeepsDb(db: Db, log: seq<Commit>, tx: TxId, t: Txn)
    requires DbOk(db) && TxnOk(db, t) && !t.stage.Done? && t.request.DeleteProject?
    ensures KeepsDb(db, t, Execute(db, log, tx, t))
  {
    hide ValidResourceID;
  }

  lemma UpdateKeepsDb(db: Db, log: seq<Commit>, tx: TxId, t: Txn)
    requires DbOk(db) && TxnOk(db, t) && !t.stage.Done? && t.request.UpdateProject?
    ensures KeepsDb(db, t, Execute(db, log, tx, t))
  {
    hide ValidResourceID;
    assert !ValidResourceID(UPDATE_ID) by { NoEmptyId(); }
  }

  lemma AccountKeepsDb(db: Db, log: seq<Commit>, tx: TxId, t: Txn)
    requires DbOk(db) && TxnOk(db, t) && !t.stage.Done? && t.request.CreateAccount?
    ensures KeepsDb(db, t, Execute(db, log, tx, t))
  {
    hide ValidResourceID;
  }

  lemma ExecuteKeepsDb(db: Db, log: seq<Commit>, tx: TxId, t: Txn)
    requires DbOk(db) && TxnOk(db, t) && !t.stage.Done?
    ensures KeepsDb(db, t, Execute(db, log, tx, t))
  {
    hide Execute, KeepsDb, DbOk, TxnOk;
    match t.request
    case CreateProject(_, _) => CreateKeepsDb(db, log, tx, t);
    case DeleteProject(_) => DeleteKeepsDb(db, log, tx, t);
    case UpdateProject(_, _) => UpdateKeepsDb(db, log, tx, t);
    case CreateAccount(_) => AccountKeepsDb(db, log, tx, t);
  }

  lemma NoEmptyId()
    ensures !ValidResourceID("")
  {}

  lemma ReplayOneMore(log: seq<Commit>, c: Commit)
    ensures Replay(log + [c]) == CarryOut(Replay(log), c)
    ensures Legal(log + [c]) <==> Legal(log) && CanCarryOut(Replay(log), c)
  {
    assert (log + [c])[..|log + [c]| - 1] == log;
  }

  lemma AccountsOfChange(projects: map<Id, Row>, id: Id, row: Row)
    ensures AccountsOf(projects[id := row]) == AccountsOf(projects)[id := row.accountId]
    ensures AccountsOf(projects - {id}) == AccountsOf(projects) - {id}
  {}

  /** The log entry of a committed creation or deletion, and the projects it leaves. */
  lemma ExecuteCommits(db: Db, log: seq<Commit>, tx: TxId, t: Txn)
    requires DbOk(db) && TxnOk(db, t) && !t.stage.Done?
    ensures var e := Execute(db, log, tx, t);
            var id := t.request.id;
            if t.request.CreateProject? && t.stage.Inserted? then
              && id !in db.projects
              && e.db.projects == db.projects[id := t.stage.row]
              && e.log == log + [Created(tx, id, t.stage.row.accountId)]
            else if t.request.DeleteProject? && t.stage.Deleted? then
              id in db.projects && e.db.projects == db.projects - {id} && e.log == log + [Removed(tx, id)]
            else e.db.projects == db.projects && e.log == log
  {
    assert !ValidResourceID(UPDATE_ID) by { NoEmptyId(); }
    hide ValidResourceID;
  }

  lemma ExecuteKeepsLog(db: Db, log: seq<Commit>, tx: TxId, t: Txn)
    requires DbOk(db) && TxnOk(db, t) && !t.stage.Done?
    requires Legal(log) && AccountsOf(db.projects) == Replay(log)
    ensures var e := Execute(db, log, tx, t);
            Legal(e.log) && AccountsOf(e.db.projects) == Replay(e.log)
  {
    ExecuteCommits(db, log, tx, t);
    hide ValidResourceID, AccountsOf, Legal, Replay, Execute, TxnOk, DbOk;
    AccountsOfKeys(db.projects);
    var id := t.request.id;
    if t.request.CreateProject? && t.stage.Inserted? {
      AccountsOfChange(db.projects, id, t.stage.row);
      ReplayOneMore(log, Created(tx, id, t.stage.row.accountId));
    } else if t.request.DeleteProject? && t.stage.Deleted? {
      AccountsOfChange(db.projects, id, db.projects[id]);
      ReplayOneMore(log, Removed(tx, id));
    }
  }

  lemma AccountsOfKeys(projects: map<Id, Row>)
    ensures AccountsOf(projects).Keys == projects.Keys
  {}

  /** Only a commit of a created or deleted project is logged, and it is logged with its answer. */
  lemma ExecuteLogs(db: Db, log: seq<Commit>, tx: TxId, t: Txn)
    requires DbOk(db) && TxnOk(db, t) && !t.stage.Done?
    ensures var e := Execute(db, log, tx, t);
            || (e.log == log && (e.stage == Done(OK) ==> t.request.CreateAccount?))
            || (e.stage == Done(OK) && t.request.CreateProject? &&
                e.log == log + [Created(tx, t.request.id, t.request.accountId)])
            || (e.stage == Done(OK) && t.request.DeleteProject? && e.log == log + [Removed(tx, t.request.id)])
  {
    hide ValidResourceID;
    assert !ValidResourceID(UPDATE_ID) by { NoEmptyId(); }
  }

  /** A transaction comes to hold a project only when it does not have to wait for another that holds it. */
  lemma ExecuteTakesHold(s: State, tx: TxId, u: TxId, id: Id)
    requires DbOk(s.db) && TxnsOk(s) && Exclusive(s)
    requires Enabled(s, Advance(tx)) && u in s.txns && u != tx && Holds(s.txns[u], id)
    ensures !Holds(Apply(s, Advance(tx)).txns[tx], id)
  {
    hide ValidResourceID;
    var t := s.txns[tx];
    assert TxnOk(s.db, t) && TxnOk(s.db, s.txns[u]);
  }

  lemma ExecuteInsertsAccount(s: State, tx: TxId, u: TxId, id: Id)
    requires TxnsOk(s) && Exclusive(s)
    requires Enabled(s, Advance(tx)) && u in s.txns && u != tx && InsertsAccount(s.txns[u], id)
    ensures !InsertsAccount(Apply(s, Advance(tx)).txns[tx], id)
  {
    var t := s.txns[tx];
    assert TxnOk(s.db, t);
  }

  lemma AdvanceKeepsExclusive(s: State, tx: TxId)
    requires Invariant(s) && Enabled(s, Advance(tx))
    ensures Exclusive(Apply(s, Advance(tx)))
  {
    hide TxnOk, DbOk, Execute, LogOk, AnswersOk, Waits, Holds, InsertsAccount;
    var after := Apply(s, Advance(tx));
    forall u, v, id | u in after.txns && v in after.txns && u != v && Holds(after.txns[u], id)
      ensures !Holds(after.txns[v], id)
    {
      if v == tx {
        ExecuteTakesHold(s, tx, u, id);
      } else if u == tx && Holds(s.txns[v], id) {
        ExecuteTakesHold(s, tx, v, id);
      }
    }
    forall u, v, id | u in after.txns && v in after.txns && u != v && InsertsAccount(after.txns[u], id)
      ensures !InsertsAccount(after.txns[v], id)
    {
      if v == tx {
        ExecuteInsertsAccount(s, tx, u, id);
      } else if u == tx && InsertsAccount(s.txns[v], id) {
        ExecuteInsertsAccount(s, tx, v, id);
      }
    }
  }

  lemma AdvanceKeepsTxns(s: State, tx: TxId)
    requires Invariant(s) && Enabled(s, Advance(tx))
    ensures DbOk(Apply(s, Advance(tx)).db) && TxnsOk(Apply(s, Advance(tx)))
  {
    hide TxnOk, DbOk, Execute, LogOk, AnswersOk, Waits, Step, Touched, TouchedAccount;
    var t := s.txns[tx];
    var after := Apply(s, Advance(tx));
    assert TxnOk(s.db, t);
    ExecuteKeepsDb(s.db, s.log, tx, t);
    forall u | u in after.txns && u != tx ensures TxnOk(after.db, after.txns[u]) {
      assert TxnOk(s.db, s.txns[u]);
      TouchedIsHeld(t);
      if Touched(t).Some? {
        assert !Holds(s.txns[u], Touched(t).value);
      }
      if TouchedAccount(t).Some? {
        assert !InsertsAccount(s.txns[u], TouchedAccount(t).value);
      }
      Undisturbed(s.db, after.db, Touched(t), TouchedAccount(t), s.txns[u]);
    }
  }

  lemma TouchedIsHeld(t: Txn)
    ensures Touched(t).Some? ==> Holds(t, Touched(t).value)
    ensures TouchedAccount(t).Some? ==> InsertsAccount(t, TouchedAccount(t).value)
  {}

  lemma AdvanceKeepsAnswers(s: State, tx: TxId)
    requires Invariant(s) && Enabled(s, Advance(tx))
    ensures AnswersOk(Apply(s, Advance(tx)))
  {
    hide TxnOk, DbOk, Execute, LogOk, Waits, Exclusive;
    var t := s.txns[tx];
    var after := Apply(s, Advance(tx));
    assert TxnOk(s.db, t);
    ExecuteLogs(s.db, s.log, tx, t);
    assert forall c :: c in s.log ==> c in after.log;
  }

  lemma AdvanceKeepsInvariant(s: State, tx: TxId)
    requires Invariant(s) && Enabled(s, Advance(tx))
    ensures Invariant(Apply(s, Advance(tx)))
  {
    AdvanceKeepsTxns(s, tx);
    AdvanceKeepsExclusive(s, tx);
    AdvanceKeepsAnswers(s, tx);
    hide TxnOk, DbOk, Execute, Waits, Exclusive, AnswersOk, Legal, Replay;
    assert TxnOk(s.db, s.txns[tx]);
    ExecuteKeepsLog(s.db, s.log, tx, s.txns[tx]);
  }

  lemma OpenKeepsInvariant(s: State, tx: TxId, request: Request)
    requires Invariant(s) && Enabled(s, Open(tx, request))
    ensures Invariant(Apply(s, Open(tx, request)))
  {
    hide ValidResourceID, DbOk, Legal, Replay;
    var after := Apply(s, Open(tx, request));
    assert TxnOk(s.db, after.txns[tx]);
    assert forall id :: !Holds(after.txns[tx], id) && !InsertsAccount(after.txns[tx], id);
    assert after.txns[tx].stage != Done(OK);
  }

  lemma FailKeepsInvariant(s: State, tx: TxId)
    requires Invariant(s) && Enabled(s, Fail(tx))
    ensures Invariant(Apply(s, Fail(tx)))
  {
    hide ValidResourceID, DbOk, Legal, Replay;
    var after := Apply(s, Fail(tx));
    assert TxnOk(s.db, after.txns[tx]);
    assert forall id :: !Holds(after.txns[tx], id) && !InsertsAccount(after.txns[tx], id);
  }

  lemma EnableKeepsInvariant(s: State, accountId: Id)
    requires Invariant(s) && Enabled(s, EnableDemand(accountId))
    ensures Invariant(Apply(s, EnableDemand(accountId)))
  {
    hide ValidResourceID, Legal, Replay, Holds, InsertsAccount;
    var after := Apply(s, EnableDemand(accountId));
    forall u | u in s.txns ensures TxnOk(after.db, s.txns[u]) {
      Undisturbed(s.db, after.db, None, None, s.txns[u]);
    }
  }

  lemma SpendKeepsInvariant(s: State, id: Id)
    requires Invariant(s) && Enabled(s, WriteProjectSpend(id))
    ensures Invariant(Apply(s, WriteProjectSpend(id)))
  {
    hide ValidResourceID, Legal, Replay, Holds, InsertsAccount;
    var after := Apply(s, WriteProjectSpend(id));
    forall u | u in s.txns ensures TxnOk(after.db, s.txns[u]) {
      Undisturbed(s.db, after.db, None, None, s.txns[u]);
    }
  }

  lemma StepKeepsInvariant(s: State, a: Action)
    requires Invariant(s) && Enabled(s, a)
    ensures Invariant(Apply(s, a))
  {
    match a
    case Open(tx, request) => OpenKeepsInvariant(s, tx, request);
    case Advance(tx) => AdvanceKeepsInvariant(s, tx);
    case Fail(tx) => FailKeepsInvariant(s, tx);
    case EnableDemand(accountId) => EnableKeepsInvariant(s, accountId);
    case WriteProjectSpend(id) => SpendKeepsInvariant(s, id);
  }

  /** The invariant holds after every run: every interleaving of any number of transactions. */
  lemma {:induction false} EveryRunKeepsInvariant(actions: seq<Action>)
    requires IsRun(actions)
    ensures Invariant(StateAfter(actions))
    decreases |actions|
  {
    hide Invariant, Apply, Enabled;
    if |actions| == 0 {
      InitialInvariant();
    } else {
      EveryRunKeepsInvariant(actions[..|actions| - 1]);
      StepKeepsInvariant(StateAfter(actions[..|actions| - 1]), actions[|actions| - 1]);
    }
  }

  lemma InitialInvariant()
    ensures Invariant(INITIAL)
  {}

  // ---------- What it means ----------

  /** After every run the committed projects are those of a serial execution of the successful requests. */
  lemma RunsAreSerializable(actions: seq<Action>)
    requires IsRun(actions)
    ensures var s := StateAfter(actions);
            Legal(s.log) && AccountsOf(s.db.projects) == Replay(s.log)
  {
    EveryRunKeepsInvariant(actions);
  }

  /** Every project of every reachable state belongs to an account that exists and is enabled for demand. */
  lemma ProjectsHaveEnabledAccounts(actions: seq<Action>, id: Id)
    requires IsRun(actions) && id in StateAfter(actions).db.projects
    ensures var s := StateAfter(actions);
            && s.db.projects[id].accountId in s.db.accounts
            && s.db.accounts[s.db.projects[id].accountId]
  {
    EveryRunKeepsInvariant(actions);
  }

  lemma {:induction false} LegalPrefix(log: seq<Commit>, k: nat)
    requires Legal(log) && k <= |log|
    ensures Legal(log[..k])
  {
    if k < |log| {
      assert log[..|log| - 1][..k] == log[..k];
      LegalPrefix(log[..|log| - 1], k);
    } else {
      assert log[..k] == log;
    }
  }

  /** A project stays present until it is removed. */
  lemma {:induction false} PresentUntilRemoved(log: seq<Commit>, i: nat, j: nat, id: Id)
    requires i < j <= |log| && log[i].Created? && log[i].id == id
    requires forall k :: i < k < j ==> !(log[k].Removed? && log[k].id == id)
    ensures id in Replay(log[..j])
    decreases j
  {
    assert log[..j][..j - 1] == log[..j - 1];
    if i < j - 1 {
      PresentUntilRemoved(log, i, j - 1, id);
    }
  }

  /** Between two successful creations of a project it was successfully deleted. */
  lemma OneCreateBetweenDeletes(actions: seq<Action>, i: nat, j: nat)
    requires IsRun(actions)
    requires var log := StateAfter(actions).log;
             i < j < |log| && log[i].Created? && log[j].Created? && log[i].id == log[j].id
    ensures var log := StateAfter(actions).log;
            exists k :: i < k < j && log[k].Removed? && log[k].id == log[i].id
  {
    hide IsRun, StateAfter;
    RunsAreSerializable(actions);
    var log := StateAfter(actions).log;
    var id := log[i].id;
    if forall k :: i < k < j ==> !(log[k].Removed? && log[k].id == id) {
      PresentUntilRemoved(log, i, j, id);
      LegalPrefix(log, j + 1);
      assert log[..j + 1][..j] == log[..j];
    }
  }

  /** An answer OK to a creation or deletion is backed by exactly one commit of that request. */
  lemma OkAnswersCommitted(actions: seq<Action>, tx: TxId)
    requires IsRun(actions) && tx in StateAfter(actions).txns
    requires var t := StateAfter(actions).txns[tx];
             t.stage == Done(OK) && (t.request.CreateProject? || t.request.DeleteProject?)
    ensures var s := StateAfter(actions);
            var r := s.txns[tx].request;
            var c := if r.CreateProject? then Created(tx, r.id, r.accountId) else Removed(tx, r.id);
            c in s.log && multiset(s.log)[c] == 1
  {
    hide IsRun, StateAfter, Legal, Replay, TxnOk, DbOk, Exclusive;
    EveryRunKeepsInvariant(actions);
    var s := StateAfter(actions);
    var r := s.txns[tx].request;
    var c := if r.CreateProject? then Created(tx, r.id, r.accountId) else Removed(tx, r.id);
    OccursOnce(s.log, c);
  }

  lemma {:induction false} OccursOnce(log: seq<Commit>, c: Commit)
    requires c in log && forall i, j :: 0 <= i < j < |log| ==> log[i].tx != log[j].tx
    ensures multiset(log)[c] == 1
  {
    var n := |log| - 1;
    assert log == log[..n] + [log[n]];
    if log[n] == c {
      assert c !in log[..n];
    } else {
      OccursOnce(log[..n], c);
    }
  }

  // ---------- Requests that fail, and races ----------

  /** The statement belongs to this transaction. */
  predicate ActsFor(a: Action, tx: TxId) {
    match a
    case Open(u, _) => u == tx
    case Advance(u) => u == tx
    case Fail(u) => u == tx
    case _ => false
  }

  predicate SameData(a: State, b: State) {
    a.db.projects == b.db.projects && a.db.accounts == b.db.accounts && a.db.billed == b.db.billed && a.log == b.log
  }

  lemma StepWithoutSuccess(s: State, a: Action, tx: TxId)
    requires Enabled(s, a) && ActsFor(a, tx)
    requires tx in Apply(s, a).txns && Apply(s, a).txns[tx].stage != Done(OK)
    ensures SameData(s, Apply(s, a))
  {}

  /** Transactions stay, with their request, and their answer once they have one; the log only grows. */
  predicate Continues(before: State, after: State) {
    && (forall u :: u in before.txns ==>
          && u in after.txns
          && after.txns[u].request == before.txns[u].request
          && (before.txns[u].stage.Done? ==> after.txns[u].stage == before.txns[u].stage))
    && before.log <= after.log
  }

  lemma StepContinues(s: State, a: Action)
    requires Enabled(s, a)
    ensures Continues(s, Apply(s, a))
  {
    if a.Advance? {
      ExecuteExtendsLog(s.db, s.log, a.tx, s.txns[a.tx]);
      hide Execute;
    }
  }

  lemma ExecuteExtendsLog(db: Db, log: seq<Commit>, tx: TxId, t: Txn)
    ensures log <= Execute(db, log, tx, t).log
  {}

  lemma {:induction false} RunContinues(actions: seq<Action>, k: nat)
    requires IsRun(actions) && k <= |actions|
    ensures IsRun(actions[..k]) && Continues(StateAfter(actions[..k]), StateAfter(actions))
    decreases |actions|
  {
    hide Apply, Enabled;
    if k < |actions| {
      var front := actions[..|actions| - 1];
      assert front[..k] == actions[..k];
      RunContinues(front, k);
      StepContinues(StateAfter(front), actions[|actions| - 1]);
    } else {
      assert actions[..k] == actions;
    }
  }

  /** Step `k` of the run leaves the committed data as it was. */
  ghost predicate LeavesData(actions: seq<Action>, k: nat)
    requires k < |actions|
  {
    && IsRun(actions[..k]) && IsRun(actions[..k + 1])
    && SameData(StateAfter(actions[..k]), StateAfter(actions[..k + 1]))
  }

  /**
   A request that is not answered OK has changed nothing in the whole run: no commit is logged for it, and none of its
   statements left the committed data other than it was.
   */
  lemma LosersChangeNothing(actions: seq<Action>, tx: TxId)
    requires IsRun(actions) && tx in StateAfter(actions).txns && StateAfter(actions).txns[tx].stage != Done(OK)
    ensures forall i :: 0 <= i < |StateAfter(actions).log| ==> StateAfter(actions).log[i].tx != tx
    ensures forall k :: 0 <= k < |actions| && ActsFor(actions[k], tx) ==> LeavesData(actions, k)
  {
    EveryRunKeepsInvariant(actions);
    hide Invariant, Apply, Enabled, ActsFor;
    forall k | 0 <= k < |actions| && ActsFor(actions[k], tx) ensures LeavesData(actions, k) {
      RunContinues(actions, k);
      RunContinues(actions, k + 1);
      assert actions[..k + 1][..k] == actions[..k];
      OwnTransaction(StateAfter(actions[..k]), actions[k], tx);
      StepWithoutSuccess(StateAfter(actions[..k]), actions[k], tx);
    }
    LoggedIsOk(actions);
  }

  lemma OwnTransaction(s: State, a: Action, tx: TxId)
    requires Enabled(s, a) && ActsFor(a, tx)
    ensures tx in Apply(s, a).txns
  {}

  lemma LoggedIsOk(actions: seq<Action>)
    requires IsRun(actions)
    ensures var s := StateAfter(actions);
            forall i :: 0 <= i < |s.log| ==> s.log[i].tx in s.txns && s.txns[s.log[i].tx].stage == Done(OK)
  {
    EveryRunKeepsInvariant(actions);
  }

  const CREATION_ANSWERS: set<Status> := {OK, AlreadyExists, Internal, NotFound, PermissionDenied}

  /** A request that fails its argument checks has their answer; a creation that passes them ends in one of these. */
  predicate Answered(t: Txn) {
    if Validate(t.request).Done? then t.stage == Validate(t.request)
    else t.request.CreateProject? && t.stage.Done? ==> t.stage.status in CREATION_ANSWERS
  }

  lemma StepAnswers(s: State, a: Action)
    requires Enabled(s, a) && forall u :: u in s.txns ==> Answered(s.txns[u])
    ensures forall u :: u in Apply(s, a).txns ==> Answered(Apply(s, a).txns[u])
  {
    hide ValidResourceID;
  }

  lemma {:induction false} RunAnswers(actions: seq<Action>)
    requires IsRun(actions)
    ensures forall u :: u in StateAfter(actions).txns ==> Answered(StateAfter(actions).txns[u])
    decreases |actions|
  {
    hide Apply, Enabled, Answered;
    if |actions| > 0 {
      RunAnswers(actions[..|actions| - 1]);
      StepAnswers(StateAfter(actions[..|actions| - 1]), actions[|actions| - 1]);
    }
  }

  /** A project keeps the account it was created with until it is removed. */
  lemma {:induction false} KeptUntilRemoved(log: seq<Commit>, i: nat, j: nat, id: Id)
    requires Legal(log) && i < j <= |log| && log[i].Created? && log[i].id == id
    requires forall k :: i < k < j ==> !(log[k].Removed? && log[k].id == id)
    ensures id in Replay(log[..j]) && Replay(log[..j])[id] == log[i].accountId
    decreases j
  {
    assert log[..j][..j - 1] == log[..j - 1];
    LegalPrefix(log, j);
    if i < j - 1 {
      KeptUntilRemoved(log, i, j - 1, id);
    }
  }

  /**
   The race. Once some request has committed a project of this id, a creation of the same id that is still open then is
   never answered OK unless the project is removed again: it ends in AlreadyExists, Internal or one of the refusals of
   its account, it commits nothing, and the project stays with the account it was created with.
   */
  lemma RaceLoser(actions: seq<Action>, k: nat, tx: TxId, i: nat)
    requires IsRun(actions) && k <= |actions| && IsRun(actions[..k])
    requires var early := StateAfter(actions[..k]);
             && tx in early.txns && early.txns[tx].request.CreateProject? && !early.txns[tx].stage.Done?
             && i < |early.log| && early.log[i].Created? && early.log[i].id == early.txns[tx].request.id
    requires var early, log := StateAfter(actions[..k]), StateAfter(actions).log;
             forall j :: i < j < |log| ==> !(log[j].Removed? && log[j].id == early.log[i].id)
    ensures var early, s := StateAfter(actions[..k]), StateAfter(actions);
            && tx in s.txns
            && (s.txns[tx].stage.Done? ==> s.txns[tx].stage.status in CREATION_ANSWERS - {OK})
            && (forall j :: 0 <= j < |s.log| ==> s.log[j].tx != tx)
            && early.log[i].id in s.db.projects
            && s.db.projects[early.log[i].id].accountId == early.log[i].accountId
  {
    hide IsRun, StateAfter, Legal, Replay, Answered, Validate;
    RunContinues(actions, k);
    RaceLoserIsNotOk(actions, k, tx, i);
    LoggedIsOk(actions);
    OpenCreationAnswer(actions, k, tx);
    WinnerStays(actions, i);
  }

  /** A project whose creation is logged and not followed by its removal is there, with that account. */
  lemma WinnerStays(actions: seq<Action>, i: nat)
    requires IsRun(actions)
    requires var log := StateAfter(actions).log;
             i < |log| && log[i].Created? && forall j :: i < j < |log| ==> !(log[j].Removed? && log[j].id == log[i].id)
    ensures var s := StateAfter(actions);
            s.log[i].id in s.db.projects && s.db.projects[s.log[i].id].accountId == s.log[i].accountId
  {
    hide IsRun, StateAfter, Legal, Replay;
    RunsAreSerializable(actions);
    var s := StateAfter(actions);
    assert s.log[..|s.log|] == s.log;
    KeptUntilRemoved(s.log, i, |s.log|, s.log[i].id);
    AccountsOfKeys(s.db.projects);
  }

  lemma OpenCreationAnswer(actions: seq<Action>, k: nat, tx: TxId)
    requires IsRun(actions) && k <= |actions| && IsRun(actions[..k])
    requires var early := StateAfter(actions[..k]);
             tx in early.txns && early.txns[tx].request.CreateProject? && !early.txns[tx].stage.Done?
    ensures var s := StateAfter(actions);
            tx in s.txns && (s.txns[tx].stage.Done? ==> s.txns[tx].stage.status in CREATION_ANSWERS)
  {
    hide IsRun, StateAfter, Answered, Validate;
    RunContinues(actions, k);
    RunAnswers(actions);
    OpenPassedItsChecks(actions[..k], tx);
    if StateAfter(actions).txns[tx].stage.Done? {
      AnsweredCreation(StateAfter(actions).txns[tx]);
    }
  }

  lemma AnsweredCreation(t: Txn)
    requires Answered(t) && !Validate(t.request).Done? && t.request.CreateProject? && t.stage.Done?
    ensures t.stage.status in CREATION_ANSWERS
  {}

  lemma OpenPassedItsChecks(actions: seq<Action>, tx: TxId)
    requires IsRun(actions) && tx in StateAfter(actions).txns && !StateAfter(actions).txns[tx].stage.Done?
    ensures !Validate(StateAfter(actions).txns[tx].request).Done?
  {
    RunAnswers(actions);
  }

  lemma RaceLoserIsNotOk(actions: seq<Action>, k: nat, tx: TxId, i: nat)
    requires IsRun(actions) && k <= |actions| && IsRun(actions[..k])
    requires var early := StateAfter(actions[..k]);
             && tx in early.txns && early.txns[tx].request.CreateProject? && !early.txns[tx].stage.Done?
             && i < |early.log| && early.log[i].Created? && early.log[i].id == early.txns[tx].request.id
    requires var early, log := StateAfter(actions[..k]), StateAfter(actions).log;
             forall j :: i < j < |log| ==> !(log[j].Removed? && log[j].id == early.log[i].id)
    ensures tx in StateAfter(actions).txns && StateAfter(actions).txns[tx].stage != Done(OK)
  {
    hide IsRun, StateAfter, Legal, Replay;
    RunContinues(actions, k);
    LoggedIsOk(actions[..k]);
    var early, s := StateAfter(actions[..k]), StateAfter(actions);
    if s.txns[tx].stage == Done(OK) {
      OkAnswersCommitted(actions, tx);
      var j :| 0 <= j < |s.log| && s.log[j] == Created(tx, s.txns[tx].request.id, s.txns[tx].request.accountId);
      OneCreateBetweenDeletes(actions, i, j);
    }
  }

  /**
   No update of a project is ever answered OK: the statement looks for a project with an id that the handler never
   sets, and no project has that id.
   */
  lemma UpdatesNeverSucceed(actions: seq<Action>, tx: TxId)
    requires IsRun(actions) && tx in StateAfter(actions).txns
    requires StateAfter(actions).txns[tx].request.UpdateProject?
    ensures StateAfter(actions).txns[tx].stage != Done(OK)
  {
    EveryRunKeepsInvariant(actions);
    assert TxnOk(StateAfter(actions).db, StateAfter(actions).txns[tx]);
  }

  /** Either branch of an update passes on an account that would keep every project's account enabled. */
  lemma UpdatesPassEnabledAccounts(actions: seq<Action>, tx: TxId)
    requires IsRun(actions) && tx in StateAfter(actions).txns
    requires StateAfter(actions).txns[tx].request.UpdateProject? && StateAfter(actions).txns[tx].stage.Decided?
    ensures var s := StateAfter(actions);
            s.txns[tx].stage.accountId in s.db.accounts && s.db.accounts[s.txns[tx].stage.accountId]
  {
    EveryRunKeepsInvariant(actions);
    assert TxnOk(StateAfter(actions).db, StateAfter(actions).txns[tx]);
  }

  /** A transaction that holds a row, or has inserted an account, has nothing to wait for. */
  lemma HoldersGoOn(s: State, u: TxId, id: Id)
    requires u in s.txns && (Holds(s.txns[u], id) || InsertsAccount(s.txns[u], id))
    ensures Enabled(s, Advance(u)) && !Waits(s, u)
  {}

  /**
   No deadlock: an unfinished transaction can go on, or waits, and then each transaction it waits for can go on. Waiting
   is never more than one transaction deep.
   */
  lemma NoDeadlock(s: State, tx: TxId)
    requires tx in s.txns && !s.txns[tx].stage.Done?
    ensures Enabled(s, Advance(tx)) || exists u :: u in s.txns && WaitsFor(s, tx, u)
    ensures forall u :: u in s.txns && WaitsFor(s, tx, u) ==> Enabled(s, Advance(u)) && !Waits(s, u)
  {
    forall u | u in s.txns && WaitsFor(s, tx, u) ensures Enabled(s, Advance(u)) && !Waits(s, u) {
      HoldersGoOn(s, u, s.txns[tx].request.id);
    }
  }

  // ---------- Refusals ----------

  ghost predicate WasCreated(log: seq<Commit>, id: Id) {
    exists i :: 0 <= i < |log| && log[i].Created? && log[i].id == id
  }

  lemma {:induction false} PresentWasCreated(log: seq<Commit>, id: Id)
    requires id in Replay(log)
    ensures WasCreated(log, id)
  {
    var n := |log| - 1;
    if id in Replay(log[..n]) {
      PresentWasCreated(log[..n], id);
      var i :| 0 <= i < n && log[..n][i].Created? && log[..n][i].id == id;
      assert log[i].id == id && log[i].Created?;
    } else {
      assert log[n].Created? && log[n].id == id;
    }
  }

  /** What the refusals say was true: the project was created before, the account exists. */
  ghost predicate Truthful(s: State) {
    forall u :: u in s.txns ==>
      var t := s.txns[u];
      && (t.stage == Done(AlreadyExists) ==> t.request.CreateProject? && WasCreated(s.log, t.request.id))
      && (t.stage == Done(PermissionDenied) ==>
            (t.request.CreateProject? || t.request.UpdateProject?) && t.request.accountId in s.db.accounts)
      && (t.stage == Done(NotFound) ==> t.request.CreateProject? || t.request.UpdateProject?)
  }

  lemma ExecuteRefuses(db: Db, log: seq<Commit>, tx: TxId, t: Txn)
    requires DbOk(db) && TxnOk(db, t) && !t.stage.Done?
    ensures var stage := Execute(db, log, tx, t).stage;
            && (stage == Done(AlreadyExists) ==> t.request.CreateProject? && t.request.id in db.projects)
            && (stage == Done(PermissionDenied) ==>
                  (t.request.CreateProject? || t.request.UpdateProject?) &&
                  t.request.accountId in db.accounts && !db.accounts[t.request.accountId])
            && (stage == Done(NotFound) ==>
                  (t.request.CreateProject? || t.request.UpdateProject?) && t.request.accountId !in db.accounts)
  {
    hide ValidResourceID;
  }

  lemma AdvanceKeepsTruthful(s: State, tx: TxId)
    requires Invariant(s) && Truthful(s) && Enabled(s, Advance(tx))
    ensures Truthful(Apply(s, Advance(tx)))
  {
    hide TxnOk, DbOk, Execute, Waits, Exclusive, AnswersOk, Legal, Replay, AccountsOf, Touched, TouchedAccount;
    var t := s.txns[tx];
    var after := Apply(s, Advance(tx));
    assert TxnOk(s.db, t);
    ExecuteRefuses(s.db, s.log, tx, t);
    ExecuteKeepsDb(s.db, s.log, tx, t);
    ExecuteLogs(s.db, s.log, tx, t);
    forall id | WasCreated(s.log, id) ensures WasCreated(after.log, id) {
      var i :| 0 <= i < |s.log| && s.log[i].Created? && s.log[i].id == id;
      assert after.log[i] == s.log[i];
    }
    AccountsOfKeys(s.db.projects);
    if t.request.CreateProject? && t.request.id in s.db.projects {
      PresentWasCreated(s.log, t.request.id);
    }
  }

  lemma StepKeepsTruthful(s: State, a: Action)
    requires Invariant(s) && Truthful(s) && Enabled(s, a)
    ensures Truthful(Apply(s, a))
  {
    match a
    case Advance(tx) => AdvanceKeepsTruthful(s, tx);
    case _ =>
  }

  /** In every run, AlreadyExists is answered only for an id some request created, PermissionDenied only for an account that exists. */
  lemma {:induction false} RefusalsAreTruthful(actions: seq<Action>)
    requires IsRun(actions)
    ensures Truthful(StateAfter(actions))
    decreases |actions|
  {
    hide Invariant, Apply, Enabled;
    if |actions| > 0 {
      var front := actions[..|actions| - 1];
      RefusalsAreTruthful(front);
      EveryRunKeepsInvariant(front);
      StepKeepsTruthful(StateAfter(front), actions[|actions| - 1]);
    }
  }

  // ---------- Accounts ----------

  /** Accounts are never removed and never lose their demand flag: an account seen enabled stays enabled. */
  lemma {:induction false} AccountsStayEnabled(actions: seq<Action>, k: nat, accountId: Id)
    requires IsRun(actions) && k <= |actions| && IsRun(actions[..k])
    requires Charged(StateAfter(actions[..k]).db, accountId)
    ensures Charged(StateAfter(actions).db, accountId)
    decreases |actions|
  {
    if k < |actions| {
      var front := actions[..|actions| - 1];
      assert front[..k] == actions[..k];
      AccountsStayEnabled(front, k, accountId);
      EveryRunKeepsInvariant(front);
      StepKeepsAccount(StateAfter(front), actions[|actions| - 1], accountId);
    } else {
      assert actions[..k] == actions;
    }
  }

  lemma StepKeepsAccount(s: State, a: Action, accountId: Id)
    requires Invariant(s) && Enabled(s, a) && Charged(s.db, accountId)
    ensures Charged(Apply(s, a).db, accountId)
  {
    hide LogOk, AnswersOk, Exclusive;
    if a.Advance? {
      assert TxnOk(s.db, s.txns[a.tx]);
      ExecuteKeepsDb(s.db, s.log, a.tx, s.txns[a.tx]);
    }
  }
}
