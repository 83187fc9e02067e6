/**
 Project requests as transactions against the database, interleaved statement by statement at the Read Committed
 level: a statement sees what is committed when it starts, together with the transaction's own writes; a write to a
 row another transaction has written or locked waits for that transaction, and an insert waits for another insert
 of the same key (section 13.2.1 of the PostgreSQL manual). Each action below is one statement of one
 transaction.
 */
module ProjectTransactions {
  import opened Wrappers
  import opened Identifiers

  type Id = string
  type TxId = nat

  /** A project row. Each insert makes a new version, so a row that replaced another is told apart from it. */
  datatype Row = Row(version: nat, accountId: Id)

  /** What is committed: accounts with their demand flag, projects, and the projects that have spend rows. */
  datatype Db = Db(accounts: map<Id, bool>, projects: map<Id, Row>, billed: set<Id>, nextVersion: nat)

  datatype Request =
    | CreateProject(id: Id, accountId: Id)
    | DeleteProject(id: Id)
    | UpdateProject(id: Id, accountId: Id)
    | CreateAccount(id: Id)

  datatype Status = OK | InvalidArgument | NotFound | PermissionDenied | AlreadyExists | Internal | NoRows

  /** How far a transaction is. */
  datatype Stage =
    | Begun
    | AccountChecked                          // creating: the account may be charged
    | SeenAbsent                              // creating: no project with this id was committed
    | Inserted(row: Row)                      // creating: the row is written, not committed
    | SeenPresent                             // deleting: the project was committed
    | Deleting(version: nat)                  // deleting: the statement found this row and may be waiting for it
    | Deleted                                 // deleting: the row is deleted, not committed
    | Locking(version: nat)                   // updating: the statement found this row and may be waiting for it
    | Locked(row: Row)                        // updating: the row is locked
    | Decided(row: Row, accountId: Id)        // updating: the account to write is known
    | Updated(accountId: Id)                  // updating: the statement changed a row
    | AccountInserted                         // creating an account: written, not committed
    | Done(status: Status)

  datatype Txn = Txn(request: Request, stage: Stage)

  /** The requests that were answered OK with a change to the projects, in the order of their commits. */
  datatype Commit = Created(tx: TxId, id: Id, accountId: Id) | Removed(tx: TxId, id: Id)

  datatype State = State(db: Db, txns: map<TxId, Txn>, log: seq<Commit>)

  datatype Action =
    | Open(tx: TxId, request: Request)        // a request arrives and passes or fails its argument checks
    | Advance(tx: TxId)                       // a transaction executes its next statement, or commits
    | Fail(tx: TxId)                          // a statement or commit fails, or the request is cancelled
    | EnableDemand(accountId: Id)             // an account is enabled, in a transaction of its own
    | WriteProjectSpend(id: Id)               // the biller writes a spend row of a project

  // ---------- The handlers ----------

  function Validate(r: Request): Stage {
    match r
    case CreateProject(id, accountId) =>
      if id == "" || !ValidResourceID(id) || !ValidResourceID(accountId) then Done(InvalidArgument) else Begun
    case DeleteProject(id) =>
      if id == "" then Done(InvalidArgument) else Begun
    case UpdateProject(id, _) =>
      if !ValidResourceID(id) then Done(InvalidArgument) else Begun
    case CreateAccount(_) => Begun
  }

  /** None if the account may be charged, else why not. */
  function EnsureDemandEnabled(db: Db, accountId: Id): Option<Status> {
    if accountId !in db.accounts then Some(NotFound)
    else if !db.accounts[accountId] then Some(PermissionDenied)
    else None
  }

  /** The id in the parameters of the update statement: the handler never sets it. */
  const UPDATE_ID: Id := ""

  datatype Effect = Effect(stage: Stage, db: Db, log: seq<Commit>)

  function ExecuteCreate(db: Db, log: seq<Commit>, tx: TxId, id: Id, accountId: Id, stage: Stage): Effect {
    match stage
    case Begun =>
      var refusal := EnsureDemandEnabled(db, accountId);
      Effect(if refusal.Some? then Done(refusal.value) else AccountChecked, db, log)
    case AccountChecked =>
      Effect(if id in db.projects then Done(AlreadyExists) else SeenAbsent, db, log)
    case SeenAbsent =>
      if id in db.projects || accountId !in db.accounts then
        Effect(Done(Internal), db, log)
      else
        Effect(Inserted(Row(db.nextVersion, accountId)), db.(nextVersion := db.nextVersion + 1), log)
    case Inserted(row) =>
      Effect(Done(OK), db.(projects := db.projects[id := row]), log + [Created(tx, id, row.accountId)])
    case _ => Effect(stage, db, log)
  }

  function ExecuteDelete(db: Db, log: seq<Commit>, tx: TxId, id: Id, stage: Stage): Effect {
    match stage
    case Begun =>
      Effect(if id in db.projects then SeenPresent else Done(NoRows), db, log)
    case SeenPresent =>
      Effect(if id in db.projects then Deleting(db.projects[id].version) else Done(Internal), db, log)
    case Deleting(version) =>
      if id !in db.projects || db.projects[id].version != version || id in db.billed then
        Effect(Done(Internal), db, log)
      else
        Effect(Deleted, db, log)
    case Deleted =>
      Effect(Done(OK), db.(projects := db.projects - {id}), log + [Removed(tx, id)])
    case _ => Effect(stage, db, log)
  }

  function ExecuteUpdate(db: Db, log: seq<Commit>, id: Id, accountId: Id, stage: Stage): Effect {
    match stage
    case Begun =>
      Effect(if id in db.projects then Locking(db.projects[id].version) else Done(NoRows), db, log)
    case Locking(version) =>
      if id in db.projects && db.projects[id].version == version then
        Effect(Locked(db.projects[id]), db, log)
      else
        Effect(Done(NoRows), db, log)
    case Locked(row) =>
      if accountId != id then
        var refusal := EnsureDemandEnabled(db, accountId);
        Effect(if refusal.Some? then Done(refusal.value) else Decided(row, accountId), db, log)
      else
        Effect(Decided(row, row.accountId), db, log)
    case Decided(_, newAccount) =>
      Effect(if UPDATE_ID in db.projects then Updated(newAccount) else Done(Internal), db, log)
    case Updated(newAccount) =>
      if UPDATE_ID in db.projects then
        Effect(Done(OK), db.(projects := db.projects[UPDATE_ID := db.projects[UPDATE_ID].(accountId := newAccount)]), log)
      else
        Effect(Done(Internal), db, log)
    case _ => Effect(stage, db, log)
  }

  function ExecuteAccount(db: Db, log: seq<Commit>, id: Id, stage: Stage): Effect {
    match stage
    case Begun => Effect(if id in db.accounts then Done(Internal) else AccountInserted, db, log)
    case AccountInserted => Effect(Done(OK), db.(accounts := db.accounts[id := false]), log)
    case _ => Effect(stage, db, log)
  }

  function Execute(db: Db, log: seq<Commit>, tx: TxId, t: Txn): Effect {
    match t.request
    case CreateProject(id, accountId) => ExecuteCreate(db, log, tx, id, accountId, t.stage)
    case DeleteProject(id) => ExecuteDelete(db, log, tx, id, t.stage)
    case UpdateProject(id, accountId) => ExecuteUpdate(db, log, id, accountId, t.stage)
    case CreateAccount(id) => ExecuteAccount(db, log, id, t.stage)
  }

  // ---------- Waiting ----------

  /** The transaction has an uncommitted insert or delete of this project. */
  predicate Writes(t: Txn, id: Id) {
    !t.request.CreateAccount? && t.request.id == id && (t.stage.Inserted? || t.stage.Deleted?)
  }

  /** The transaction has this project's row written or locked. */
  predicate Holds(t: Txn, id: Id) {
    Writes(t, id) || (!t.request.CreateAccount? && t.request.id == id && (t.stage.Locked? || t.stage.Decided?))
  }

  predicate InsertsAccount(t: Txn, id: Id) {
    t.request.CreateAccount? && t.request.id == id && t.stage.AccountInserted?
  }

  /** The next statement of the transaction has to wait for this other one. */
  predicate WaitsFor(s: State, tx: TxId, u: TxId)
    requires tx in s.txns && u in s.txns
  {
    var t, other := s.txns[tx], s.txns[u];
    && u != tx
    && match t.stage
       case SeenAbsent => Writes(other, t.request.id)
       case Deleting(_) => Holds(other, t.request.id)
       case Locking(_) => Holds(other, t.request.id)
       case Begun => t.request.CreateAccount? && InsertsAccount(other, t.request.id)
       case _ => false
  }

  predicate Waits(s: State, tx: TxId)
    requires tx in s.txns
  {
    exists u :: u in s.txns && WaitsFor(s, tx, u)
  }

  predicate Enabled(s: State, a: Action) {
    match a
    case Open(tx, _) => tx !in s.txns
    case Advance(tx) => tx in s.txns && !s.txns[tx].stage.Done? && !Waits(s, tx)
    case Fail(tx) => tx in s.txns && !s.txns[tx].stage.Done?
    case EnableDemand(accountId) => accountId in s.db.accounts
    case WriteProjectSpend(id) => id in s.db.projects && forall u :: u in s.txns ==> !Holds(s.txns[u], id)
  }

  function Apply(s: State, a: Action): State
    requires Enabled(s, a)
  {
    match a
    case Open(tx, request) => s.(txns := s.txns[tx := Txn(request, Validate(request))])
    case Advance(tx) =>
      var t := s.txns[tx];
      var e := Execute(s.db, s.log, tx, t);
      State(e.db, s.txns[tx := Txn(t.request, e.stage)], e.log)
    case Fail(tx) => s.(txns := s.txns[tx := Txn(s.txns[tx].request, Done(Internal))])
    case EnableDemand(accountId) => s.(db := s.db.(accounts := s.db.accounts[accountId := true]))
    case WriteProjectSpend(id) => s.(db := s.db.(billed := s.db.billed + {id}))
  }

  const INITIAL := State(Db(map[], map[], {}, 0), map[], [])

  /** A run is a sequence of enabled actions from the empty database. */
  ghost predicate IsRun(actions: seq<Action>)
    decreases |actions|, 0
  {
    |actions| > 0 ==>
      && IsRun(actions[..|actions| - 1])
      && Enabled(StateAfter(actions[..|actions| - 1]), actions[|actions| - 1])
  }

  ghost function StateAfter(actions: seq<Action>): State
    requires IsRun(actions)
    decreases |actions|, 1
  {
    if |actions| == 0 then INITIAL
    else Apply(StateAfter(actions[..|actions| - 1]), actions[|actions| - 1])
  }
}
