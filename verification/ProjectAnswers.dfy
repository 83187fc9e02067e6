/**
 What each request is answered and does when nothing gets in its way, from every reachable state; and which accounts
 are enabled, which projects are billed, in terms of what happened in the run.
 */
module ProjectAnswers {
  import opened Wrappers
  import opened Identifiers
  import opened ProjectTransactions
  import opened ProjectSafety

  // ---------- Going on with one transaction ----------

  /** The next statements of one transaction. */
  function Statements(tx: TxId, n: nat): seq<Action> {
    if n == 0 then [] else Statements(tx, n - 1) + [Advance(tx)]
  }

  /** The transaction can execute `n` statements in a row, which lead from this state to that one. */
  ghost predicate Leads(s: State, tx: TxId, n: nat, after: State) {
    if n == 0 then after == s
    else exists mid :: Leads(s, tx, n - 1, mid) && Enabled(mid, Advance(tx)) && after == Apply(mid, Advance(tx))
  }

  lemma OneMoreAction(actions: seq<Action>, a: Action)
    requires IsRun(actions) && Enabled(StateAfter(actions), a)
    ensures IsRun(actions + [a]) && StateAfter(actions + [a]) == Apply(StateAfter(actions), a)
  {
    assert (actions + [a])[..|actions + [a]| - 1] == actions;
  }

  /** The statements extend the run. */
  lemma {:induction false} LeadsInRun(actions: seq<Action>, tx: TxId, n: nat, after: State)
    requires IsRun(actions) && Leads(StateAfter(actions), tx, n, after)
    ensures IsRun(actions + Statements(tx, n)) && StateAfter(actions + Statements(tx, n)) == after
    decreases n
  {
    hide IsRun, StateAfter, Enabled, Apply;
    if n == 0 {
      assert actions + Statements(tx, n) == actions;
    } else {
      var mid :| Leads(StateAfter(actions), tx, n - 1, mid) && Enabled(mid, Advance(tx)) && after == Apply(mid, Advance(tx));
      LeadsInRun(actions, tx, n - 1, mid);
      OneMoreAction(actions + Statements(tx, n - 1), Advance(tx));
      assert actions + Statements(tx, n) == actions + Statements(tx, n - 1) + [Advance(tx)];
    }
  }

  lemma OneStatement(s: State, tx: TxId, n: nat, mid: State)
    requires Leads(s, tx, n, mid) && Enabled(mid, Advance(tx))
    ensures Leads(s, tx, n + 1, Apply(mid, Advance(tx)))
  {}

  /** The state with this transaction answered. */
  function AnsweredWith(s: State, tx: TxId, status: Status): State
    requires tx in s.txns
  {
    s.(txns := s.txns[tx := s.txns[tx].(stage := Done(status))])
  }

  /** The state with this transaction at another stage. */
  function At(s: State, tx: TxId, stage: Stage): State
    requires tx in s.txns
  {
    s.(txns := s.txns[tx := s.txns[tx].(stage := stage)])
  }

  /** Only `tx` touches this project. */
  ghost predicate AloneOn(s: State, tx: TxId, id: Id) {
    forall u :: u in s.txns && u != tx ==> !Holds(s.txns[u], id)
  }

  ghost predicate AloneWriting(s: State, tx: TxId, id: Id) {
    forall u :: u in s.txns && u != tx ==> !Writes(s.txns[u], id)
  }

  // ---------- Creating a project ----------

  lemma CreationChecks(db: Db, log: seq<Commit>, tx: TxId, r: Request)
    requires r.CreateProject? && r.accountId in db.accounts && db.accounts[r.accountId]
    ensures Execute(db, log, tx, Txn(r, Begun)) == Effect(AccountChecked, db, log)
    ensures Execute(db, log, tx, Txn(r, AccountChecked)) ==
            Effect(if r.id in db.projects then Done(AlreadyExists) else SeenAbsent, db, log)
    ensures r.id !in db.projects ==>
              Execute(db, log, tx, Txn(r, SeenAbsent)) ==
              Effect(Inserted(Row(db.nextVersion, r.accountId)), db.(nextVersion := db.nextVersion + 1), log)
  {}

  lemma CreationInserts(s: State, tx: TxId)
    requires tx in s.txns && s.txns[tx].request.CreateProject?
    requires var r := s.txns[tx].request;
             Leads(s, tx, 3, At(s.(db := s.db.(nextVersion := s.db.nextVersion + 1)), tx,
                                Inserted(Row(s.db.nextVersion, r.accountId))))
    ensures Leads(s, tx, 4, Creates(s, tx))
  {
    hide Leads, Enabled, Apply, Waits;
    var inserted := s.(db := s.db.(nextVersion := s.db.nextVersion + 1));
    var stage := Inserted(Row(s.db.nextVersion, s.txns[tx].request.accountId));
    FreeAfterWriting(inserted, tx, stage);
    OneMoreStatementAt(s, tx, 3, inserted, stage);
  }

  lemma CreationLeads(s: State, tx: TxId)
    requires tx in s.txns && s.txns[tx].request.CreateProject? && s.txns[tx].stage == Begun
    requires AloneWriting(s, tx, s.txns[tx].request.id)
    ensures var id, accountId := s.txns[tx].request.id, s.txns[tx].request.accountId;
            if accountId !in s.db.accounts then Leads(s, tx, 1, AnsweredWith(s, tx, NotFound))
            else if !s.db.accounts[accountId] then Leads(s, tx, 1, AnsweredWith(s, tx, PermissionDenied))
            else if id in s.db.projects then Leads(s, tx, 2, AnsweredWith(s, tx, AlreadyExists))
            else Leads(s, tx, 4, Creates(s, tx))
  {
    var r := s.txns[tx].request;
    var id, accountId := r.id, r.accountId;
    hide Leads, Enabled, Apply, AloneWriting, Writes, Waits;
    NoStatement(s, tx);
    assert At(s, tx, Begun) == s;
    FreeToWrite(s, tx, Begun);
    StatementAt(s, tx, 0, Begun);
    if accountId in s.db.accounts && s.db.accounts[accountId] {
      hide Execute, Creates;
      CreationChecks(s.db, s.log, tx, r);
      FreeToWrite(s, tx, AccountChecked);
      StatementAt(s, tx, 1, AccountChecked);
      if id !in s.db.projects {
        FreeToWrite(s, tx, SeenAbsent);
        StatementAt(s, tx, 2, SeenAbsent);
        CreationInserts(s, tx);
      }
    }
  }

  /** A transaction at this stage that does not wait executes its statement. */
  lemma StatementAt(s: State, tx: TxId, n: nat, stage: Stage)
    requires tx in s.txns && !stage.Done? && !Waits(At(s, tx, stage), tx)
    requires Leads(s, tx, n, At(s, tx, stage))
    ensures var e := Execute(s.db, s.log, tx, Txn(s.txns[tx].request, stage));
            Leads(s, tx, n + 1, State(e.db, s.txns[tx := Txn(s.txns[tx].request, e.stage)], e.log))
  {
    OneMoreStatementAt(s, tx, n, s, stage);
  }

  lemma OneMoreStatementAt(s: State, tx: TxId, n: nat, t: State, stage: Stage)
    requires tx in t.txns && !stage.Done? && !Waits(At(t, tx, stage), tx)
    requires Leads(s, tx, n, At(t, tx, stage))
    ensures var e := Execute(t.db, t.log, tx, Txn(t.txns[tx].request, stage));
            Leads(s, tx, n + 1, State(e.db, t.txns[tx := Txn(t.txns[tx].request, e.stage)], e.log))
  {
    hide Execute, Waits, Leads;
    var mid := At(t, tx, stage);
    var e := Execute(t.db, t.log, tx, Txn(t.txns[tx].request, stage));
    OneStatement(s, tx, n, mid);
    assert mid.txns[tx] == Txn(t.txns[tx].request, stage);
    assert Apply(mid, Advance(tx)).txns == t.txns[tx := Txn(t.txns[tx].request, e.stage)];
  }

  lemma FreeToWrite(s: State, tx: TxId, stage: Stage)
    requires tx in s.txns && !s.txns[tx].request.CreateAccount? && AloneWriting(s, tx, s.txns[tx].request.id)
    requires !stage.Deleting? && !stage.Locking?
    ensures !Waits(At(s, tx, stage), tx)
  {
    hide Writes, Holds;
  }

  lemma FreeToHold(s: State, tx: TxId, stage: Stage)
    requires tx in s.txns && !s.txns[tx].request.CreateAccount? && AloneOn(s, tx, s.txns[tx].request.id)
    ensures !Waits(At(s, tx, stage), tx)
  {
    hide Writes;
    assert forall u :: u in s.txns && u != tx && Writes(s.txns[u], s.txns[tx].request.id) ==>
                         Holds(s.txns[u], s.txns[tx].request.id);
    hide Holds;
  }

  lemma FreeAfterWriting(s: State, tx: TxId, stage: Stage)
    requires tx in s.txns && stage.Inserted?
    ensures !Waits(At(s, tx, stage), tx)
  {}

  lemma NoStatement(s: State, tx: TxId)
    ensures Leads(s, tx, 0, s)
  {}

  /** The project is there, under the account; nothing else in the database changed. */
  function Creates(s: State, tx: TxId): State
    requires tx in s.txns && s.txns[tx].request.CreateProject?
  {
    var r := s.txns[tx].request;
    State(s.db.(projects := s.db.projects[r.id := Row(s.db.nextVersion, r.accountId)], nextVersion := s.db.nextVersion + 1),
          s.txns[tx := Txn(r, Done(OK))],
          s.log + [Created(tx, r.id, r.accountId)])
  }

  /** From here, this many statements of the transaction extend the run and end in that state. */
  ghost predicate EndsIn(actions: seq<Action>, tx: TxId, n: nat, after: State) {
    IsRun(actions + Statements(tx, n)) && StateAfter(actions + Statements(tx, n)) == after
  }

  /**
   A creation that has begun, from any reachable state in which no other transaction has written that project: NotFound
   or PermissionDenied for its account, AlreadyExists for its id, else it is answered OK and the project is there.
   */
  lemma CreationIsAnswered(actions: seq<Action>, tx: TxId)
    requires IsRun(actions) && tx in StateAfter(actions).txns
    requires var t := StateAfter(actions).txns[tx];
             t.request.CreateProject? && t.stage == Begun && AloneWriting(StateAfter(actions), tx, t.request.id)
    ensures var s := StateAfter(actions);
            var id, accountId := s.txns[tx].request.id, s.txns[tx].request.accountId;
            if accountId !in s.db.accounts then EndsIn(actions, tx, 1, AnsweredWith(s, tx, NotFound))
            else if !s.db.accounts[accountId] then EndsIn(actions, tx, 1, AnsweredWith(s, tx, PermissionDenied))
            else if id in s.db.projects then EndsIn(actions, tx, 2, AnsweredWith(s, tx, AlreadyExists))
            else EndsIn(actions, tx, 4, Creates(s, tx))
  {
    hide IsRun, StateAfter, AloneWriting, Leads, Statements;
    var s := StateAfter(actions);
    CreationLeads(s, tx);
    var id, accountId := s.txns[tx].request.id, s.txns[tx].request.accountId;
    if accountId !in s.db.accounts {
      LeadsInRun(actions, tx, 1, AnsweredWith(s, tx, NotFound));
    } else if !s.db.accounts[accountId] {
      LeadsInRun(actions, tx, 1, AnsweredWith(s, tx, PermissionDenied));
    } else if id in s.db.projects {
      LeadsInRun(actions, tx, 2, AnsweredWith(s, tx, AlreadyExists));
    } else {
      LeadsInRun(actions, tx, 4, Creates(s, tx));
    }
  }

  // ---------- Deleting a project ----------

  function Deletes(s: State, tx: TxId): State
    requires tx in s.txns && s.txns[tx].request.DeleteProject?
  {
    var r := s.txns[tx].request;
    State(s.db.(projects := s.db.projects - {r.id}), s.txns[tx := Txn(r, Done(OK))], s.log + [Removed(tx, r.id)])
  }

  lemma DeletionSteps(db: Db, log: seq<Commit>, tx: TxId, r: Request)
    requires r.DeleteProject?
    ensures r.id !in db.projects ==> Execute(db, log, tx, Txn(r, Begun)) == Effect(Done(NoRows), db, log)
    ensures r.id in db.projects ==>
              var deleting := Deleting(db.projects[r.id].version);
              && Execute(db, log, tx, Txn(r, Begun)) == Effect(SeenPresent, db, log)
              && Execute(db, log, tx, Txn(r, SeenPresent)) == Effect(deleting, db, log)
              && Execute(db, log, tx, Txn(r, deleting)) ==
                 Effect(if r.id in db.billed then Done(Internal) else Deleted, db, log)
              && Execute(db, log, tx, Txn(r, Deleted)) ==
                 Effect(Done(OK), db.(projects := db.projects - {r.id}), log + [Removed(tx, r.id)])
  {}

  lemma DeletionLeads(s: State, tx: TxId)
    requires tx in s.txns && s.txns[tx].request.DeleteProject? && s.txns[tx].stage == Begun
    requires AloneOn(s, tx, s.txns[tx].request.id)
    ensures var id := s.txns[tx].request.id;
            if id !in s.db.projects then Leads(s, tx, 1, AnsweredWith(s, tx, NoRows))
            else if id in s.db.billed then Leads(s, tx, 3, AnsweredWith(s, tx, Internal))
            else Leads(s, tx, 4, Deletes(s, tx))
  {
    var r := s.txns[tx].request;
    hide Leads, Enabled, Apply, AloneOn, Holds, Waits, Execute;
    NoStatement(s, tx);
    assert At(s, tx, Begun) == s;
    FreeToHold(s, tx, Begun);
    StatementAt(s, tx, 0, Begun);
    DeletionSteps(s.db, s.log, tx, r);
    if r.id in s.db.projects {
      FreeToHold(s, tx, SeenPresent);
      StatementAt(s, tx, 1, SeenPresent);
      var deleting := Deleting(s.db.projects[r.id].version);
      FreeToHold(s, tx, deleting);
      StatementAt(s, tx, 2, deleting);
      if r.id !in s.db.billed {
        FreeToHold(s, tx, Deleted);
        StatementAt(s, tx, 3, Deleted);
      }
    }
  }

  /**
   A deletion that has begun, while no other transaction holds the project: NoRows if it is absent, Internal if it has
   spend rows, else it is answered OK and the project is gone.
   */
  lemma DeletionIsAnswered(actions: seq<Action>, tx: TxId)
    requires IsRun(actions) && tx in StateAfter(actions).txns
    requires var t := StateAfter(actions).txns[tx];
             t.request.DeleteProject? && t.stage == Begun && AloneOn(StateAfter(actions), tx, t.request.id)
    ensures var s := StateAfter(actions);
            var id := s.txns[tx].request.id;
            if id !in s.db.projects then EndsIn(actions, tx, 1, AnsweredWith(s, tx, NoRows))
            else if id in s.db.billed then EndsIn(actions, tx, 3, AnsweredWith(s, tx, Internal))
            else EndsIn(actions, tx, 4, Deletes(s, tx))
  {
    hide IsRun, StateAfter, AloneOn, Leads, Statements;
    var s := StateAfter(actions);
    DeletionLeads(s, tx);
    var id := s.txns[tx].request.id;
    if id !in s.db.projects {
      LeadsInRun(actions, tx, 1, AnsweredWith(s, tx, NoRows));
    } else if id in s.db.billed {
      LeadsInRun(actions, tx, 3, AnsweredWith(s, tx, Internal));
    } else {
      LeadsInRun(actions, tx, 4, Deletes(s, tx));
    }
  }

  // ---------- Updating a project ----------

  lemma UpdateLocks(s: State, tx: TxId)
    requires tx in s.txns && s.txns[tx].request.UpdateProject? && s.txns[tx].stage == Begun
    requires AloneOn(s, tx, s.txns[tx].request.id)
    ensures var id := s.txns[tx].request.id;
            if id !in s.db.projects then Leads(s, tx, 1, AnsweredWith(s, tx, NoRows))
            else Leads(s, tx, 2, At(s, tx, Locked(s.db.projects[id])))
  {
    var id := s.txns[tx].request.id;
    hide Leads, Enabled, Apply, AloneOn, Holds, Waits;
    NoStatement(s, tx);
    assert At(s, tx, Begun) == s;
    FreeToHold(s, tx, Begun);
    StatementAt(s, tx, 0, Begun);
    if id in s.db.projects {
      var locking := Locking(s.db.projects[id].version);
      FreeToHold(s, tx, locking);
      StatementAt(s, tx, 1, locking);
    }
  }

  lemma LockedUpdate(db: Db, log: seq<Commit>, tx: TxId, r: Request, row: Row)
    requires r.UpdateProject?
    ensures Execute(db, log, tx, Txn(r, Locked(row))) ==
            Effect(if r.accountId == r.id then Decided(row, row.accountId)
                   else if r.accountId !in db.accounts then Done(NotFound)
                   else if !db.accounts[r.accountId] then Done(PermissionDenied)
                   else Decided(row, r.accountId), db, log)
  {}

  lemma DecidedUpdate(db: Db, log: seq<Commit>, tx: TxId, r: Request, row: Row, accountId: Id)
    requires r.UpdateProject? && UPDATE_ID !in db.projects
    ensures Execute(db, log, tx, Txn(r, Decided(row, accountId))) == Effect(Done(Internal), db, log)
  {}

  lemma LockedLeads(s: State, tx: TxId, row: Row)
    requires tx in s.txns && s.txns[tx].request.UpdateProject? && Leads(s, tx, 2, At(s, tx, Locked(row)))
    requires AloneOn(s, tx, s.txns[tx].request.id) && UPDATE_ID !in s.db.projects
    ensures var id, accountId := s.txns[tx].request.id, s.txns[tx].request.accountId;
            if accountId != id && accountId !in s.db.accounts then Leads(s, tx, 3, AnsweredWith(s, tx, NotFound))
            else if accountId != id && !s.db.accounts[accountId] then Leads(s, tx, 3, AnsweredWith(s, tx, PermissionDenied))
            else Leads(s, tx, 4, AnsweredWith(s, tx, Internal))
  {
    var r := s.txns[tx].request;
    hide Leads, Enabled, Apply, AloneOn, Holds, Waits, Execute;
    FreeToHold(s, tx, Locked(row));
    StatementAt(s, tx, 2, Locked(row));
    LockedUpdate(s.db, s.log, tx, r, row);
    if r.accountId == r.id || (r.accountId in s.db.accounts && s.db.accounts[r.accountId]) {
      var accountId := if r.accountId == r.id then row.accountId else r.accountId;
      FreeToHold(s, tx, Decided(row, accountId));
      StatementAt(s, tx, 3, Decided(row, accountId));
      DecidedUpdate(s.db, s.log, tx, r, row, accountId);
    }
  }

  lemma UpdateLeads(s: State, tx: TxId)
    requires tx in s.txns && s.txns[tx].request.UpdateProject? && s.txns[tx].stage == Begun
    requires AloneOn(s, tx, s.txns[tx].request.id) && UPDATE_ID !in s.db.projects
    ensures var id, accountId := s.txns[tx].request.id, s.txns[tx].request.accountId;
            if id !in s.db.projects then Leads(s, tx, 1, AnsweredWith(s, tx, NoRows))
            else if accountId != id && accountId !in s.db.accounts then Leads(s, tx, 3, AnsweredWith(s, tx, NotFound))
            else if accountId != id && !s.db.accounts[accountId] then Leads(s, tx, 3, AnsweredWith(s, tx, PermissionDenied))
            else Leads(s, tx, 4, AnsweredWith(s, tx, Internal))
  {
    hide Leads, AloneOn, Execute;
    UpdateLocks(s, tx);
    if s.txns[tx].request.id in s.db.projects {
      LockedLeads(s, tx, s.db.projects[s.txns[tx].request.id]);
    }
  }

  /**
   An update that has begun, while no other transaction holds the project, is never carried out: NoRows if the project is
   absent; NotFound or PermissionDenied for the requested account, which is looked at unless it equals the project's id;
   Internal otherwise.
   */
  lemma UpdateIsAnswered(actions: seq<Action>, tx: TxId)
    requires IsRun(actions) && tx in StateAfter(actions).txns
    requires var t := StateAfter(actions).txns[tx];
             t.request.UpdateProject? && t.stage == Begun && AloneOn(StateAfter(actions), tx, t.request.id)
    ensures var s := StateAfter(actions);
            var id, accountId := s.txns[tx].request.id, s.txns[tx].request.accountId;
            if id !in s.db.projects then EndsIn(actions, tx, 1, AnsweredWith(s, tx, NoRows))
            else if accountId != id && accountId !in s.db.accounts then EndsIn(actions, tx, 3, AnsweredWith(s, tx, NotFound))
            else if accountId != id && !s.db.accounts[accountId] then
              EndsIn(actions, tx, 3, AnsweredWith(s, tx, PermissionDenied))
            else EndsIn(actions, tx, 4, AnsweredWith(s, tx, Internal))
  {
    NoProjectWithoutId(actions);
    hide IsRun, StateAfter, AloneOn, Leads, Statements;
    var s := StateAfter(actions);
    UpdateLeads(s, tx);
    var id, accountId := s.txns[tx].request.id, s.txns[tx].request.accountId;
    if id !in s.db.projects {
      LeadsInRun(actions, tx, 1, AnsweredWith(s, tx, NoRows));
    } else if accountId != id && accountId !in s.db.accounts {
      LeadsInRun(actions, tx, 3, AnsweredWith(s, tx, NotFound));
    } else if accountId != id && !s.db.accounts[accountId] {
      LeadsInRun(actions, tx, 3, AnsweredWith(s, tx, PermissionDenied));
    } else {
      LeadsInRun(actions, tx, 4, AnsweredWith(s, tx, Internal));
    }
  }

  lemma NoProjectWithoutId(actions: seq<Action>)
    requires IsRun(actions)
    ensures UPDATE_ID !in StateAfter(actions).db.projects
  {
    EveryRunKeepsInvariant(actions);
    NoEmptyId();
    hide ValidResourceID;
  }

  // ---------- Creating an account ----------

  ghost predicate AloneInserting(s: State, tx: TxId, id: Id) {
    forall u :: u in s.txns && u != tx ==> !InsertsAccount(s.txns[u], id)
  }

  /** The account is there, not enabled for demand. */
  function CreatesAccount(s: State, tx: TxId): State
    requires tx in s.txns && s.txns[tx].request.CreateAccount?
  {
    var r := s.txns[tx].request;
    State(s.db.(accounts := s.db.accounts[r.id := false]), s.txns[tx := Txn(r, Done(OK))], s.log)
  }

  lemma AccountLeads(s: State, tx: TxId)
    requires tx in s.txns && s.txns[tx].request.CreateAccount? && s.txns[tx].stage == Begun
    requires AloneInserting(s, tx, s.txns[tx].request.id)
    ensures if s.txns[tx].request.id in s.db.accounts then Leads(s, tx, 1, AnsweredWith(s, tx, Internal))
            else Leads(s, tx, 2, CreatesAccount(s, tx))
  {
    hide Leads;
    NoStatement(s, tx);
    OneStatement(s, tx, 0, s);
    if s.txns[tx].request.id !in s.db.accounts {
      OneStatement(s, tx, 1, At(s, tx, AccountInserted));
      assert Apply(At(s, tx, AccountInserted), Advance(tx)) == CreatesAccount(s, tx);
    }
  }

  /** The creation of an account with an id that is free succeeds, with demand not enabled. */
  lemma AccountCreationIsAnswered(actions: seq<Action>, tx: TxId)
    requires IsRun(actions) && tx in StateAfter(actions).txns
    requires var t := StateAfter(actions).txns[tx];
             t.request.CreateAccount? && t.stage == Begun && AloneInserting(StateAfter(actions), tx, t.request.id)
    ensures var s := StateAfter(actions);
            if s.txns[tx].request.id in s.db.accounts then EndsIn(actions, tx, 1, AnsweredWith(s, tx, Internal))
            else EndsIn(actions, tx, 2, CreatesAccount(s, tx))
  {
    hide IsRun, StateAfter, AloneInserting, Leads, Statements;
    var s := StateAfter(actions);
    AccountLeads(s, tx);
    if s.txns[tx].request.id in s.db.accounts {
      LeadsInRun(actions, tx, 1, AnsweredWith(s, tx, Internal));
    } else {
      LeadsInRun(actions, tx, 2, CreatesAccount(s, tx));
    }
  }

  // ---------- Arguments ----------

  /** The arguments a request needs to be begun. */
  predicate Acceptable(r: Request) {
    match r
    case CreateProject(id, accountId) => ValidResourceID(id) && ValidResourceID(accountId)
    case DeleteProject(id) => id != ""
    case UpdateProject(id, _) => ValidResourceID(id)
    case CreateAccount(_) => true
  }

  /** A request begins exactly when its arguments are acceptable; otherwise it is answered InvalidArgument at once. */
  lemma RequestIsOpened(actions: seq<Action>, tx: TxId, r: Request)
    requires IsRun(actions) && tx !in StateAfter(actions).txns
    ensures IsRun(actions + [Open(tx, r)])
    ensures var s, after := StateAfter(actions), StateAfter(actions + [Open(tx, r)]);
            && after.db == s.db && after.log == s.log
            && after.txns == s.txns[tx := Txn(r, if Acceptable(r) then Begun else Done(InvalidArgument))]
  {
    NoEmptyId();
    hide ValidResourceID, IsRun, StateAfter;
    OneMoreAction(actions, Open(tx, r));
  }

  // ---------- Accounts, and projects with spend, in terms of the run ----------

  ghost predicate Happened(actions: seq<Action>, a: Action) {
    exists i :: 0 <= i < |actions| && actions[i] == a
  }

  lemma HappenedStep(actions: seq<Action>, a: Action)
    requires |actions| > 0
    ensures Happened(actions, a) <==> Happened(actions[..|actions| - 1], a) || actions[|actions| - 1] == a
  {
    var front := actions[..|actions| - 1];
    if Happened(front, a) {
      var i :| 0 <= i < |front| && front[i] == a;
      assert actions[i] == a;
    }
    if Happened(actions, a) && actions[|actions| - 1] != a {
      var i :| 0 <= i < |actions| && actions[i] == a;
      assert front[i] == a;
    }
    if actions[|actions| - 1] == a {
      assert Happened(actions, a);
    }
  }

  lemma StepEnables(s: State, a: Action, accountId: Id)
    requires Invariant(s) && Enabled(s, a)
    ensures Charged(Apply(s, a).db, accountId) <==> Charged(s.db, accountId) || a == EnableDemand(accountId)
  {
    hide LogOk, AnswersOk, Exclusive;
    if a.Advance? {
      assert TxnOk(s.db, s.txns[a.tx]);
    }
  }

  /** In every run an account is there and enabled exactly when it was enabled at some time; creation does not do it. */
  lemma {:induction false} EnabledExactlyWhen(actions: seq<Action>, accountId: Id)
    requires IsRun(actions)
    ensures var db := StateAfter(actions).db;
            accountId in db.accounts && db.accounts[accountId] <==> Happened(actions, EnableDemand(accountId))
    decreases |actions|
  {
    if |actions| > 0 {
      var front := actions[..|actions| - 1];
      hide Invariant, Apply, Enabled, Happened;
      EnabledExactlyWhen(front, accountId);
      EveryRunKeepsInvariant(front);
      HappenedStep(actions, EnableDemand(accountId));
      StepEnables(StateAfter(front), actions[|actions| - 1], accountId);
    }
  }

  /** Every logged creation is under an account that is there and enabled. */
  predicate LogCharged(s: State) {
    forall i :: 0 <= i < |s.log| && s.log[i].Created? ==> Charged(s.db, s.log[i].accountId)
  }

  lemma StepKeepsLogCharged(s: State, a: Action)
    requires Invariant(s) && Enabled(s, a) && LogCharged(s)
    ensures LogCharged(Apply(s, a))
  {
    forall accountId | Charged(s.db, accountId) ensures Charged(Apply(s, a).db, accountId) {
      StepKeepsAccount(s, a, accountId);
    }
    if a.Advance? {
      assert TxnOk(s.db, s.txns[a.tx]);
      LoggedCreationIsCharged(s.db, s.log, a.tx, s.txns[a.tx]);
    }
    hide LogOk, AnswersOk, Exclusive, DbOk, TxnsOk, Charged, Execute, Waits;
  }

  lemma LoggedCreationIsCharged(db: Db, log: seq<Commit>, tx: TxId, t: Txn)
    requires DbOk(db) && TxnOk(db, t) && !t.stage.Done?
    ensures var e := Execute(db, log, tx, t);
            || e.log == log
            || (|e.log| == |log| + 1 && e.log[..|log|] == log &&
                (e.log[|log|].Created? ==> Charged(db, e.log[|log|].accountId)))
  {
    ExecuteCommits(db, log, tx, t);
    hide Execute;
  }

  lemma {:induction false} RunKeepsLogCharged(actions: seq<Action>)
    requires IsRun(actions)
    ensures LogCharged(StateAfter(actions))
    decreases |actions|
  {
    hide Invariant, Apply, Enabled, LogCharged;
    if |actions| == 0 {
      assert LogCharged(INITIAL) by { EmptyLog(); }
    } else {
      var front := actions[..|actions| - 1];
      RunKeepsLogCharged(front);
      EveryRunKeepsInvariant(front);
      StepKeepsLogCharged(StateAfter(front), actions[|actions| - 1]);
    }
  }

  lemma EmptyLog()
    ensures LogCharged(INITIAL)
  {}

  /** No creation is answered OK under an account that was never enabled. */
  lemma CreatedUnderEnabledAccounts(actions: seq<Action>, tx: TxId)
    requires IsRun(actions) && tx in StateAfter(actions).txns
    requires StateAfter(actions).txns[tx].request.CreateProject? && StateAfter(actions).txns[tx].stage == Done(OK)
    ensures Happened(actions, EnableDemand(StateAfter(actions).txns[tx].request.accountId))
  {
    hide IsRun, StateAfter, Happened;
    OkAnswersCommitted(actions, tx);
    RunKeepsLogCharged(actions);
    EnabledExactlyWhen(actions, StateAfter(actions).txns[tx].request.accountId);
  }

  /** The accounts are those whose creation was answered OK. */
  ghost predicate AccountsAreCreated(s: State) {
    forall id :: id in s.db.accounts <==> exists u :: u in s.txns && s.txns[u] == Txn(CreateAccount(id), Done(OK))
  }

  lemma StepKeepsAccountsCreated(s: State, a: Action)
    requires Invariant(s) && Enabled(s, a) && AccountsAreCreated(s)
    ensures AccountsAreCreated(Apply(s, a))
  {
    hide LogOk, AnswersOk, Exclusive, DbOk, ValidResourceID, Waits;
    var after := Apply(s, a);
    if a.Advance? {
      assert TxnOk(s.db, s.txns[a.tx]);
    }
    forall id ensures id in after.db.accounts <==> exists u :: u in after.txns && after.txns[u] == Txn(CreateAccount(id), Done(OK)) {
      if u :| u in s.txns && s.txns[u] == Txn(CreateAccount(id), Done(OK)) {
        assert u in after.txns && after.txns[u] == s.txns[u];
      }
      if u :| u in after.txns && after.txns[u] == Txn(CreateAccount(id), Done(OK)) {
        assert (u in s.txns && s.txns[u] == after.txns[u]) || a == Advance(u);
      }
      if id in after.db.accounts && id !in s.db.accounts {
        assert after.txns[a.tx] == Txn(CreateAccount(id), Done(OK));
      }
    }
  }

  /** In every run the accounts are exactly those whose creation was answered OK. */
  lemma {:induction false} AccountsExactlyWhenCreated(actions: seq<Action>)
    requires IsRun(actions)
    ensures AccountsAreCreated(StateAfter(actions))
    decreases |actions|
  {
    hide Invariant, Apply, Enabled;
    if |actions| > 0 {
      var front := actions[..|actions| - 1];
      AccountsExactlyWhenCreated(front);
      EveryRunKeepsInvariant(front);
      StepKeepsAccountsCreated(StateAfter(front), actions[|actions| - 1]);
    }
  }

  lemma StepBills(s: State, a: Action, id: Id)
    requires Enabled(s, a)
    ensures id in Apply(s, a).db.billed <==> id in s.db.billed || a == WriteProjectSpend(id)
  {}

  /** A project has spend rows exactly when the biller wrote some; and then it stays, no deletion of it succeeds. */
  lemma {:induction false} BilledExactlyWhen(actions: seq<Action>, id: Id)
    requires IsRun(actions)
    ensures id in StateAfter(actions).db.billed <==> Happened(actions, WriteProjectSpend(id))
    ensures Happened(actions, WriteProjectSpend(id)) ==> id in StateAfter(actions).db.projects
    decreases |actions|
  {
    EveryRunKeepsInvariant(actions);
    if |actions| > 0 {
      hide Invariant, Apply, Enabled, Happened;
      BilledExactlyWhen(actions[..|actions| - 1], id);
      HappenedStep(actions, WriteProjectSpend(id));
      StepBills(StateAfter(actions[..|actions| - 1]), actions[|actions| - 1], id);
    }
    if id in StateAfter(actions).db.billed {
      BilledArePresent(actions, id);
    }
  }

  lemma BilledArePresent(actions: seq<Action>, id: Id)
    requires IsRun(actions) && id in StateAfter(actions).db.billed
    ensures id in StateAfter(actions).db.projects
  {
    EveryRunKeepsInvariant(actions);
  }

  /** An account that is there can be enabled, and a project that no transaction holds can get spend rows. */
  lemma AccountsAndProjectsGoOn(actions: seq<Action>, id: Id)
    requires IsRun(actions)
    ensures id in StateAfter(actions).db.accounts ==>
              IsRun(actions + [EnableDemand(id)]) && Charged(StateAfter(actions + [EnableDemand(id)]).db, id)
    ensures id in StateAfter(actions).db.projects && (forall u :: u in StateAfter(actions).txns ==>
                                                                    !Holds(StateAfter(actions).txns[u], id)) ==>
              IsRun(actions + [WriteProjectSpend(id)]) && id in StateAfter(actions + [WriteProjectSpend(id)]).db.billed
  {
    hide IsRun, StateAfter, Holds;
    if id in StateAfter(actions).db.accounts {
      OneMoreAction(actions, EnableDemand(id));
    }
    if id in StateAfter(actions).db.projects && forall u :: u in StateAfter(actions).txns ==> !Holds(StateAfter(actions).txns[u], id) {
      OneMoreAction(actions, WriteProjectSpend(id));
    }
  }

  // ---------- Requests whose row is gone ----------

  /** The version of the row that a waiting deletion or update found. */
  function Found(t: Txn): Option<nat> {
    match t.stage
    case Deleting(version) => Some(version)
    case Locking(version) => Some(version)
    case _ => None
  }

  /** Each version is given to one row only. */
  ghost predicate VersionsOk(s: State) {
    && (forall u :: u in s.txns && s.txns[u].stage.Inserted? ==> s.txns[u].stage.row.version < s.db.nextVersion)
    && (forall p :: p in s.db.projects ==> s.db.projects[p].version < s.db.nextVersion)
    && (forall u :: u in s.txns && Found(s.txns[u]).Some? ==> Found(s.txns[u]).value < s.db.nextVersion)
    && (forall u, p :: u in s.txns && s.txns[u].stage.Inserted? && p in s.db.projects ==>
                         s.db.projects[p].version != s.txns[u].stage.row.version)
    && (forall u, v :: u in s.txns && v in s.txns && u != v && s.txns[u].stage.Inserted? && s.txns[v].stage.Inserted? ==>
                         s.txns[u].stage.row.version != s.txns[v].stage.row.version)
    && (forall u, v :: u in s.txns && v in s.txns && Found(s.txns[u]).Some? && s.txns[v].stage.Inserted? ==>
                         Found(s.txns[u]).value != s.txns[v].stage.row.version)
  }

  lemma StepKeepsVersions(s: State, a: Action)
    requires Enabled(s, a) && VersionsOk(s) && TxnsOk(s)
    ensures VersionsOk(Apply(s, a))
  {
    hide ValidResourceID, Waits, VersionsOk;
    match a
    case Open(tx, r) => PlainStageKeepsVersions(s, tx, Txn(r, Validate(r)));
    case Advance(tx) =>
      assert TxnOk(s.db, s.txns[tx]);
      AdvanceVersions(s, tx);
    case Fail(tx) => PlainStageKeepsVersions(s, tx, Txn(s.txns[tx].request, Done(Internal)));
    case EnableDemand(accountId) => SameRowsKeepVersions(s, Apply(s, a));
    case WriteProjectSpend(id) => SameRowsKeepVersions(s, Apply(s, a));
  }

  lemma PlainStageKeepsVersions(s: State, tx: TxId, t: Txn)
    requires VersionsOk(s) && Found(t).None? && !t.stage.Inserted?
    ensures VersionsOk(s.(txns := s.txns[tx := t]))
  {}

  lemma SameRowsKeepVersions(s: State, after: State)
    requires VersionsOk(s) && after.txns == s.txns
    requires after.db.projects == s.db.projects && after.db.nextVersion == s.db.nextVersion
    ensures VersionsOk(after)
  {}

  /** What one statement does to versions. */
  lemma ExecuteVersions(db: Db, log: seq<Commit>, tx: TxId, t: Txn)
    requires TxnOk(db, t)
    ensures var e := Execute(db, log, tx, t);
            && db.nextVersion <= e.db.nextVersion
            && (Found(Txn(t.request, e.stage)).Some? && e.stage != t.stage ==>
                  !t.request.CreateAccount? && t.request.id in db.projects &&
                  Found(Txn(t.request, e.stage)).value == db.projects[t.request.id].version)
            && (e.stage.Inserted? && e.stage != t.stage ==>
                  e.stage.row.version == db.nextVersion && e.db.nextVersion == db.nextVersion + 1)
            && (forall p :: p in e.db.projects ==>
                  || (p in db.projects && e.db.projects[p].version == db.projects[p].version)
                  || (t.stage.Inserted? && !e.stage.Inserted? && e.db.projects[p] == t.stage.row && p == t.request.id &&
                      !t.request.CreateAccount?))
  {
    hide ValidResourceID;
  }

  lemma AdvanceVersions(s: State, tx: TxId)
    requires Enabled(s, Advance(tx)) && VersionsOk(s) && TxnOk(s.db, s.txns[tx])
    ensures VersionsOk(Apply(s, Advance(tx)))
  {
    hide TxnOk, Execute, Waits;
    ExecuteVersions(s.db, s.log, tx, s.txns[tx]);
  }

  lemma {:induction false} RunKeepsVersions(actions: seq<Action>)
    requires IsRun(actions)
    ensures VersionsOk(StateAfter(actions))
    decreases |actions|
  {
    hide Apply, Enabled;
    if |actions| > 0 {
      var front := actions[..|actions| - 1];
      RunKeepsVersions(front);
      EveryRunKeepsInvariant(front);
      hide VersionsOk;
      StepKeepsVersions(StateAfter(front), actions[|actions| - 1]);
    }
  }

  /** The row that the request found is not there any more, even if another of the same id is. */
  predicate Stale(db: Db, t: Txn) {
    && !t.request.CreateAccount? && Found(t).Some?
    && !(t.request.id in db.projects && db.projects[t.request.id].version == Found(t).value)
  }

  predicate Lost(db: Db, t: Txn) {
    Stale(db, t) || t.stage == Done(Internal) || (t.request.UpdateProject? && t.stage == Done(NoRows))
  }

  lemma StepKeepsLost(s: State, a: Action, tx: TxId)
    requires Enabled(s, a) && VersionsOk(s) && TxnsOk(s) && tx in s.txns && Lost(s.db, s.txns[tx])
    ensures var after := Apply(s, a); tx in after.txns && Lost(after.db, after.txns[tx])
  {
    hide ValidResourceID, Waits;
    if a.Advance? {
      assert TxnOk(s.db, s.txns[a.tx]) && TxnOk(s.db, s.txns[tx]);
      hide TxnOk;
    }
  }

  /**
   A deletion or update that waits for a row which is then deleted never takes the row that replaced it: it ends in
   Internal, or for an update in NoRows.
   */
  lemma {:induction false} StaleRequestsFail(actions: seq<Action>, k: nat, tx: TxId)
    requires IsRun(actions) && k <= |actions| && IsRun(actions[..k])
    requires tx in StateAfter(actions[..k]).txns && Stale(StateAfter(actions[..k]).db, StateAfter(actions[..k]).txns[tx])
    ensures tx in StateAfter(actions).txns && Lost(StateAfter(actions).db, StateAfter(actions).txns[tx])
    decreases |actions|
  {
    if k < |actions| {
      var front := actions[..|actions| - 1];
      assert front[..k] == actions[..k];
      StaleRequestsFail(front, k, tx);
      RunKeepsVersions(front);
      EveryRunKeepsInvariant(front);
      hide VersionsOk, Apply, Enabled, Lost;
      StepKeepsLost(StateAfter(front), actions[|actions| - 1], tx);
    } else {
      assert actions[..k] == actions;
    }
  }
}
