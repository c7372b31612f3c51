/** The PostgreSQL store, run serially, simulates the in-memory store. */
module Agreement {
  import opened Base
  import opened Text
  import opened Domain
  import opened Store
  import Mem = MemoryStore
  import Pg = Tables
  import opened Ledger

  ghost predicate SameQuestions(m: Mem.State, db: Pg.Db) {
    && m.questions.Keys == db.questions.Keys
    && forall id :: id in m.questions ==> m.questions[id] == db.questions[id].data
  }

  ghost predicate SameKeys(m: Mem.State, db: Pg.Db) {
    && m.idempotency.Keys == db.keys.Keys
    && forall key :: key in m.idempotency ==>
         m.idempotency[key] == Mem.Entry(db.keys[key].fingerprint, db.keys[key].response, db.keys[key].expiresAt)
  }

  /** Same question states, same idempotency entries, same success audit rows in the same order. */
  ghost predicate Agree(m: Mem.State, db: Pg.Db) {
    SameQuestions(m, db) && SameKeys(m, db) && SuccessRows(m.audit) == SuccessRows(db.audit)
  }

  /** The stores part on one input only: a call on an existing question for the empty tenant,
      which the in-memory store answers with not_found and PostgreSQL with an argument error. */
  predicate TenantGiven(c: Call) {
    c.Create? || c.tenantId != EMPTY_GUID
  }

  /** An accepted command appends equal success rows and stores equal snapshots. */
  lemma AcceptedAgrees(m: Mem.State, db: Pg.Db, e: Event, dropKey: bool, row: Pg.QuestionRow, n: Mem.State)
    requires Agree(m, db)
    requires e.call.Approval? ==> (dropKey || KeyOf(e.call) !in db.keys)
    requires n.questions == m.questions[row.data.id := row.data] && n.audit == m.audit + [Audited(e, Success)]
    requires n.idempotency == if e.call.Approval?
      then m.idempotency[KeyOf(e.call) := Mem.Entry(FingerprintOf(e.call), row.data, e.ticket.now + RETENTION)]
      else m.idempotency
    ensures Agree(n, Pg.Committed(db, e, Pg.Accepted(e, dropKey, row)))
  {
    SuccessRowsSnoc(m.audit, Audited(e, Success));
    SuccessRowsSnoc(db.audit, Audited(e, Success));
  }

  lemma CreateAgrees(m: Mem.State, db: Pg.Db, e: Event)
    requires Agree(m, db) && e.call.Create?
    ensures Agree(Mem.CreateStep(m, e).0, Pg.Committed(db, e, Pg.CreateOutcome(db, e).0))
    ensures Mem.CreateStep(m, e).1 == Pg.CreateOutcome(db, e).1
  {
    var r := Mem.CreateStep(m, e).1;
    if r.Ok? {
      AcceptedAgrees(m, db, e, false, Pg.QuestionRow(r.value, None), Mem.CreateStep(m, e).0);
    }
  }

  /** A refusal adds no success row; only an expired key may go. */
  lemma RefusedAgrees(m: Mem.State, db: Pg.Db, e: Event, dropKey: bool, code: Code, n: Mem.State)
    requires Agree(m, db)
    requires e.call.Approval? ==> (dropKey || KeyOf(e.call) !in db.keys)
    requires n.questions == m.questions
    requires n.audit == m.audit || n.audit == m.audit + [Audited(e, Rejected(code))]
    requires n.idempotency == if e.call.Approval? then m.idempotency - {KeyOf(e.call)} else m.idempotency
    ensures Agree(n, Pg.Committed(db, e, Pg.Refused(e, dropKey, code)))
  {
    SuccessRowsSnoc(m.audit, Audited(e, Rejected(code)));
    SuccessRowsSnoc(db.audit, Audited(e, Rejected(code)));
  }

  /** Both stores hand the command the same snapshot, or none. */
  lemma SameRow(m: Mem.State, db: Pg.Db, c: Call)
    requires Agree(m, db) && Kept(db) && !c.Create?
    ensures var row := Pg.TargetRow(db, c);
            && (row.Some? <==> Mem.Visible(m, c.tenantId, c.id))
            && (row.Some? ==> row.value.data == m.questions[c.id] && row.value.data.id == c.id && Sound(row.value.data))
  {
    assert c.id in db.questions ==> RowKept(db, c.id);
  }

  lemma JudgeKeepsId(row: Option<Pg.QuestionRow>, c: Call, now: int)
    requires !c.Create? && Pg.Judge(row, c, now).Ok? && Sound(row.value.data)
    ensures Pg.Judge(row, c, now).value.id == row.value.data.id
  {
    ExecuteSucceeds(row.value.data, CommandOf(c), now);
  }

  /** What the in-memory store does with a command that is judged acceptable, or not. */
  lemma MutateCases(m: Mem.State, e: Event, j: Result<Snapshot, Code>)
    requires e.call.Mutate?
    requires j == if Mem.Visible(m, e.call.tenantId, e.call.id)
                  then Execute(m.questions[e.call.id], e.call.command, e.ticket.now) else Err(NotFound)
    ensures var n := Mem.MutateStep(m, e).0;
      && n.idempotency == m.idempotency
      && (j.Ok? ==>
            && Mem.MutateStep(m, e).1 == Ok(j.value)
            && n.questions == m.questions[e.call.id := j.value] && n.audit == m.audit + [Audited(e, Success)])
      && (j.Err? ==>
            && Mem.MutateStep(m, e).1 == Err(Rule(j.error)) && n.questions == m.questions
            && (n.audit == m.audit || n.audit == m.audit + [Audited(e, Rejected(j.error))]))
  {
  }

  lemma ApproveCases(m: Mem.State, e: Event, j: Result<Snapshot, Code>)
    requires e.call.Approval?
    requires j == if Mem.Visible(m, e.call.tenantId, e.call.id)
                  then Execute(m.questions[e.call.id], CommandOf(e.call), e.ticket.now) else Err(NotFound)
    ensures var n := Mem.ApproveFirst(m, e).0;
      && (j.Ok? ==>
            && Mem.ApproveFirst(m, e).1 == Ok(j.value)
            && n == Mem.State(m.questions[e.call.id := j.value],
                 m.idempotency[KeyOf(e.call) := Mem.Entry(FingerprintOf(e.call), j.value, e.ticket.now + RETENTION)],
                 m.audit + [Audited(e, Success)]))
      && (j.Err? ==>
            && Mem.ApproveFirst(m, e).1 == Err(Rule(j.error))
            && n.questions == m.questions && n.idempotency == m.idempotency
            && (n.audit == m.audit || n.audit == m.audit + [Audited(e, Rejected(j.error))]))
  {
  }

  /** The result and the tables of a decision depend on the judgement alone. */
  lemma DecisionCases(db: Pg.Db, e: Event, dropKey: bool, j: Result<Snapshot, Code>)
    requires !e.call.Create? && j == Pg.Judge(Pg.TargetRow(db, e.call), e.call, e.ticket.now)
    ensures Pg.Decision(db, e, dropKey) == match j
      case Ok(s) => (Pg.Accepted(e, dropKey, Pg.QuestionRow(s, Pg.Pointer(db.revisions, s))), Ok(s))
      case Err(code) => (Pg.Refused(e, dropKey, code), Err(Rule(code)))
  {
  }

  /** A judged command leaves both stores in agreement, whatever the judgement was. */
  lemma JudgedAgrees(m: Mem.State, db: Pg.Db, e: Event, dropKey: bool, j: Result<Snapshot, Code>, n: Mem.State,
                     d: Pg.Delta)
    requires Agree(m, db) && !e.call.Create? && (j.Ok? ==> j.value.id == e.call.id)
    requires e.call.Approval? ==> (dropKey || KeyOf(e.call) !in db.keys)
    requires d == match j
      case Ok(s) => Pg.Accepted(e, dropKey, Pg.QuestionRow(s, Pg.Pointer(db.revisions, s)))
      case Err(code) => Pg.Refused(e, dropKey, code)
    requires j.Ok? ==>
      && n.questions == m.questions[e.call.id := j.value] && n.audit == m.audit + [Audited(e, Success)]
      && n.idempotency == if e.call.Approval?
           then m.idempotency[KeyOf(e.call) := Mem.Entry(FingerprintOf(e.call), j.value, e.ticket.now + RETENTION)]
           else m.idempotency
    requires j.Err? ==>
      && n.questions == m.questions
      && (n.audit == m.audit || n.audit == m.audit + [Audited(e, Rejected(j.error))])
      && n.idempotency == if e.call.Approval? then m.idempotency - {KeyOf(e.call)} else m.idempotency
    ensures Agree(n, Pg.Committed(db, e, d))
  {
    match j
    case Ok(s) => AcceptedAgrees(m, db, e, dropKey, Pg.QuestionRow(s, Pg.Pointer(db.revisions, s)), n);
    case Err(code) => RefusedAgrees(m, db, e, dropKey, code, n);
  }

  lemma MutateAgrees(m: Mem.State, db: Pg.Db, e: Event)
    requires Agree(m, db) && Kept(db) && e.call.Mutate?
    ensures Agree(Mem.MutateStep(m, e).0, Pg.Committed(db, e, Pg.Decision(db, e, false).0))
    ensures Mem.MutateStep(m, e).1 == Pg.Decision(db, e, false).1
  {
    hide Execute, Mem.MutateStep, Pg.Decision, Pg.Committed, Agree, Kept, Audited, Fingerprint;
    SameRow(m, db, e.call);
    var j := Pg.Judge(Pg.TargetRow(db, e.call), e.call, e.ticket.now);
    if j.Ok? { JudgeKeepsId(Pg.TargetRow(db, e.call), e.call, e.ticket.now); }
    MutateCases(m, e, j);
    DecisionCases(db, e, false, j);
    JudgedAgrees(m, db, e, false, j, Mem.MutateStep(m, e).0, Pg.Decision(db, e, false).0);
  }

  lemma ApproveFirstAgrees(m: Mem.State, db: Pg.Db, e: Event, dropKey: bool)
    requires Agree(m, db) && Kept(db) && e.call.Approval?
    requires dropKey || KeyOf(e.call) !in db.keys
    ensures var swept := m.(idempotency := m.idempotency - {KeyOf(e.call)});
            && Agree(Mem.ApproveFirst(swept, e).0, Pg.Committed(db, e, Pg.Decision(db, e, dropKey).0))
            && Mem.ApproveFirst(swept, e).1 == Pg.Decision(db, e, dropKey).1
  {
    hide Execute, Mem.ApproveFirst, Pg.Decision, Pg.Committed, Agree, Kept, Audited, Fingerprint;
    SameRow(m, db, e.call);
    var swept := m.(idempotency := m.idempotency - {KeyOf(e.call)});
    var j := Pg.Judge(Pg.TargetRow(db, e.call), e.call, e.ticket.now);
    if j.Ok? {
      JudgeKeepsId(Pg.TargetRow(db, e.call), e.call, e.ticket.now);
      var entry := Mem.Entry(FingerprintOf(e.call), j.value, e.ticket.now + RETENTION);
      assert swept.idempotency[KeyOf(e.call) := entry] == m.idempotency[KeyOf(e.call) := entry];
    }
    ApproveCases(swept, e, j);
    DecisionCases(db, e, dropKey, j);
    JudgedAgrees(m, db, e, dropKey, j, Mem.ApproveFirst(swept, e).0, Pg.Decision(db, e, dropKey).0);
  }

  lemma ApproveAgrees(m: Mem.State, db: Pg.Db, e: Event)
    requires Agree(m, db) && Kept(db) && e.call.Approval? && e.call.tenantId != EMPTY_GUID
    ensures Agree(Mem.ApproveStep(m, e).0, Pg.Step(db, e))
    ensures Mem.ApproveStep(m, e).1 == Pg.Transaction(db, e).1
  {
    var row := Pg.KeyRowOf(db, KeyOf(e.call));
    if row.None? || Pg.Expired(row, e.ticket.now) {
      ApproveFirstAgrees(m, db, e, Pg.Expired(row, e.ticket.now));
    }
  }

  /** For the empty tenant nothing is visible in memory, and no key is remembered. */
  lemma EmptyTenantUnseen(m: Mem.State, db: Pg.Db, e: Event)
    requires Agree(m, db) && Kept(db) && !e.call.Create? && e.call.tenantId == EMPTY_GUID
    ensures !Mem.Visible(m, e.call.tenantId, e.call.id)
    ensures e.call.Approval? ==> KeyOf(e.call) !in m.idempotency
  {
    assert e.call.id in db.questions ==> RowKept(db, e.call.id);
  }

  lemma EmptyTenantChangesNothing(m: Mem.State, db: Pg.Db, e: Event)
    requires !e.call.Create? && e.call.tenantId == EMPTY_GUID
    requires !Mem.Visible(m, e.call.tenantId, e.call.id) && (e.call.Approval? ==> KeyOf(e.call) !in m.idempotency)
    ensures Mem.Step(m, e) == (m, Err(Rule(NotFound)))
    ensures Pg.Step(db, e) == db && Pg.Transaction(db, e).1 == Err(Argument(EmptyTenant))
  {
    if e.call.Approval? {
      assert m.idempotency - {KeyOf(e.call)} == m.idempotency;
    }
  }

  /** For the empty tenant neither store changes anything that is compared. */
  lemma EmptyTenantAgrees(m: Mem.State, db: Pg.Db, e: Event)
    requires Agree(m, db) && Kept(db) && !e.call.Create? && e.call.tenantId == EMPTY_GUID
    ensures Agree(Mem.Step(m, e).0, Pg.Step(db, e))
    ensures Mem.Step(m, e).1 == Err(Rule(NotFound))
    ensures Pg.Transaction(db, e).1 == Err(Argument(EmptyTenant))
  {
    hide Agree, Kept, Mem.Step, Pg.Step, Pg.Transaction, Mem.Visible;
    EmptyTenantUnseen(m, db, e);
    EmptyTenantChangesNothing(m, db, e);
  }

  /** One call: the stores stay in agreement, and their results are equal exactly when the
      call names a tenant. */
  lemma StepAgrees(m: Mem.State, db: Pg.Db, e: Event)
    requires Agree(m, db) && Kept(db)
    ensures Agree(Mem.Step(m, e).0, Pg.Step(db, e))
    ensures Mem.Step(m, e).1 == Pg.Transaction(db, e).1 <==> TenantGiven(e.call)
  {
    if e.call.Create? {
      CreateAgrees(m, db, e);
    } else if e.call.tenantId == EMPTY_GUID {
      EmptyTenantAgrees(m, db, e);
    } else if e.call.Mutate? {
      MutateAgrees(m, db, e);
    } else {
      ApproveAgrees(m, db, e);
    }
  }

  /** Any sequence of calls from empty stores leaves them in agreement. */
  lemma {:induction false} RunAgrees(events: seq<Event>)
    ensures Agree(Mem.Run(Mem.EMPTY, events), Pg.Run(Pg.EMPTY, events))
    ensures Kept(Pg.Run(Pg.EMPTY, events))
    decreases |events|
  {
    EmptyKept();
    RunKeeps(Pg.EMPTY, events);
    if events != [] {
      var before, e := events[..|events| - 1], events[|events| - 1];
      RunAgrees(before);
      StepAgrees(Mem.Run(Mem.EMPTY, before), Pg.Run(Pg.EMPTY, before), e);
    }
  }

  /** Each call of the sequence gets the same result from both stores exactly when it names a tenant. */
  lemma ResultsAgree(events: seq<Event>, k: nat)
    requires k < |events|
    ensures
      (Mem.Step(Mem.Run(Mem.EMPTY, events[..k]), events[k]).1
       == Pg.Transaction(Pg.Run(Pg.EMPTY, events[..k]), events[k]).1)
      <==> TenantGiven(events[k].call)
  {
    RunAgrees(events[..k]);
    StepAgrees(Mem.Run(Mem.EMPTY, events[..k]), Pg.Run(Pg.EMPTY, events[..k]), events[k]);
  }

  /** In both stores the success rows about a question number its version, and its approvals one at most. */
  lemma SuccessRowsNumberVersion(events: seq<Event>, id: Guid)
    ensures var m, db := Mem.Run(Mem.EMPTY, events), Pg.Run(Pg.EMPTY, events);
      && SuccessCount(m.audit, id) == SuccessCount(db.audit, id)
        == (if id in m.questions then m.questions[id].version else 0)
      && ApprovalCount(m.audit, id) == ApprovalCount(db.audit, id) <= 1
      && (id in m.questions ==> Consistent(m.questions[id]))
  {
    RunAgrees(events);
    var m, db := Mem.Run(Mem.EMPTY, events), Pg.Run(Pg.EMPTY, events);
    CountsOfSuccessRows(m.audit, id);
    CountsOfSuccessRows(db.audit, id);
    assert if id in db.questions then RowKept(db, id) else Unrecorded(db, id);
  }
}
