/** What each call to a store promises: its answer, the question it leaves, its audit row and the key it files. */
module StoreLaws {
  import opened Base
  import opened Text
  import opened Domain
  import opened Store
  import opened CommandLaws
  import Mem = MemoryStore
  import Pg = Tables
  import opened Ledger
  import opened Transactions

  /** Microseconds in a day. */
  const DAY := 24 * 60 * 60 * 1_000_000

  /** A store's result carries the command's answer. */
  ghost predicate Told(r: Result<Snapshot, Error>, j: Result<Snapshot, Code>) {
    match j case Ok(s) => r == Ok(s) case Err(code) => r == Err(Rule(code))
  }

  /** The audit row names the call, who made it, what it addressed and how it ended. */
  ghost predicate RowTells(row: AuditRow, e: Event, verdict: Verdict) {
    && row.id == e.ticket.auditId && row.occurredAt == e.ticket.now && row.verdict == verdict
    && row.tenantId == e.call.tenantId && row.correlation == e.call.correlation
    && match e.call
       case Create(_, _, actor, _) =>
         row.actor == actor && row.targetId == e.ticket.questionId && row.action == CreateAction
       case Mutate(_, id, command, _) =>
         && row.actor == command.actor && row.targetId == id
         && (row.action == UpdateAction <==> command.Update?) && (row.action == SubmitAction <==> command.Submit?)
         && (row.action == ReturnAction <==> command.Return?) && (row.action == WithdrawAction <==> command.Withdraw?)
       case Approval(_, id, reviewer, _, _, _) =>
         row.actor == reviewer && row.targetId == id && row.action == ApproveAction
  }

  /** One row was added. */
  ghost predicate Added(before: seq<AuditRow>, after: seq<AuditRow>, e: Event, verdict: Verdict) {
    |after| == |before| + 1 && after[..|before|] == before && RowTells(after[|before|], e, verdict)
  }

  /** The tables after a command was judged on a row of its tenant. */
  ghost predicate PgJudged(db: Pg.Db, after: Pg.Db, e: Event, id: Guid, command: Command, r: Result<Snapshot, Error>) {
    if id !in db.questions || db.questions[id].data.tenantId != e.call.tenantId then
      && r == Err(Rule(NotFound)) && after.questions == db.questions && after.revisions == db.revisions
      && Added(db.audit, after.audit, e, Rejected(NotFound))
    else
      exists j: Result<Snapshot, Code> ::
        && Answers(db.questions[id].data, command, e.ticket.now, j) && Told(r, j)
        && match j
           case Ok(t) =>
             && id in after.questions && after.questions[id].data == t
             && after.questions == db.questions[id := after.questions[id]]
             && after.revisions == db.revisions + [Pg.RevisionRow(e.ticket.revisionId, t)]
             && Added(db.audit, after.audit, e, Success)
           case Err(code) =>
             && after.questions == db.questions && after.revisions == db.revisions
             && Added(db.audit, after.audit, e, Rejected(code))
  }

  lemma AuditedTells(e: Event, verdict: Verdict)
    ensures RowTells(Audited(e, verdict), e, verdict)
  {
  }

  lemma OneAdded(before: seq<AuditRow>, e: Event, verdict: Verdict)
    ensures Added(before, before + [Audited(e, verdict)], e, verdict)
  {
    hide RowTells, Audited;
    AuditedTells(e, verdict);
  }

  lemma DecisionJudged(db: Pg.Db, e: Event, dropKey: bool)
    requires !e.call.Create? && (e.call.id in db.questions ==> db.questions[e.call.id].data.id == e.call.id)
    ensures PgJudged(db, Pg.Committed(db, e, Pg.Decision(db, e, dropKey).0), e, e.call.id, CommandOf(e.call),
                     Pg.Decision(db, e, dropKey).1)
  {
    hide Answers, Added, Audited, FingerprintOf, Pg.Pointer;
    if Pg.TargetRow(db, e.call).None? {
      OneAdded(db.audit, e, Rejected(NotFound));
    } else {
      var s := db.questions[e.call.id].data;
      var j := Execute(s, CommandOf(e.call), e.ticket.now);
      ExecuteAnswers(s, CommandOf(e.call), e.ticket.now);
      match j
      case Ok(t) => OneAdded(db.audit, e, Success);
      case Err(code) => OneAdded(db.audit, e, Rejected(code));
    }
  }

  /** The key an approval is remembered by is live: filed, and not yet expired. */
  ghost predicate PgLive(db: Pg.Db, c: Call, now: int)
    requires c.Approval?
  {
    (c.tenantId, c.key) in db.keys && now < db.keys[(c.tenantId, c.key)].expiresAt
  }

  /** A first use files its result for a day; a refusal leaves no key behind. */
  ghost predicate PgFiled(db: Pg.Db, after: Pg.Db, e: Event, r: Result<Snapshot, Error>)
    requires e.call.Approval?
  {
    var key := (e.call.tenantId, e.call.key);
    if r.Ok? then
      && key in after.keys && after.keys == db.keys[key := after.keys[key]]
      && after.keys[key].response == r.value && after.keys[key].createdAt == e.ticket.now
      && after.keys[key].expiresAt == e.ticket.now + DAY
      && after.keys[key].actor == e.call.reviewer && after.keys[key].expectedVersion == e.call.expectedVersion
      && forall other: Call :: other.Approval? ==>
           (FingerprintOf(other) == after.keys[key].fingerprint <==> SameCommand(other, e.call))
    else after.keys == db.keys - {key}
  }

  /** What a call to the PostgreSQL store promises. */
  ghost predicate PgAnswered(db: Pg.Db, after: Pg.Db, e: Event, r: Result<Snapshot, Error>) {
    match e.call
    case Create(tenantId, content, actor, _) =>
      var id := e.ticket.questionId;
      && (r == Err(Argument(EmptyId)) <==> id == EMPTY_GUID)
      && (r == Err(Argument(EmptyTenant)) <==> id != EMPTY_GUID && tenantId == EMPTY_GUID)
      && (r == Err(Argument(OwnerRequired)) <==> id != EMPTY_GUID && tenantId != EMPTY_GUID && Trimmed(actor, ""))
      && (r == Err(Collision) <==>
            id != EMPTY_GUID && tenantId != EMPTY_GUID && !Trimmed(actor, "") && id in db.questions)
      && (r.Err? ==> after == db && (r.error.Argument? || r.error.Collision?))
      && (r.Ok? ==>
            && IsNewDraft(r.value, e)
            && after.questions == db.questions[id := Pg.QuestionRow(r.value, None)]
            && after.revisions == db.revisions + [Pg.RevisionRow(e.ticket.revisionId, r.value)]
            && after.keys == db.keys && Added(db.audit, after.audit, e, Success))
    case Mutate(tenantId, id, command, _) =>
      if tenantId == EMPTY_GUID then r == Err(Argument(EmptyTenant)) && after == db
      else PgJudged(db, after, e, id, command, r) && after.keys == db.keys
    case Approval(tenantId, id, reviewer, expectedVersion, key, _) =>
      if tenantId == EMPTY_GUID then r == Err(Argument(EmptyTenant)) && after == db
      else if PgLive(db, e.call, e.ticket.now) then
        && after == db
        && (r == Ok(db.keys[(tenantId, key)].response) || r == Err(Rule(KeyReused)))
        && (r == Err(Rule(KeyReused)) <==> db.keys[(tenantId, key)].fingerprint != FingerprintOf(e.call))
      else
        && PgJudged(db, after, e, id, Approve(reviewer, expectedVersion), r)
        && PgFiled(db, after, e, r)
  }

  /** A draft with the content, owner and clock reading of the call. */
  ghost predicate IsNewDraft(s: Snapshot, e: Event)
    requires e.call.Create?
  {
    && s.id == e.ticket.questionId && s.tenantId == e.call.tenantId && s.owner == e.call.actor
    && s.title == e.call.content.title && s.body == e.call.content.body && s.tags == e.call.content.tags
    && s.status == Draft && s.version == 1 && s.createdAt == e.ticket.now && s.updatedAt == e.ticket.now
    && s.publishedAt == None && s.approvedVersion == None && s.approvedBy == None
    && s.reviewReason == None && s.withdrawalReason == None
  }

  lemma PgCreateAnswered(db: Pg.Db, e: Event)
    requires e.call.Create?
    ensures PgAnswered(db, Pg.Step(db, e), e, Pg.Transaction(db, e).1)
  {
    hide Trimmed, IsBlank, Added, Audited;
    BlankIsTrimmedAway(e.call.actor);
    OneAdded(db.audit, e, Success);
  }

  lemma PgMutationAnswered(db: Pg.Db, e: Event)
    requires e.call.Mutate? && (e.call.id in db.questions ==> db.questions[e.call.id].data.id == e.call.id)
    ensures PgAnswered(db, Pg.Step(db, e), e, Pg.Transaction(db, e).1)
  {
    hide PgJudged, Pg.Decision;
    DecisionJudged(db, e, false);
    DecisionKeys(db, e, false);
  }

  lemma DecisionKeys(db: Pg.Db, e: Event, dropKey: bool)
    requires !e.call.Create?
    ensures var (d, r) := Pg.Decision(db, e, dropKey);
      Pg.Committed(db, e, d).keys ==
        if e.call.Mutate? then db.keys
        else
          var key := (e.call.tenantId, e.call.key);
          var kept := if dropKey then db.keys - {key} else db.keys;
          if r.Ok? then
            kept[key := Pg.KeyRow(e.call.reviewer, e.call.expectedVersion, FingerprintOf(e.call), r.value, e.ticket.now,
                                  e.ticket.now + DAY)]
          else kept
  {
    hide FingerprintOf, Execute, Audited, Pg.Pointer;
  }

  lemma FingerprintNames(a: Call, b: Call)
    requires a.Approval? && b.Approval?
    ensures FingerprintOf(a) == FingerprintOf(b) <==> SameCommand(a, b)
  {
    hide Fingerprint;
    if FingerprintOf(a) == FingerprintOf(b) {
      FingerprintInjective(a.tenantId, a.id, a.reviewer, a.expectedVersion, b.tenantId, b.id, b.reviewer,
        b.expectedVersion);
    }
  }

  lemma PgApprovalFiled(db: Pg.Db, e: Event, dropKey: bool)
    requires e.call.Approval? && (dropKey <==> (e.call.tenantId, e.call.key) in db.keys)
    ensures var (d, r) := Pg.Decision(db, e, dropKey); PgFiled(db, Pg.Committed(db, e, d), e, r)
  {
    hide FingerprintOf, Pg.Decision, Pg.Committed;
    DecisionKeys(db, e, dropKey);
    forall other: Call | other.Approval?
      ensures FingerprintOf(other) == FingerprintOf(e.call) <==> SameCommand(other, e.call)
    {
      FingerprintNames(other, e.call);
    }
    var key := (e.call.tenantId, e.call.key);
    assert key !in db.keys ==> db.keys - {key} == db.keys;
  }

  lemma PgApprovalAnswered(db: Pg.Db, e: Event)
    requires e.call.Approval? && (e.call.id in db.questions ==> db.questions[e.call.id].data.id == e.call.id)
    ensures PgAnswered(db, Pg.Step(db, e), e, Pg.Transaction(db, e).1)
  {
    hide PgJudged, PgFiled, Pg.Decision, FingerprintOf;
    var dropped := (e.call.tenantId, e.call.key) in db.keys;
    DecisionJudged(db, e, dropped);
    PgApprovalFiled(db, e, dropped);
  }

  /** Every call to tables whose rows are filed under their ids is answered so. */
  lemma CallAnswered(db: Pg.Db, e: Event)
    requires forall id :: id in db.questions ==> db.questions[id].data.id == id
    ensures PgAnswered(db, Pg.Step(db, e), e, Pg.Transaction(db, e).1)
  {
    hide PgAnswered, Pg.Step, Pg.Transaction;
    if e.call.Create? { PgCreateAnswered(db, e); }
    else if e.call.Mutate? { PgMutationAnswered(db, e); }
    else { PgApprovalAnswered(db, e); }
  }

  /** Each call of a serial run is answered as it promises. */
  lemma RunAnswered(events: seq<Event>, k: nat)
    requires k < |events|
    ensures PgAnswered(Pg.Run(Pg.EMPTY, events[..k]), Pg.Run(Pg.EMPTY, events[..k + 1]), events[k],
                       Pg.Transaction(Pg.Run(Pg.EMPTY, events[..k]), events[k]).1)
  {
    hide PgAnswered, Pg.Step, Pg.Transaction, Pg.Run;
    EmptyKept();
    RunKeeps(Pg.EMPTY, events[..k]);
    RowsNamed(Pg.Run(Pg.EMPTY, events[..k]));
    CallAnswered(Pg.Run(Pg.EMPTY, events[..k]), events[k]);
    assert events[..k + 1] == events[..k] + [events[k]];
    Pg.RunSnoc(Pg.EMPTY, events[..k], events[k]);
  }

  lemma RowsNamed(db: Pg.Db)
    requires Kept(db)
    ensures forall id :: id in db.questions ==> db.questions[id].data.id == id
  {
    forall id | id in db.questions ensures db.questions[id].data.id == id { assert RowKept(db, id); }
  }

  /** In every interleaving, each call that has finished returned what it promises, at its place in the finishing
      order. */
  lemma InterleavedAnswered(program: seq<Event>, hash: string -> int, db0: Pg.Db, schedule: seq<nat>, k: nat)
    requires FreshIds(program, db0) && Kept(db0) && Allowed(program, hash, db0, schedule)
    requires k < |After(program, hash, db0, schedule).order|
    ensures var s := After(program, hash, db0, schedule);
      && |s.phases| == |program| && (forall l :: 0 <= l < |s.order| ==> s.order[l] < |program|)
      && s.phases[s.order[k]].Finished?
      && var events := Ordered(program, s.order);
         && s.db == Pg.Run(db0, events)
         && PgAnswered(Pg.Run(db0, events[..k]), Pg.Run(db0, events[..k + 1]), program[s.order[k]],
                       s.phases[s.order[k]].result)
  {
    hide PgAnswered, Pg.Step, Pg.Transaction, Pg.Run, FreshIds, Kept, LocksOwned, After;
    ReachableInv(program, hash, db0, schedule);
    var s := After(program, hash, db0, schedule);
    var events := Ordered(program, s.order);
    RunKeeps(db0, events[..k]);
    RowsNamed(Pg.Run(db0, events[..k]));
    CallAnswered(Pg.Run(db0, events[..k]), events[k]);
    assert events[..k + 1] == events[..k] + [events[k]];
    Pg.RunSnoc(db0, events[..k], events[k]);
  }

  // ---------------------------------------------------------------- the in-memory store

  /** A command judged in memory: a rejection is audited or not, and a question that is not there never is. */
  ghost predicate MemJudged(m: Mem.State, after: Mem.State, e: Event, id: Guid, command: Command, audited: bool,
                            r: Result<Snapshot, Error>) {
    if id !in m.questions || m.questions[id].tenantId != e.call.tenantId then
      r == Err(Rule(NotFound)) && after.questions == m.questions && after.audit == m.audit
    else
      exists j: Result<Snapshot, Code> ::
        && Answers(m.questions[id], command, e.ticket.now, j) && Told(r, j)
        && match j
           case Ok(t) => after.questions == m.questions[id := t] && Added(m.audit, after.audit, e, Success)
           case Err(code) =>
             && after.questions == m.questions
             && if audited then Added(m.audit, after.audit, e, Rejected(code)) else after.audit == m.audit
  }

  ghost predicate MemLive(m: Mem.State, c: Call, now: int)
    requires c.Approval?
  {
    (c.tenantId, c.key) in m.idempotency && now < m.idempotency[(c.tenantId, c.key)].expiresAt
  }

  ghost predicate MemFiled(m: Mem.State, after: Mem.State, e: Event, r: Result<Snapshot, Error>)
    requires e.call.Approval?
  {
    var key := (e.call.tenantId, e.call.key);
    if r.Ok? then
      && key in after.idempotency && after.idempotency == m.idempotency[key := after.idempotency[key]]
      && after.idempotency[key].result == r.value && after.idempotency[key].expiresAt == e.ticket.now + DAY
      && forall other: Call :: other.Approval? ==>
           (FingerprintOf(other) == after.idempotency[key].fingerprint <==> SameCommand(other, e.call))
    else after.idempotency == m.idempotency - {key}
  }

  /** What a call to the in-memory store promises. */
  ghost predicate MemAnswered(m: Mem.State, after: Mem.State, e: Event, r: Result<Snapshot, Error>) {
    match e.call
    case Create(tenantId, content, actor, _) =>
      var id := e.ticket.questionId;
      && (r == Err(Argument(EmptyId)) <==> id == EMPTY_GUID)
      && (r == Err(Argument(EmptyTenant)) <==> id != EMPTY_GUID && tenantId == EMPTY_GUID)
      && (r == Err(Argument(OwnerRequired)) <==> id != EMPTY_GUID && tenantId != EMPTY_GUID && Trimmed(actor, ""))
      && (r == Err(Collision) <==>
            id != EMPTY_GUID && tenantId != EMPTY_GUID && !Trimmed(actor, "") && id in m.questions)
      && (r.Err? ==> after == m && (r.error.Argument? || r.error.Collision?))
      && (r.Ok? ==>
            && IsNewDraft(r.value, e) && after.questions == m.questions[id := r.value]
            && after.idempotency == m.idempotency && Added(m.audit, after.audit, e, Success))
    case Mutate(_, id, command, _) =>
      && MemJudged(m, after, e, id, command, command.Update? || command.Submit?, r)
      && after.idempotency == m.idempotency
    case Approval(tenantId, id, reviewer, expectedVersion, key, _) =>
      if MemLive(m, e.call, e.ticket.now) then
        && after == m
        && (r == Ok(m.idempotency[(tenantId, key)].result) || r == Err(Rule(KeyReused)))
        && (r == Err(Rule(KeyReused)) <==> m.idempotency[(tenantId, key)].fingerprint != FingerprintOf(e.call))
      else
        && MemJudged(m, after, e, id, Approve(reviewer, expectedVersion), true, r)
        && MemFiled(m, after, e, r)
  }

  lemma MemCreateAnswered(m: Mem.State, e: Event)
    requires e.call.Create?
    ensures MemAnswered(m, Mem.Step(m, e).0, e, Mem.Step(m, e).1)
  {
    hide Trimmed, IsBlank, Added, Audited;
    BlankIsTrimmedAway(e.call.actor);
    OneAdded(m.audit, e, Success);
  }

  lemma MemMutationAnswered(m: Mem.State, e: Event)
    requires e.call.Mutate?
    ensures MemAnswered(m, Mem.Step(m, e).0, e, Mem.Step(m, e).1)
  {
    hide Answers, Added, Audited, Execute;
    if Mem.Visible(m, e.call.tenantId, e.call.id) {
      var j := Execute(m.questions[e.call.id], e.call.command, e.ticket.now);
      ExecuteAnswers(m.questions[e.call.id], e.call.command, e.ticket.now);
      match j
      case Ok(_) => OneAdded(m.audit, e, Success);
      case Err(code) => OneAdded(m.audit, e, Rejected(code));
    }
  }

  lemma MemFirstJudged(m: Mem.State, e: Event, kept: Mem.State)
    requires e.call.Approval? && kept.questions == m.questions && kept.audit == m.audit
    ensures var (after, r) := Mem.ApproveFirst(kept, e);
      MemJudged(m, after, e, e.call.id, Approve(e.call.reviewer, e.call.expectedVersion), true, r)
  {
    hide Answers, Added, Audited, Execute, FingerprintOf;
    var command := Approve(e.call.reviewer, e.call.expectedVersion);
    if Mem.Visible(m, e.call.tenantId, e.call.id) {
      var j := Execute(m.questions[e.call.id], command, e.ticket.now);
      ExecuteAnswers(m.questions[e.call.id], command, e.ticket.now);
      match j
      case Ok(_) => OneAdded(m.audit, e, Success);
      case Err(code) => OneAdded(m.audit, e, Rejected(code));
    }
  }

  lemma MemFirstFiled(m: Mem.State, e: Event)
    requires e.call.Approval?
    ensures var kept := m.(idempotency := m.idempotency - {(e.call.tenantId, e.call.key)});
      var (after, r) := Mem.ApproveFirst(kept, e); MemFiled(m, after, e, r)
  {
    hide FingerprintOf, Execute, Audited;
    forall other: Call | other.Approval?
      ensures FingerprintOf(other) == FingerprintOf(e.call) <==> SameCommand(other, e.call)
    {
      FingerprintNames(other, e.call);
    }
  }

  lemma MemApprovalAnswered(m: Mem.State, e: Event)
    requires e.call.Approval?
    ensures MemAnswered(m, Mem.Step(m, e).0, e, Mem.Step(m, e).1)
  {
    hide MemJudged, MemFiled, FingerprintOf, Mem.ApproveFirst;
    MemFirstJudged(m, e, m.(idempotency := m.idempotency - {(e.call.tenantId, e.call.key)}));
    MemFirstFiled(m, e);
  }

  /** Every call to the in-memory store is answered so. */
  lemma MemoryCallAnswered(m: Mem.State, e: Event)
    ensures MemAnswered(m, Mem.Step(m, e).0, e, Mem.Step(m, e).1)
  {
    hide MemAnswered, Mem.Step;
    if e.call.Create? { MemCreateAnswered(m, e); }
    else if e.call.Mutate? { MemMutationAnswered(m, e); }
    else { MemApprovalAnswered(m, e); }
  }

  // ---------------------------------------------------------------- approvals over whole runs

  /** A published question was approved at the version its reviewer named: over every interleaving, a first-use approval
      that returned a question found it in review at that version, and returned it published at the next, unchanged in
      title, body and tags. */
  lemma ApprovedAsReviewed(program: seq<Event>, hash: string -> int, db0: Pg.Db, schedule: seq<nat>, k: nat)
    requires FreshIds(program, db0) && Kept(db0) && Allowed(program, hash, db0, schedule)
    requires k < |After(program, hash, db0, schedule).order|
    requires forall l :: 0 <= l < |After(program, hash, db0, schedule).order| ==>
      After(program, hash, db0, schedule).order[l] < |program|
    requires var s := After(program, hash, db0, schedule); var e := program[s.order[k]];
      var before := Pg.Run(db0, Ordered(program, s.order)[..k]);
      && |s.phases| == |program| && s.phases[s.order[k]].Finished? && s.phases[s.order[k]].result.Ok?
      && e.call.Approval? && !PgLive(before, e.call, e.ticket.now)
    ensures var s := After(program, hash, db0, schedule); var e := program[s.order[k]];
      var before := Pg.Run(db0, Ordered(program, s.order)[..k]);
      && e.call.id in before.questions
      && var was, t := before.questions[e.call.id].data, s.phases[s.order[k]].result.value;
         && was.status == InReview && was.version == e.call.expectedVersion && was.owner != e.call.reviewer
         && t.status == Published && t.version == e.call.expectedVersion + 1
         && t.approvedVersion == Some(e.call.expectedVersion) && t.approvedBy == Some(e.call.reviewer)
         && (t.title, t.body, t.tags) == (was.title, was.body, was.tags)
  {
    hide PgFiled, Added, Pg.Run, FreshIds, Kept, Allowed, After, Trimmed;
    InterleavedAnswered(program, hash, db0, schedule, k);
  }
}
