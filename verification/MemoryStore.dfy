/** InMemoryQuestionStore: one lock around a dictionary of aggregates, an idempotency
    dictionary and an audit list. */
module MemoryStore {
  import opened Base
  import opened Text
  import opened Domain
  import opened Store

  datatype Entry = Entry(fingerprint: string, result: Snapshot, expiresAt: int)

  datatype State = State(questions: map<Guid, Snapshot>, idempotency: map<Key, Entry>, audit: seq<AuditRow>)

  const EMPTY := State(map[], map[], [])

  predicate Visible(m: State, tenantId: Guid, id: Guid) {
    id in m.questions && m.questions[id].tenantId == tenantId
  }

  function CreateStep(m: State, e: Event): (State, Result<Snapshot, Error>)
    requires e.call.Create?
  {
    var c, t := e.call, e.ticket;
    match CreationError(t.questionId, c.tenantId, c.actor)
    case Some(error) => (m, Err(Argument(error)))
    case None =>
      if t.questionId in m.questions then (m, Err(Collision))
      else
        var s := Created(t.questionId, c.tenantId, c.content.title, c.content.body, c.content.tags, c.actor, t.now);
        (m.(questions := m.questions[s.id := s], audit := m.audit + [Audited(e, Success)]), Ok(s))
  }

  /** Return and withdraw leave no rejected audit row; update and submit do. */
  function MutateStep(m: State, e: Event): (State, Result<Snapshot, Error>)
    requires e.call.Mutate?
  {
    var c, t := e.call, e.ticket;
    if !Visible(m, c.tenantId, c.id) then (m, Err(Rule(NotFound)))
    else
      match Execute(m.questions[c.id], c.command, t.now)
      case Ok(s) => (m.(questions := m.questions[c.id := s], audit := m.audit + [Audited(e, Success)]), Ok(s))
      case Err(code) =>
        (if c.command.Update? || c.command.Submit? then m.(audit := m.audit + [Audited(e, Rejected(code))]) else m,
         Err(Rule(code)))
  }

  /** Approval under a key that is not, or no longer, remembered. */
  function ApproveFirst(m: State, e: Event): (State, Result<Snapshot, Error>)
    requires e.call.Approval?
  {
    var c, t := e.call, e.ticket;
    if !Visible(m, c.tenantId, c.id) then (m, Err(Rule(NotFound)))
    else
      match Execute(m.questions[c.id], CommandOf(c), t.now)
      case Ok(s) =>
        (State(m.questions[c.id := s],
               m.idempotency[KeyOf(c) := Entry(FingerprintOf(c), s, t.now + RETENTION)],
               m.audit + [Audited(e, Success)]), Ok(s))
      case Err(code) => (m.(audit := m.audit + [Audited(e, Rejected(code))]), Err(Rule(code)))
  }

  function ApproveStep(m: State, e: Event): (State, Result<Snapshot, Error>)
    requires e.call.Approval?
  {
    var key := KeyOf(e.call);
    if key in m.idempotency && m.idempotency[key].expiresAt > e.ticket.now then
      if m.idempotency[key].fingerprint != FingerprintOf(e.call) then (m, Err(Rule(KeyReused)))
      else (m, Ok(m.idempotency[key].result))
    else
      ApproveFirst(m.(idempotency := m.idempotency - {key}), e)
  }

  function Step(m: State, e: Event): (State, Result<Snapshot, Error>) {
    match e.call
    case Create(_, _, _, _) => CreateStep(m, e)
    case Mutate(_, _, _, _) => MutateStep(m, e)
    case Approval(_, _, _, _, _, _) => ApproveStep(m, e)
  }

  /** The state after a sequence of calls. */
  function Run(m: State, events: seq<Event>): State
    decreases |events|
  {
    if events == [] then m else Step(Run(m, events[..|events| - 1]), events[|events| - 1]).0
  }

  class InMemoryQuestionStore {
    var questions: map<Guid, Question>
    var idempotency: map<Key, Entry>
    var audit: seq<AuditRow>
    ghost var filed: map<Guid, Snapshot>  // the snapshots of the aggregates

    /** Every aggregate is filed under its own id and belongs to a tenant. */
    ghost predicate Valid()
      reads `questions, `filed, questions.Values
    {
      && filed.Keys == questions.Keys
      && forall k :: k in questions ==>
        questions[k].id == k && questions[k].tenantId != EMPTY_GUID && questions[k].ToSnapshot() == filed[k]
    }

    /** The same with the entry for one id not yet brought up to date. */
    ghost predicate ValidBut(id: Guid)
      reads `questions, `filed, questions.Values
    {
      && filed.Keys == questions.Keys
      && forall k :: k in questions ==>
        && questions[k].id == k && questions[k].tenantId != EMPTY_GUID
        && (k != id ==> questions[k].ToSnapshot() == filed[k])
    }

    twostate lemma OneChanged(id: Guid)
      requires old(Valid()) && unchanged(`questions, `filed) && id in questions
      requires forall o :: o in questions.Values && o != questions[id] ==> unchanged(o)
      ensures ValidBut(id)
    {
      hide Question.ToSnapshot;
      forall k | k in questions && k != id ensures questions[k].ToSnapshot() == filed[k] {
        assert questions[k] in questions.Values && questions[k] != questions[id];
      }
    }

    ghost method Refile(id: Guid)
      requires ValidBut(id) && id in questions
      modifies `filed
      ensures Valid() && filed == old(filed)[id := questions[id].ToSnapshot()]
    {
      hide Question.ToSnapshot;
      filed := filed[id := questions[id].ToSnapshot()];
    }

    ghost function Contents(): State
      reads this
    {
      State(filed, idempotency, audit)
    }

    constructor ()
      ensures Valid() && Contents() == EMPTY
    {
      questions, idempotency, audit, filed := map[], map[], [], map[];
    }

    method Create(tenantId: Guid, content: Content, actor: string, correlation: string, t: Ticket)
      returns (r: Result<Snapshot, Error>)
      requires Valid()
      modifies this
      ensures Valid() && fresh(questions.Values - old(questions.Values))
      ensures Contents() == CreateStep(old(Contents()), Event(Call.Create(tenantId, content, actor, correlation), t)).0
      ensures r == CreateStep(old(Contents()), Event(Call.Create(tenantId, content, actor, correlation), t)).1
    {
      var e := CreationError(t.questionId, tenantId, actor);
      if e.Some? { return Err(Argument(e.value)); }
      if t.questionId in questions { return Err(Collision); }
      var question := new Question(t.questionId, tenantId, content.title, content.body, content.tags, actor, t.now);
      questions := questions[question.id := question];
      filed := filed[question.id := question.ToSnapshot()];
      AddAudit(tenantId, actor, question.id, CreateAction, Success, correlation, t);
      return Ok(question.ToSnapshot());
    }

    method GetRequired(tenantId: Guid, id: Guid) returns (q: Question?)
      requires Valid()
      ensures q != null <==> Visible(Contents(), tenantId, id)
      ensures q != null ==> id in questions && q == questions[id] && q.ToSnapshot() == filed[id]
    {
      if id in questions && questions[id].tenantId == tenantId {
        q := questions[id];
      } else {
        q := null;
      }
    }

    method Update(tenantId: Guid, id: Guid, content: Content, expectedVersion: int, actor: string, correlation: string,
                  t: Ticket)
      returns (r: Result<Snapshot, Error>)
      requires Valid()
      modifies this, questions.Values
      ensures Valid() && questions == old(questions)
      ensures Contents() == MutateStep(old(Contents()),
        Event(Mutate(tenantId, id, Command.Update(content.title, content.body, content.tags, expectedVersion, actor),
          correlation), t)).0
      ensures r == MutateStep(old(Contents()),
        Event(Mutate(tenantId, id, Command.Update(content.title, content.body, content.tags, expectedVersion, actor),
          correlation), t)).1
    {
      hide Question.ToSnapshot, Execute, Valid, ValidBut;
      var question := GetRequired(tenantId, id);
      if question == null { return Err(Rule(NotFound)); }
      var outcome := question.Update(content.title, content.body, content.tags, expectedVersion, actor, t.now);
      OneChanged(id);
      Refile(id);
      match outcome
      case Pass =>
        AddAudit(tenantId, actor, id, UpdateAction, Success, correlation, t);
        return Ok(question.ToSnapshot());
      case Fail(code) =>
        AddAudit(tenantId, actor, id, UpdateAction, Rejected(code), correlation, t);
        return Err(Rule(code));
    }

    method Submit(tenantId: Guid, id: Guid, actor: string, correlation: string, t: Ticket)
      returns (r: Result<Snapshot, Error>)
      requires Valid()
      modifies this, questions.Values
      ensures Valid() && questions == old(questions)
      ensures Contents() == MutateStep(old(Contents()),
        Event(Mutate(tenantId, id, Command.Submit(actor), correlation), t)).0
      ensures r == MutateStep(old(Contents()), Event(Mutate(tenantId, id, Command.Submit(actor), correlation), t)).1
    {
      hide Question.ToSnapshot, Execute, Valid, ValidBut;
      var question := GetRequired(tenantId, id);
      if question == null { return Err(Rule(NotFound)); }
      var outcome := question.Submit(actor, t.now);
      OneChanged(id);
      Refile(id);
      match outcome
      case Pass =>
        AddAudit(tenantId, actor, id, SubmitAction, Success, correlation, t);
        return Ok(question.ToSnapshot());
      case Fail(code) =>
        AddAudit(tenantId, actor, id, SubmitAction, Rejected(code), correlation, t);
        return Err(Rule(code));
    }

    method ReturnForChanges(tenantId: Guid, id: Guid, reviewer: string, reason: string, correlation: string, t: Ticket)
      returns (r: Result<Snapshot, Error>)
      requires Valid()
      modifies this, questions.Values
      ensures Valid() && questions == old(questions)
      ensures Contents() == MutateStep(old(Contents()),
        Event(Mutate(tenantId, id, Command.Return(reviewer, reason), correlation), t)).0
      ensures r == MutateStep(old(Contents()),
        Event(Mutate(tenantId, id, Command.Return(reviewer, reason), correlation), t)).1
    {
      hide Question.ToSnapshot, Execute, Valid, ValidBut;
      var question := GetRequired(tenantId, id);
      if question == null { return Err(Rule(NotFound)); }
      var outcome := question.ReturnForChanges(reviewer, reason, t.now);
      OneChanged(id);
      Refile(id);
      if outcome.Fail? { return Err(Rule(outcome.error)); }
      AddAudit(tenantId, reviewer, id, ReturnAction, Success, correlation, t);
      return Ok(question.ToSnapshot());
    }

    /** Answers a call whose key is still remembered; forgets the key once it has expired. */
    method Replay(scopedKey: Key, fingerprint: string, now: int) returns (r: Option<Result<Snapshot, Error>>)
      modifies this`idempotency
      ensures r.Some? <==> scopedKey in old(idempotency) && old(idempotency)[scopedKey].expiresAt > now
      ensures r.Some? ==>
        && idempotency == old(idempotency)
        && r.value == if old(idempotency)[scopedKey].fingerprint == fingerprint
                      then Ok(old(idempotency)[scopedKey].result) else Err(Rule(KeyReused))
      ensures r.None? ==> idempotency == old(idempotency) - {scopedKey}
    {
      if scopedKey in idempotency {
        var existing := idempotency[scopedKey];
        if existing.expiresAt <= now {
          idempotency := idempotency - {scopedKey};
        } else {
          if existing.fingerprint != fingerprint { return Some(Err(Rule(KeyReused))); }
          return Some(Ok(existing.result));
        }
      }
      assert idempotency == old(idempotency) - {scopedKey};
      return None;
    }

    method Approve(tenantId: Guid, id: Guid, reviewer: string, expectedVersion: int, key: string, correlation: string,
                   t: Ticket)
      returns (r: Result<Snapshot, Error>)
      requires Valid()
      modifies this, questions.Values
      ensures Valid() && questions == old(questions)
      ensures Contents() == ApproveStep(old(Contents()),
        Event(Approval(tenantId, id, reviewer, expectedVersion, key, correlation), t)).0
      ensures r == ApproveStep(old(Contents()),
        Event(Approval(tenantId, id, reviewer, expectedVersion, key, correlation), t)).1
    {
      var fingerprint := Fingerprint(tenantId, id, reviewer, expectedVersion);
      var replay := Replay((tenantId, key), fingerprint, t.now);
      if replay.Some? {
        r := replay.value;
      } else {
        r := Decide(Approval(tenantId, id, reviewer, expectedVersion, key, correlation), fingerprint, t);
      }
    }

    /** The part of Approve below the idempotency lookup. */
    method Decide(c: Call, fingerprint: string, t: Ticket) returns (r: Result<Snapshot, Error>)
      requires Valid() && c.Approval? && fingerprint == FingerprintOf(c)
      modifies this, questions.Values
      ensures Valid() && questions == old(questions)
      ensures Contents() == ApproveFirst(old(Contents()), Event(c, t)).0
      ensures r == ApproveFirst(old(Contents()), Event(c, t)).1
    {
      hide Question.ToSnapshot, Execute, FingerprintOf, Valid, ValidBut;
      var question := GetRequired(c.tenantId, c.id);
      if question == null { return Err(Rule(NotFound)); }
      var outcome := question.Approve(c.reviewer, c.expectedVersion, t.now);
      OneChanged(c.id);
      Refile(c.id);
      match outcome
      case Pass =>
        var result := question.ToSnapshot();
        idempotency := idempotency[(c.tenantId, c.key) := Entry(fingerprint, result, t.now + RETENTION)];
        AddAudit(c.tenantId, c.reviewer, c.id, ApproveAction, Success, c.correlation, t);
        return Ok(result);
      case Fail(code) =>
        AddAudit(c.tenantId, c.reviewer, c.id, ApproveAction, Rejected(code), c.correlation, t);
        return Err(Rule(code));
    }

    method Withdraw(tenantId: Guid, id: Guid, actor: string, reason: string, correlation: string, t: Ticket)
      returns (r: Result<Snapshot, Error>)
      requires Valid()
      modifies this, questions.Values
      ensures Valid() && questions == old(questions)
      ensures Contents() == MutateStep(old(Contents()),
        Event(Mutate(tenantId, id, Command.Withdraw(actor, reason), correlation), t)).0
      ensures r == MutateStep(old(Contents()),
        Event(Mutate(tenantId, id, Command.Withdraw(actor, reason), correlation), t)).1
    {
      hide Question.ToSnapshot, Execute, Valid, ValidBut;
      var question := GetRequired(tenantId, id);
      if question == null { return Err(Rule(NotFound)); }
      var outcome := question.Withdraw(actor, reason, t.now);
      OneChanged(id);
      Refile(id);
      if outcome.Fail? { return Err(Rule(outcome.error)); }
      AddAudit(tenantId, actor, id, WithdrawAction, Success, correlation, t);
      return Ok(question.ToSnapshot());
    }

    method AddAudit(tenantId: Guid, actor: string, targetId: Guid, action: Action, verdict: Verdict,
                    correlation: string, t: Ticket)
      modifies this`audit
      ensures audit == old(audit)
        + [AuditRow(t.auditId, tenantId, actor, targetId, action, verdict, correlation, t.now)]
    {
      audit := audit + [AuditRow(t.auditId, tenantId, actor, targetId, action, verdict, correlation, t.now)];
    }
  }
}
