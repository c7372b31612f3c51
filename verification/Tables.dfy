/** The four tables of the PostgreSQL store and what each call does to them when it
    runs alone: the functions are the specification, the class performs the SQL
    statements one by one. */
module Tables {
  import opened Base
  import opened Text
  import opened Domain
  import opened Store

  datatype QuestionRow = QuestionRow(data: Snapshot, publishedRevision: Option<Guid>)

  /** A revision row: its own id and the columns copied from the question it records. */
  datatype RevisionRow = RevisionRow(id: Guid, data: Snapshot)

  datatype KeyRow = KeyRow(
    actor: string, expectedVersion: int, fingerprint: string, response: Snapshot, createdAt: int, expiresAt: int)

  datatype Db = Db(
    questions: map<Guid, QuestionRow>, revisions: seq<RevisionRow>, keys: map<Key, KeyRow>, audit: seq<AuditRow>)

  const EMPTY := Db(map[], [], map[], [])

  /** The rows one transaction writes, kept private until it commits. */
  datatype Delta = Delta(
    dropKey: bool, question: Option<QuestionRow>, revision: Option<RevisionRow>, audit: Option<AuditRow>,
    key: Option<KeyRow>)

  const NOTHING := Delta(false, None, None, None, None)

  // ------------------------------------------------------ what statements read

  function RowOf(db: Db, tenantId: Guid, id: Guid): Option<QuestionRow> {
    if id in db.questions && db.questions[id].data.tenantId == tenantId then Some(db.questions[id]) else None
  }

  /** The row a call addresses, as SELECT ... FOR UPDATE returns it. */
  function TargetRow(db: Db, c: Call): Option<QuestionRow>
    requires !c.Create?
  {
    RowOf(db, c.tenantId, c.id)
  }

  function KeyRowOf(db: Db, key: Key): Option<KeyRow> {
    if key in db.keys then Some(db.keys[key]) else None
  }

  function Expired(row: Option<KeyRow>, now: int): bool {
    row.Some? && row.value.expiresAt <= now
  }

  /** The first revision of a question recorded at the given version. */
  function Lookup(revisions: seq<RevisionRow>, tenantId: Guid, id: Guid, version: int): Option<Guid> {
    if revisions == [] then None
    else
      var before := Lookup(revisions[..|revisions| - 1], tenantId, id, version);
      var last := revisions[|revisions| - 1];
      if before.Some? then before
      else if last.data.tenantId == tenantId && last.data.id == id && last.data.version == version then Some(last.id)
      else None
  }

  /** The CASE expression of UPDATE questions. */
  function Pointer(revisions: seq<RevisionRow>, s: Snapshot): Option<Guid> {
    if s.approvedVersion.None? then None else Lookup(revisions, s.tenantId, s.id, s.approvedVersion.value)
  }

  // ------------------------------------------------- what a transaction writes

  function Judge(row: Option<QuestionRow>, c: Call, now: int): Result<Snapshot, Code>
    requires !c.Create?
  {
    match row
    case None => Err(NotFound)
    case Some(q) => Execute(q.data, CommandOf(c), now)
  }

  function KeyRowFor(e: Event, s: Snapshot): Option<KeyRow> {
    if e.call.Approval? then
      Some(KeyRow(e.call.reviewer, e.call.expectedVersion, FingerprintOf(e.call), s, e.ticket.now,
                  e.ticket.now + RETENTION))
    else None
  }

  /** The rows written once the command was accepted. */
  function Accepted(e: Event, dropKey: bool, row: QuestionRow): Delta {
    Delta(dropKey, Some(row), Some(RevisionRow(e.ticket.revisionId, row.data)), Some(Audited(e, Success)),
      KeyRowFor(e, row.data))
  }

  /** The rows written once the command was rejected. */
  function Refused(e: Event, dropKey: bool, code: Code): Delta {
    NOTHING.(dropKey := dropKey, audit := Some(Audited(e, Rejected(code))))
  }

  function Decision(db: Db, e: Event, dropKey: bool): (Delta, Result<Snapshot, Error>)
    requires !e.call.Create?
  {
    match Judge(TargetRow(db, e.call), e.call, e.ticket.now)
    case Err(code) => (Refused(e, dropKey, code), Err(Rule(code)))
    case Ok(s) => (Accepted(e, dropKey, QuestionRow(s, Pointer(db.revisions, s))), Ok(s))
  }

  function CreateOutcome(db: Db, e: Event): (Delta, Result<Snapshot, Error>)
    requires e.call.Create?
  {
    var c, t := e.call, e.ticket;
    match CreationError(t.questionId, c.tenantId, c.actor)
    case Some(error) => (NOTHING, Err(Argument(error)))
    case None =>
      if t.questionId in db.questions then (NOTHING, Err(Collision))
      else
        var s := Created(t.questionId, c.tenantId, c.content.title, c.content.body, c.content.tags, c.actor, t.now);
        (Accepted(e, false, QuestionRow(s, None)), Ok(s))
  }

  /** Every transaction on an existing question first sets its tenant, which must not be empty. */
  function Transaction(db: Db, e: Event): (Delta, Result<Snapshot, Error>) {
    if e.call.Create? then CreateOutcome(db, e)
    else if e.call.tenantId == EMPTY_GUID then (NOTHING, Err(Argument(EmptyTenant)))
    else if e.call.Mutate? then Decision(db, e, false)
    else
      var row := KeyRowOf(db, KeyOf(e.call));
      var expired := Expired(row, e.ticket.now);
      if row.Some? && !expired then
        (NOTHING, if row.value.fingerprint != FingerprintOf(e.call) then Err(Rule(KeyReused))
          else Ok(row.value.response))
      else Decision(db, e, expired)
  }

  function Append<T>(xs: seq<T>, x: Option<T>): seq<T> {
    if x.Some? then xs + [x.value] else xs
  }

  /** Commit: the private rows become visible. */
  function Committed(db: Db, e: Event, d: Delta): Db {
    Db(if d.question.Some? then db.questions[d.question.value.data.id := d.question.value] else db.questions,
       Append(db.revisions, d.revision),
       (var kept := if d.dropKey && e.call.Approval? then db.keys - {KeyOf(e.call)} else db.keys;
        if d.key.Some? && e.call.Approval? then kept[KeyOf(e.call) := d.key.value] else kept),
       Append(db.audit, d.audit))
  }

  function Step(db: Db, e: Event): Db {
    Committed(db, e, Transaction(db, e).0)
  }

  /** The tables after calls that ran one at a time. */
  function Run(db: Db, events: seq<Event>): Db
    decreases |events|
  {
    if events == [] then db else Step(Run(db, events[..|events| - 1]), events[|events| - 1])
  }

  lemma RunSnoc(db: Db, events: seq<Event>, e: Event)
    ensures Run(db, events + [e]) == Step(Run(db, events), e)
  {
    assert (events + [e])[..|events|] == events;
  }

  /** The store run by one caller: each statement of a transaction edits the tables. */
  class PostgreSqlQuestionStore {
    var questions: map<Guid, QuestionRow>
    var revisions: seq<RevisionRow>
    var keys: map<Key, KeyRow>
    var audit: seq<AuditRow>

    function Tables(): Db
      reads this
    {
      Db(questions, revisions, keys, audit)
    }

    constructor ()
      ensures Tables() == EMPTY
    {
      questions, revisions, keys, audit := map[], [], map[], [];
    }

    method CreateAsync(tenantId: Guid, content: Content, actor: string, correlation: string, t: Ticket)
      returns (r: Result<Snapshot, Error>)
      modifies this
      ensures var e := Event(Call.Create(tenantId, content, actor, correlation), t);
              Tables() == Step(old(Tables()), e) && r == Transaction(old(Tables()), e).1
    {
      ghost var e := Event(Call.Create(tenantId, content, actor, correlation), t);
      var error := CreationError(t.questionId, tenantId, actor);
      if error.Some? { return Err(Argument(error.value)); }
      var snapshot := Created(t.questionId, tenantId, content.title, content.body, content.tags, actor, t.now);
      if snapshot.id in questions { return Err(Collision); }
      InsertQuestion(snapshot);
      InsertRevision(t.revisionId, snapshot);
      InsertAudit(AuditRow(t.auditId, tenantId, actor, snapshot.id, CreateAction, Success, correlation, t.now));
      return Ok(snapshot);
    }

    method MutateAsync(tenantId: Guid, id: Guid, command: Mutation, correlation: string, t: Ticket)
      returns (r: Result<Snapshot, Error>)
      modifies this
      ensures var e := Event(Mutate(tenantId, id, command, correlation), t);
              Tables() == Step(old(Tables()), e) && r == Transaction(old(Tables()), e).1
    {
      if tenantId == EMPTY_GUID { return Err(Argument(EmptyTenant)); }
      r := Transact(Event(Mutate(tenantId, id, command, correlation), t), false);
    }

    method ApproveAsync(tenantId: Guid, id: Guid, reviewer: string, expectedVersion: int, key: string,
                        correlation: string, t: Ticket)
      returns (r: Result<Snapshot, Error>)
      modifies this
      ensures var e := Event(Approval(tenantId, id, reviewer, expectedVersion, key, correlation), t);
              Tables() == Step(old(Tables()), e) && r == Transaction(old(Tables()), e).1
    {
      hide Fingerprint;
      if tenantId == EMPTY_GUID { return Err(Argument(EmptyTenant)); }
      var fingerprint := Fingerprint(tenantId, id, reviewer, expectedVersion);
      var scoped := (tenantId, key);
      var dropped := DeleteExpiredIdempotency(scoped, t.now);
      if scoped in keys {
        if keys[scoped].fingerprint != fingerprint { return Err(Rule(KeyReused)); }
        return Ok(keys[scoped].response);
      }
      r := Transact(Event(Approval(tenantId, id, reviewer, expectedVersion, key, correlation), t), dropped);
    }

    /** Load the row, run the command, and write either the accepted rows or the refusal. */
    method Transact(e: Event, ghost dropped: bool) returns (r: Result<Snapshot, Error>)
      requires !e.call.Create?
      requires e.call.Approval? ==> KeyOf(e.call) !in keys
      modifies this
      ensures Tables() == Committed(old(Tables()), e, Decision(old(Tables()), e, dropped).0)
      ensures r == Decision(old(Tables()), e, dropped).1
    {
      hide Rejection, Changed, Fingerprint;
      var row := if e.call.id in questions && questions[e.call.id].data.tenantId == e.call.tenantId
                 then Some(questions[e.call.id]) else None;
      match Judge(row, e.call, e.ticket.now)
      case Err(code) =>
        InsertAudit(Audited(e, Rejected(code)));
        assert e.call.Approval? ==> keys == keys - {KeyOf(e.call)};
        return Err(Rule(code));
      case Ok(result) =>
        UpdateQuestion(result);
        InsertRevision(e.ticket.revisionId, result);
        InsertAudit(Audited(e, Success));
        assert e.call.Approval? ==> keys == keys - {KeyOf(e.call)};
        if e.call.Approval? {
          InsertIdempotency(KeyOf(e.call),
            KeyRow(e.call.reviewer, e.call.expectedVersion, FingerprintOf(e.call), result, e.ticket.now,
                   e.ticket.now + RETENTION));
        }
        return Ok(result);
    }

    method InsertQuestion(s: Snapshot)
      requires s.id !in questions
      modifies this`questions
      ensures questions == old(questions)[s.id := QuestionRow(s, None)]
    {
      questions := questions[s.id := QuestionRow(s, None)];
    }

    /** UPDATE questions, whose published_revision_id is read from the revisions committed so far. */
    method UpdateQuestion(s: Snapshot)
      modifies this`questions
      ensures questions == old(questions)[s.id := QuestionRow(s, Pointer(revisions, s))]
    {
      var published := None;
      if s.approvedVersion.Some? {
        published := FindRevision(s.tenantId, s.id, s.approvedVersion.value);
      }
      questions := questions[s.id := QuestionRow(s, published)];
    }

    /** The subquery of UPDATE questions: a scan for the revision at a version. */
    method FindRevision(tenantId: Guid, id: Guid, version: int) returns (r: Option<Guid>)
      ensures r == Lookup(revisions, tenantId, id, version)
    {
      r := None;
      var i := 0;
      while i < |revisions|
        invariant 0 <= i <= |revisions|
        invariant r == Lookup(revisions[..i], tenantId, id, version)
      {
        assert revisions[..i + 1][..i] == revisions[..i];
        var row := revisions[i].data;
        if r.None? && row.tenantId == tenantId && row.id == id && row.version == version {
          r := Some(revisions[i].id);
        }
        i := i + 1;
      }
      assert revisions[..|revisions|] == revisions;
    }

    method InsertRevision(revisionId: Guid, s: Snapshot)
      modifies this`revisions
      ensures revisions == old(revisions) + [RevisionRow(revisionId, s)]
    {
      revisions := revisions + [RevisionRow(revisionId, s)];
    }

    method InsertAudit(row: AuditRow)
      modifies this`audit
      ensures audit == old(audit) + [row]
    {
      audit := audit + [row];
    }

    method InsertIdempotency(key: Key, row: KeyRow)
      requires key !in keys
      modifies this`keys
      ensures keys == old(keys)[key := row]
    {
      keys := keys[key := row];
    }

    method DeleteExpiredIdempotency(key: Key, now: int) returns (ghost dropped: bool)
      modifies this`keys
      ensures dropped == Expired(KeyRowOf(old(Tables()), key), now)
      ensures keys == if dropped then old(keys) - {key} else old(keys)
    {
      dropped := key in keys && keys[key].expiresAt <= now;
      if key in keys && keys[key].expiresAt <= now {
        keys := keys - {key};
      }
    }
  }
}
