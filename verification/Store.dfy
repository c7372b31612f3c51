/** The vocabulary both question stores share: calls, tickets, audit rows and results. */
module Store {
  import opened Text
  import opened Domain

  datatype Content = Content(title: string, body: string, tags: seq<string>)

  /** The commands that reach a stored question other than by approval. */
  type Mutation = c: Command | !c.Approve? witness Submit("")

  datatype Call =
    | Create(tenantId: Guid, content: Content, actor: string, correlation: string)
    | Mutate(tenantId: Guid, id: Guid, command: Mutation, correlation: string)
    | Approval(tenantId: Guid, id: Guid, reviewer: string, expectedVersion: int, key: string, correlation: string)

  /** The clock reading and the fresh identifiers one call consumes. */
  datatype Ticket = Ticket(now: int, questionId: Guid, revisionId: Guid, auditId: Guid)

  datatype Event = Event(call: Call, ticket: Ticket)

  datatype Action = CreateAction | UpdateAction | SubmitAction | ReturnAction | ApproveAction | WithdrawAction

  datatype Verdict = Success | Rejected(code: Code)

  datatype AuditRow = AuditRow(
    id: Guid, tenantId: Guid, actor: string, targetId: Guid, action: Action, verdict: Verdict,
    correlation: string, occurredAt: int)

  datatype Error = Rule(code: Code) | Argument(error: ArgumentError) | Collision

  /** Idempotency keys are scoped by tenant. */
  type Key = (Guid, string)

  /** Twenty-four hours. */
  const RETENTION: int := 86_400_000_000

  function ActionOf(c: Command): Action {
    match c
    case Update(_, _, _, _, _) => UpdateAction
    case Submit(_) => SubmitAction
    case Return(_, _) => ReturnAction
    case Approve(_, _) => ApproveAction
    case Withdraw(_, _) => WithdrawAction
  }

  /** The question a call addresses. */
  function Target(e: Event): Guid {
    match e.call
    case Create(_, _, _, _) => e.ticket.questionId
    case Mutate(_, id, _, _) => id
    case Approval(_, id, _, _, _, _) => id
  }

  /** The domain command behind a call on an existing question. */
  function CommandOf(c: Call): Command
    requires !c.Create?
  {
    match c
    case Mutate(_, _, command, _) => command
    case Approval(_, _, reviewer, expectedVersion, _, _) => Approve(reviewer, expectedVersion)
  }

  function Audited(e: Event, verdict: Verdict): AuditRow {
    var t := e.ticket;
    match e.call
    case Create(tenantId, _, actor, correlation) =>
      AuditRow(t.auditId, tenantId, actor, t.questionId, CreateAction, verdict, correlation, t.now)
    case Mutate(tenantId, id, command, correlation) =>
      AuditRow(t.auditId, tenantId, command.actor, id, ActionOf(command), verdict, correlation, t.now)
    case Approval(tenantId, id, reviewer, _, _, correlation) =>
      AuditRow(t.auditId, tenantId, reviewer, id, ApproveAction, verdict, correlation, t.now)
  }

  function KeyOf(c: Call): Key
    requires c.Approval?
  {
    (c.tenantId, c.key)
  }

  function FingerprintOf(c: Call): string
    requires c.Approval?
  {
    Fingerprint(c.tenantId, c.id, c.reviewer, c.expectedVersion)
  }

  /** The success rows of an audit trail, oldest first. */
  ghost function SuccessRows(audit: seq<AuditRow>): seq<AuditRow> {
    if audit == [] then []
    else
      var last := audit[|audit| - 1];
      SuccessRows(audit[..|audit| - 1]) + if last.verdict == Success then [last] else []
  }

  lemma {:induction false} SuccessRowsSnoc(audit: seq<AuditRow>, row: AuditRow)
    ensures SuccessRows(audit + [row]) == SuccessRows(audit) + if row.verdict == Success then [row] else []
  {
    assert (audit + [row])[..|audit|] == audit;
  }

  /** The number of success rows about a question. */
  ghost function SuccessCount(audit: seq<AuditRow>, id: Guid): nat {
    if audit == [] then 0
    else
      var last := audit[|audit| - 1];
      SuccessCount(audit[..|audit| - 1], id) + if last.verdict == Success && last.targetId == id then 1 else 0
  }

  /** The number of those rows that record an approval. */
  ghost function ApprovalCount(audit: seq<AuditRow>, id: Guid): nat {
    if audit == [] then 0
    else
      var last := audit[|audit| - 1];
      ApprovalCount(audit[..|audit| - 1], id)
      + if last.verdict == Success && last.targetId == id && last.action == ApproveAction then 1 else 0
  }

  lemma {:induction false} CountsSnoc(audit: seq<AuditRow>, row: AuditRow, id: Guid)
    ensures SuccessCount(audit + [row], id)
         == SuccessCount(audit, id) + if row.verdict == Success && row.targetId == id then 1 else 0
    ensures ApprovalCount(audit + [row], id)
         == ApprovalCount(audit, id)
            + if row.verdict == Success && row.targetId == id && row.action == ApproveAction then 1 else 0
  {
    assert (audit + [row])[..|audit|] == audit;
  }

  /** Both counts depend on the success rows alone. */
  lemma {:induction false} CountsOfSuccessRows(audit: seq<AuditRow>, id: Guid)
    ensures SuccessCount(SuccessRows(audit), id) == SuccessCount(audit, id)
    ensures ApprovalCount(SuccessRows(audit), id) == ApprovalCount(audit, id)
  {
    if audit != [] {
      var before, last := audit[..|audit| - 1], audit[|audit| - 1];
      CountsOfSuccessRows(before, id);
      if last.verdict == Success {
        CountsSnoc(SuccessRows(before), last, id);
      } else {
        assert SuccessRows(audit) == SuccessRows(before);
      }
    }
  }
}
