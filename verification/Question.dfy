/** The Question aggregate: a value-level transition function, the mutable class
    proved against it, and what every command history keeps. */
module Domain {
  import opened Base
  import opened Text

  datatype Status = Draft | InReview | Published | Withdrawn

  /** The codes carried by DomainRuleViolationException. */
  datatype Code =
    | UpdateInvalidState | SubmitInvalidState | ReturnInvalidState | ApproveInvalidState | WithdrawInvalidState
    | OwnerForbidden | VersionConflict | ReviewerRequired | ReturnReasonRequired | SelfApprovalForbidden
    | ActorRequired | WithdrawalReasonRequired | NotFound | KeyReused

  datatype ArgumentError = EmptyId | EmptyTenant | OwnerRequired

  /** Times count microseconds. */
  datatype Snapshot = Snapshot(
    id: Guid, title: string, body: string, tags: seq<string>, status: Status, version: int, owner: string,
    createdAt: int, updatedAt: int, publishedAt: Option<int>, reviewReason: Option<string>, tenantId: Guid,
    withdrawalReason: Option<string>, approvedVersion: Option<int>, approvedBy: Option<string>)

  datatype Command =
    | Update(title: string, body: string, tags: seq<string>, expectedVersion: int, actor: string)
    | Submit(actor: string)
    | Return(actor: string, reason: string)
    | Approve(actor: string, expectedVersion: int)
    | Withdraw(actor: string, reason: string)

  /** The tenant a snapshot without one is assigned to. */
  const MVS01: Guid := 0x7b48e239_07ef_4b34_a1fb_7f4fc7ff1673

  /** The first guard of the constructor that fails. */
  function CreationError(id: Guid, tenantId: Guid, owner: string): Option<ArgumentError> {
    if id == EMPTY_GUID then Some(EmptyId)
    else if tenantId == EMPTY_GUID then Some(EmptyTenant)
    else if IsBlank(owner) then Some(OwnerRequired)
    else None
  }

  function Created(id: Guid, tenantId: Guid, title: string, body: string, tags: seq<string>, owner: string,
                   now: int): Snapshot {
    Snapshot(id, title, body, tags, Draft, 1, owner, now, now, None, None, tenantId, None, None, None)
  }

  /** The first guard that rejects the command, in the order the method checks them. */
  function Rejection(s: Snapshot, c: Command): Option<Code> {
    match c
    case Update(_, _, _, expected, actor) =>
      if s.owner != actor then Some(OwnerForbidden)
      else if s.status != Draft then Some(UpdateInvalidState)
      else if s.version != expected then Some(VersionConflict)
      else None
    case Submit(actor) =>
      if s.owner != actor then Some(OwnerForbidden)
      else if s.status != Draft then Some(SubmitInvalidState)
      else None
    case Return(reviewer, reason) =>
      if s.status != InReview then Some(ReturnInvalidState)
      else if IsBlank(reviewer) then Some(ReviewerRequired)
      else if IsBlank(reason) then Some(ReturnReasonRequired)
      else None
    case Approve(reviewer, expected) =>
      if s.status != InReview then Some(ApproveInvalidState)
      else if IsBlank(reviewer) then Some(ReviewerRequired)
      else if s.owner == reviewer then Some(SelfApprovalForbidden)
      else if s.version != expected then Some(VersionConflict)
      else None
    case Withdraw(actor, reason) =>
      if s.status != Published then Some(WithdrawInvalidState)
      else if IsBlank(actor) then Some(ActorRequired)
      else if IsBlank(reason) then Some(WithdrawalReasonRequired)
      else None
  }

  function Changed(s: Snapshot, c: Command, now: int): Snapshot {
    var t := s.(version := s.version + 1, updatedAt := now);
    match c
    case Update(title, body, tags, _, _) => t.(title := title, body := body, tags := tags, reviewReason := None)
    case Submit(_) => t.(status := InReview, reviewReason := None)
    case Return(_, reason) => t.(status := Draft, reviewReason := Some(Trim(reason)))
    case Approve(reviewer, _) =>
      t.(status := Published, publishedAt := Some(now), reviewReason := None,
         approvedVersion := Some(s.version), approvedBy := Some(reviewer))
    case Withdraw(_, reason) => t.(status := Withdrawn, reviewReason := None, withdrawalReason := Some(Trim(reason)))
  }

  function Execute(s: Snapshot, c: Command, now: int): Result<Snapshot, Code> {
    match Rejection(s, c)
    case Some(code) => Err(code)
    case None => Ok(Changed(s, c, now))
  }

  /** What a command method returns and leaves behind: the transition, or nothing changed. */
  function Effect(s: Snapshot, c: Command, now: int): (Outcome<Code>, Snapshot) {
    match Execute(s, c, now)
    case Ok(t) => (Pass, t)
    case Err(code) => (Fail(code), s)
  }

  /** The aggregate root. */
  class Question {
    const id: Guid
    const tenantId: Guid
    var title: string
    var body: string
    var tags: seq<string>
    var status: Status
    var version: int
    const owner: string
    const createdAt: int
    var updatedAt: int
    var publishedAt: Option<int>
    var reviewReason: Option<string>
    var withdrawalReason: Option<string>
    var approvedVersion: Option<int>
    var approvedBy: Option<string>

    /** A new draft. */
    constructor (id: Guid, tenantId: Guid, title: string, body: string, tags: seq<string>, owner: string, now: int)
      requires CreationError(id, tenantId, owner) == None
      ensures this.id == id && this.tenantId == tenantId
      ensures ToSnapshot() == Created(id, tenantId, title, body, tags, owner, now)
    {
      this.id, this.tenantId := id, tenantId;
      this.title, this.body, this.tags := title, body, tags;
      this.owner := owner;
      status, version := Draft, 1;
      createdAt, updatedAt := now, now;
      publishedAt, reviewReason, withdrawalReason := None, None, None;
      approvedVersion, approvedBy := None, None;
    }

    /** Rebuilds an aggregate from its stored snapshot. */
    constructor Rehydrate(s: Snapshot)
      ensures id == s.id && tenantId == s.tenantId
      ensures s.tenantId != EMPTY_GUID ==> ToSnapshot() == s
    {
      id, tenantId := s.id, s.tenantId;
      title, body, tags := s.title, s.body, s.tags;
      owner := s.owner;
      status, version := s.status, s.version;
      createdAt, updatedAt := s.createdAt, s.updatedAt;
      publishedAt, reviewReason, withdrawalReason := s.publishedAt, s.reviewReason, s.withdrawalReason;
      approvedVersion, approvedBy := s.approvedVersion, s.approvedBy;
    }

    function ToSnapshot(): (s: Snapshot)
      reads this
      ensures s.id == id && (tenantId != EMPTY_GUID ==> s.tenantId == tenantId)
    {
      Snapshot(id, title, body, tags, status, version, owner, createdAt, updatedAt, publishedAt, reviewReason,
               if tenantId == EMPTY_GUID then MVS01 else tenantId, withdrawalReason, approvedVersion, approvedBy)
    }

    method Update(title: string, body: string, tags: seq<string>, expectedVersion: int, actor: string, now: int)
      returns (r: Outcome<Code>)
      modifies this
      ensures (r, ToSnapshot())
        == Effect(old(ToSnapshot()), Command.Update(title, body, tags, expectedVersion, actor), now)
    {
      if owner != actor { return Fail(OwnerForbidden); }
      if status != Draft { return Fail(UpdateInvalidState); }
      if version != expectedVersion { return Fail(VersionConflict); }
      this.title := title;
      this.body := body;
      this.tags := tags;
      reviewReason := None;
      Advance(now);
      return Pass;
    }

    method Submit(actor: string, now: int) returns (r: Outcome<Code>)
      modifies this
      ensures (r, ToSnapshot()) == Effect(old(ToSnapshot()), Command.Submit(actor), now)
    {
      if owner != actor { return Fail(OwnerForbidden); }
      if status != Draft { return Fail(SubmitInvalidState); }
      status := InReview;
      reviewReason := None;
      Advance(now);
      return Pass;
    }

    method ReturnForChanges(reviewer: string, reason: string, now: int) returns (r: Outcome<Code>)
      modifies this
      ensures (r, ToSnapshot()) == Effect(old(ToSnapshot()), Command.Return(reviewer, reason), now)
    {
      if status != InReview { return Fail(ReturnInvalidState); }
      if IsBlank(reviewer) { return Fail(ReviewerRequired); }
      if IsBlank(reason) { return Fail(ReturnReasonRequired); }
      status := Draft;
      reviewReason := Some(Trim(reason));
      Advance(now);
      return Pass;
    }

    method Approve(reviewer: string, expectedVersion: int, now: int) returns (r: Outcome<Code>)
      modifies this
      ensures (r, ToSnapshot()) == Effect(old(ToSnapshot()), Command.Approve(reviewer, expectedVersion), now)
    {
      if status != InReview { return Fail(ApproveInvalidState); }
      if IsBlank(reviewer) { return Fail(ReviewerRequired); }
      if owner == reviewer { return Fail(SelfApprovalForbidden); }
      if version != expectedVersion { return Fail(VersionConflict); }
      approvedVersion := Some(version);
      approvedBy := Some(reviewer);
      status := Published;
      publishedAt := Some(now);
      reviewReason := None;
      Advance(now);
      return Pass;
    }

    method Withdraw(actor: string, reason: string, now: int) returns (r: Outcome<Code>)
      modifies this
      ensures (r, ToSnapshot()) == Effect(old(ToSnapshot()), Command.Withdraw(actor, reason), now)
    {
      if status != Published { return Fail(WithdrawInvalidState); }
      if IsBlank(actor) { return Fail(ActorRequired); }
      if IsBlank(reason) { return Fail(WithdrawalReasonRequired); }
      status := Withdrawn;
      reviewReason := None;
      withdrawalReason := Some(Trim(reason));
      Advance(now);
      return Pass;
    }

    method Advance(now: int)
      modifies this`version, this`updatedAt
      ensures version == old(version) + 1 && updatedAt == now
    {
      version := version + 1;
      updatedAt := now;
    }
  }

  // ------------------------------------------------------- command histories

  datatype Timed = Timed(command: Command, now: int)

  /** The snapshot after a command history; a rejected command leaves it as it was. */
  function Replay(s: Snapshot, history: seq<Timed>): Snapshot
    decreases |history|
  {
    if history == [] then s
    else
      var t := Replay(s, history[..|history| - 1]);
      var e := history[|history| - 1];
      match Execute(t, e.command, e.now) case Ok(u) => u case Err(_) => t
  }

  /** The number of commands of the history that succeeded. */
  function Successes(s: Snapshot, history: seq<Timed>): nat
    decreases |history|
  {
    if history == [] then 0
    else
      var before := history[..|history| - 1];
      var e := history[|history| - 1];
      Successes(s, before) + if Execute(Replay(s, before), e.command, e.now).Ok? then 1 else 0
  }

  /** The rules that tie status, approval data, reasons and version together. */
  ghost predicate Consistent(s: Snapshot) {
    && s.version >= 1
    && !IsBlank(s.owner)
    && (s.approvedVersion.Some? <==> s.status == Published || s.status == Withdrawn)
    && (s.approvedBy.Some? <==> s.approvedVersion.Some?)
    && (s.publishedAt.Some? <==> s.approvedVersion.Some?)
    && (s.status == Published ==> s.approvedVersion == Some(s.version - 1))
    && (s.status == Withdrawn ==> s.approvedVersion == Some(s.version - 2))
    && (s.approvedVersion.Some? ==> s.approvedVersion.value >= 2)
    && (s.approvedBy.Some? ==> s.approvedBy.value != s.owner && !IsBlank(s.approvedBy.value))
    && (s.reviewReason.Some? ==> s.status == Draft && !IsBlank(s.reviewReason.value))
    && (s.withdrawalReason.Some? <==> s.status == Withdrawn)
    && (s.withdrawalReason.Some? ==> !IsBlank(s.withdrawalReason.value))
  }

  ghost predicate SameIdentity(s: Snapshot, t: Snapshot) {
    s.id == t.id && s.tenantId == t.tenantId && s.owner == t.owner && s.createdAt == t.createdAt
  }

  /** One accepted command keeps the rules, apart from approvals needing a version of at least 2. */
  lemma ExecuteKeepsConsistent(s: Snapshot, c: Command, now: int)
    requires Consistent(s)
    requires s.status == InReview ==> s.version >= 2
    requires Execute(s, c, now).Ok?
    ensures var t := Execute(s, c, now).value;
            && Consistent(t) && SameIdentity(s, t) && t.version == s.version + 1 && t.updatedAt == now
            && (t.status == InReview ==> t.version >= 2)
  {
    if c.Return? { TrimBlank(c.reason); }
    if c.Withdraw? { TrimBlank(c.reason); }
  }

  /** Over any history from creation the version is one more than the number of successes,
      and approval data, reasons and identity follow the status. */
  lemma {:induction false} HistoryConsistent(
    id: Guid, tenantId: Guid, title: string, body: string, tags: seq<string>, owner: string, now: int,
    history: seq<Timed>)
    requires CreationError(id, tenantId, owner) == None
    ensures var first := Created(id, tenantId, title, body, tags, owner, now);
            var s := Replay(first, history);
            && Consistent(s) && SameIdentity(first, s)
            && s.version == 1 + Successes(first, history)
            && (s.status == InReview ==> s.version >= 2)
    decreases |history|
  {
    if history != [] {
      var before := history[..|history| - 1];
      HistoryConsistent(id, tenantId, title, body, tags, owner, now, before);
      var t := Replay(Created(id, tenantId, title, body, tags, owner, now), before);
      var e := history[|history| - 1];
      if Execute(t, e.command, e.now).Ok? {
        ExecuteKeepsConsistent(t, e.command, e.now);
      }
    }
  }

  /** Withdrawal is final and publication can only be withdrawn: approval is granted at most once. */
  lemma {:induction false} PublishedNeverReopens(s: Snapshot, history: seq<Timed>)
    requires s.status == Published || s.status == Withdrawn
    ensures var t := Replay(s, history);
            && (t.status == Withdrawn || t == s)
            && (s.status == Withdrawn ==> t == s)
            && Successes(s, history) <= 1
            && (Successes(s, history) == 0 <==> t == s)
            && (t.title, t.body, t.tags) == (s.title, s.body, s.tags)
            && t.approvedVersion == s.approvedVersion && t.approvedBy == s.approvedBy
            && t.publishedAt == s.publishedAt
            && t.version == s.version + Successes(s, history)
    decreases |history|
  {
    if history != [] {
      PublishedNeverReopens(s, history[..|history| - 1]);
    }
  }
}
