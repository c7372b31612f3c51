/** What every serial history of calls keeps in the tables. */
module Ledger {
  import opened Base
  import opened Text
  import opened Domain
  import opened Store
  import opened Tables

  /** The revisions of one question, oldest first. */
  ghost function History(revisions: seq<RevisionRow>, id: Guid): (h: seq<RevisionRow>)
    ensures forall k :: 0 <= k < |h| ==> h[k].data.id == id && h[k] in revisions
  {
    if revisions == [] then []
    else
      var last := revisions[|revisions| - 1];
      History(revisions[..|revisions| - 1], id) + if last.data.id == id then [last] else []
  }

  lemma {:induction false} HistorySnoc(revisions: seq<RevisionRow>, row: RevisionRow, id: Guid)
    ensures History(revisions + [row], id) == History(revisions, id) + if row.data.id == id then [row] else []
  {
    assert (revisions + [row])[..|revisions|] == revisions;
  }

  /** Versions 1, 2, 3, ... without gap or repeat, all of one tenant. */
  ghost predicate Numbered(h: seq<RevisionRow>, tenantId: Guid) {
    forall k :: 0 <= k < |h| ==> h[k].data.version == k + 1 && h[k].data.tenantId == tenantId
  }

  /** The subquery for a version finds that entry of the history, and nothing beyond it. */
  lemma {:induction false} LookupFinds(revisions: seq<RevisionRow>, tenantId: Guid, id: Guid, version: int)
    requires Numbered(History(revisions, id), tenantId)
    ensures var h := History(revisions, id);
            Lookup(revisions, tenantId, id, version) == if 1 <= version <= |h| then Some(h[version - 1].id) else None
  {
    if revisions != [] {
      var before := revisions[..|revisions| - 1];
      var h, g := History(revisions, id), History(before, id);
      assert g == h[..|g|];
      assert forall k :: 0 <= k < |g| ==> g[k] == h[k];
      LookupFinds(before, tenantId, id, version);
      var last := revisions[|revisions| - 1];
      if last.data.id == id {
        assert h[|g|] == last;
      }
    }
  }

  /** The revisions of a question are its versions, the last of them its present state. */
  ghost predicate Recorded(revisions: seq<RevisionRow>, s: Snapshot) {
    var h := History(revisions, s.id);
    |h| == s.version >= 1 && Numbered(h, s.tenantId) && h[s.version - 1].data == s
  }

  /** An approved question points at the revision of its approved version, which was IN_REVIEW
      and has the published title, body and tags. */
  ghost predicate Pointed(revisions: seq<RevisionRow>, q: QuestionRow) {
    var s := q.data;
    var h := History(revisions, s.id);
    && (q.publishedRevision.Some? <==> s.approvedVersion.Some?)
    && (s.approvedVersion.Some? ==>
          && 1 <= s.approvedVersion.value <= |h|
          && var approved := h[s.approvedVersion.value - 1];
             && q.publishedRevision == Some(approved.id)
             && approved.data.status == InReview
             && approved.data.title == s.title && approved.data.body == s.body && approved.data.tags == s.tags)
  }

  /** Success rows number the version; at most one of them records an approval. */
  ghost predicate Counted(audit: seq<AuditRow>, s: Snapshot) {
    && SuccessCount(audit, s.id) == s.version
    && ApprovalCount(audit, s.id) == if s.approvedVersion.Some? then 1 else 0
  }

  ghost predicate Sound(s: Snapshot) {
    s.tenantId != EMPTY_GUID && Consistent(s) && (s.status == InReview ==> s.version >= 2)
  }

  /** The row of a question agrees with its revisions, its publication pointer and its audit trail. */
  ghost predicate RowKept(db: Db, id: Guid)
    requires id in db.questions
  {
    var q := db.questions[id];
    && q.data.id == id && Sound(q.data)
    && Recorded(db.revisions, q.data) && Pointed(db.revisions, q) && Counted(db.audit, q.data)
  }

  ghost predicate Unrecorded(db: Db, id: Guid) {
    History(db.revisions, id) == [] && SuccessCount(db.audit, id) == 0 && ApprovalCount(db.audit, id) == 0
  }

  ghost predicate Kept(db: Db) {
    && (forall id :: id in db.questions ==> RowKept(db, id))
    && (forall id: Guid :: id !in db.questions ==> Unrecorded(db, id))
    && (forall key :: key in db.keys ==> key.0 != EMPTY_GUID)
  }

  /** Rows of other questions keep their history and counts when one question's rows are appended. */
  lemma {:induction false} OthersKept(db: Db, e: Event, d: Delta, other: Guid)
    requires d.question.Some? ==> d.question.value.data.id != other
    requires d.revision.Some? ==> d.revision.value.data.id != other
    requires d.audit.Some? ==> d.audit.value.verdict != Success || d.audit.value.targetId != other
    ensures History(Committed(db, e, d).revisions, other) == History(db.revisions, other)
    ensures SuccessCount(Committed(db, e, d).audit, other) == SuccessCount(db.audit, other)
    ensures ApprovalCount(Committed(db, e, d).audit, other) == ApprovalCount(db.audit, other)
    ensures other in Committed(db, e, d).questions <==> other in db.questions
    ensures other in db.questions ==> Committed(db, e, d).questions[other] == db.questions[other]
  {
    if d.revision.Some? { HistorySnoc(db.revisions, d.revision.value, other); }
    if d.audit.Some? { CountsSnoc(db.audit, d.audit.value, other); }
  }

  /** How the snapshots before and after an accepted command relate. */
  ghost predicate Succeeds(s: Snapshot, t: Snapshot, approving: bool) {
    && SameIdentity(s, t) && t.version == s.version + 1
    && Consistent(t) && (t.status == InReview ==> t.version >= 2)
    && (approving <==> s.approvedVersion.None? && t.approvedVersion.Some?)
    && (s.approvedVersion.Some? ==> t.approvedVersion == s.approvedVersion)
    && (t.approvedVersion.Some? ==> t.title == s.title && t.body == s.body && t.tags == s.tags)
    && (approving ==> t.approvedVersion.value == s.version && s.status == InReview)
  }

  lemma ExecuteSucceeds(s: Snapshot, c: Command, now: int)
    requires Consistent(s) && (s.status == InReview ==> s.version >= 2)
    requires Execute(s, c, now).Ok?
    ensures Succeeds(s, Execute(s, c, now).value, c.Approve?)
  {
    ExecuteKeepsConsistent(s, c, now);
  }

  lemma RecordedExtended(revisions: seq<RevisionRow>, s: Snapshot, t: Snapshot, revision: RevisionRow)
    requires Recorded(revisions, s) && SameIdentity(s, t) && t.version == s.version + 1 && revision.data == t
    ensures Recorded(revisions + [revision], t)
  {
    HistorySnoc(revisions, revision, s.id);
  }

  /** Re-reading published_revision_id after the new revision's version is settled finds the approved revision. */
  lemma PointedExtended(
    revisions: seq<RevisionRow>, q: QuestionRow, t: Snapshot, approving: bool, revision: RevisionRow)
    requires Recorded(revisions, q.data) && Pointed(revisions, q) && Consistent(q.data)
    requires Succeeds(q.data, t, approving) && revision.data == t
    ensures Pointed(revisions + [revision], QuestionRow(t, Pointer(revisions, t)))
  {
    HistorySnoc(revisions, revision, t.id);
    var h := History(revisions, t.id);
    assert History(revisions + [revision], t.id) == h + [revision];
    if t.approvedVersion.Some? {
      LookupFinds(revisions, t.tenantId, t.id, t.approvedVersion.value);
      assert (h + [revision])[t.approvedVersion.value - 1] == h[t.approvedVersion.value - 1];
    }
  }

  /** Appending the successor's revision and success row, and re-reading published_revision_id, keeps the row. */
  lemma RowExtended(db: Db, after: Db, id: Guid, t: Snapshot, revision: RevisionRow, row: AuditRow)
    requires id in db.questions && RowKept(db, id)
    requires Succeeds(db.questions[id].data, t, row.action == ApproveAction)
    requires revision.data == t && row.verdict == Success && row.targetId == id
    requires id in after.questions && after.questions[id] == QuestionRow(t, Pointer(db.revisions, t))
    requires after.revisions == db.revisions + [revision] && after.audit == db.audit + [row]
    ensures RowKept(after, id)
  {
    var q := db.questions[id];
    RecordedExtended(db.revisions, q.data, t, revision);
    PointedExtended(db.revisions, q, t, row.action == ApproveAction, revision);
    CountsSnoc(db.audit, row, id);
  }

  /** An accepted command appends the next version and moves or keeps the publication pointer. */
  lemma AcceptedKeepsRow(db: Db, e: Event, dropKey: bool)
    requires Kept(db) && !e.call.Create?
    requires Judge(TargetRow(db, e.call), e.call, e.ticket.now).Ok?
    ensures RowKept(Committed(db, e, Decision(db, e, dropKey).0), e.call.id)
  {
    assert RowKept(db, e.call.id);
    var s := db.questions[e.call.id].data;
    ExecuteSucceeds(s, CommandOf(e.call), e.ticket.now);
    var t := Execute(s, CommandOf(e.call), e.ticket.now).value;
    RowExtended(db, Committed(db, e, Decision(db, e, dropKey).0), e.call.id, t,
      RevisionRow(e.ticket.revisionId, t), Audited(e, Success));
  }

  lemma CreateKeepsRow(db: Db, e: Event)
    requires Kept(db) && e.call.Create? && CreateOutcome(db, e).1.Ok?
    ensures RowKept(Committed(db, e, CreateOutcome(db, e).0), e.ticket.questionId)
  {
    var d := CreateOutcome(db, e).0;
    HistorySnoc(db.revisions, d.revision.value, e.ticket.questionId);
    CountsSnoc(db.audit, d.audit.value, e.ticket.questionId);
  }

  lemma AcceptedIsDecision(db: Db, e: Event)
    requires !e.call.Create? && Transaction(db, e).0.question.Some?
    ensures var d := Transaction(db, e).0;
            && d == Decision(db, e, d.dropKey).0 && TargetRow(db, e.call).Some?
            && Judge(TargetRow(db, e.call), e.call, e.ticket.now).Ok?
  {
  }

  /** The rows a call writes are about its target. */
  lemma AcceptedNames(db: Db, e: Event)
    requires Kept(db) && Transaction(db, e).0.question.Some?
    ensures var d := Transaction(db, e).0;
            && d.question.value.data.id == Target(e)
            && d.revision == Some(RevisionRow(e.ticket.revisionId, d.question.value.data))
            && d.audit == Some(Audited(e, Success))
  {
    if !e.call.Create? {
      AcceptedIsDecision(db, e);
      assert RowKept(db, e.call.id);
      ExecuteSucceeds(db.questions[e.call.id].data, CommandOf(e.call), e.ticket.now);
    }
  }

  /** A commit that appends one question's rows, or only a refusal, keeps every other row. */
  lemma CommitKeeps(db: Db, e: Event, d: Delta, target: Guid)
    requires Kept(db)
    requires d.question.Some? ==> d.question.value.data.id == target && RowKept(Committed(db, e, d), target)
    requires d.revision.Some? ==> d.question.Some? && d.revision.value.data.id == target
    requires d.audit.Some? && d.audit.value.verdict == Success ==> d.question.Some? && d.audit.value.targetId == target
    requires d.key.Some? && e.call.Approval? ==> e.call.tenantId != EMPTY_GUID
    ensures Kept(Committed(db, e, d))
  {
    var after := Committed(db, e, d);
    forall id: Guid | d.question.None? || id != target
      ensures if id in after.questions then RowKept(after, id) else Unrecorded(after, id)
    {
      OthersKept(db, e, d, id);
    }
  }

  lemma StepKeeps(db: Db, e: Event)
    requires Kept(db)
    ensures Kept(Step(db, e))
  {
    var d := Transaction(db, e).0;
    if d.question.Some? {
      AcceptedNames(db, e);
      if e.call.Create? { CreateKeepsRow(db, e); }
      else { AcceptedIsDecision(db, e); AcceptedKeepsRow(db, e, d.dropKey); }
    }
    CommitKeeps(db, e, d, Target(e));
  }

  /** In every table state a serial history reaches, each question's revisions are exactly its
      versions in order, its publication pointer names the approved IN_REVIEW revision, and its
      success audit rows number its version with at most one approval. */
  lemma {:induction false} RunKeeps(db: Db, events: seq<Event>)
    requires Kept(db)
    ensures Kept(Run(db, events))
    decreases |events|
  {
    if events != [] {
      RunKeeps(db, events[..|events| - 1]);
      StepKeeps(Run(db, events[..|events| - 1]), events[|events| - 1]);
    }
  }

  lemma EmptyKept()
    ensures Kept(EMPTY)
  {
  }

  // --------------------------------------------------- revision ids are names

  ghost predicate Issued(events: seq<Event>, id: Guid) {
    exists i :: 0 <= i < |events| && events[i].ticket.revisionId == id
  }

  ghost predicate AllIssued(events: seq<Event>, revisions: seq<RevisionRow>) {
    forall k :: 0 <= k < |revisions| ==> Issued(events, revisions[k].id)
  }

  ghost predicate IdsDistinct(revisions: seq<RevisionRow>) {
    DistinctBy(revisions, (r: RevisionRow) => r.id)
  }

  /** A call records at most one revision, under its own fresh id. */
  lemma StepRevisions(db: Db, e: Event)
    ensures var after := Step(db, e).revisions;
            after == db.revisions || exists s :: after == db.revisions + [RevisionRow(e.ticket.revisionId, s)]
  {
    var d := Transaction(db, e).0;
    if d.revision.Some? {
      assert Step(db, e).revisions == db.revisions + [RevisionRow(e.ticket.revisionId, d.revision.value.data)];
    }
  }

  lemma IssuedGrows(before: seq<Event>, e: Event, prior: seq<RevisionRow>, now: seq<RevisionRow>)
    requires forall i :: 0 <= i < |before| ==> before[i].ticket.revisionId != e.ticket.revisionId
    requires AllIssued(before, prior) && IdsDistinct(prior)
    requires now == prior || exists s :: now == prior + [RevisionRow(e.ticket.revisionId, s)]
    ensures AllIssued(before + [e], now) && IdsDistinct(now)
  {
    forall k | 0 <= k < |now| ensures Issued(before + [e], now[k].id) {
      if k < |prior| {
        assert now[k] == prior[k];
        var i :| 0 <= i < |before| && before[i].ticket.revisionId == prior[k].id;
        assert (before + [e])[i] == before[i];
      } else {
        assert (before + [e])[|before|] == e;
      }
    }
    forall k, l | 0 <= k < l < |now| ensures now[k].id != now[l].id {
      assert now[k] == prior[k];
      if l < |prior| {
        assert now[l] == prior[l];
      } else {
        assert Issued(before, prior[k].id);
      }
    }
  }

  /** With fresh revision ids, no two revision rows share one: published_revision_id names one row. */
  lemma {:induction false} RevisionIdsDistinct(events: seq<Event>)
    requires forall i, j :: 0 <= i < j < |events| ==> events[i].ticket.revisionId != events[j].ticket.revisionId
    ensures AllIssued(events, Run(EMPTY, events).revisions) && IdsDistinct(Run(EMPTY, events).revisions)
    decreases |events|
  {
    if events != [] {
      var before, e := events[..|events| - 1], events[|events| - 1];
      RevisionIdsDistinct(before);
      StepRevisions(Run(EMPTY, before), e);
      assert before + [e] == events;
      IssuedGrows(before, e, Run(EMPTY, before).revisions, Run(EMPTY, events).revisions);
    }
  }

  // ------------------------------------------------------- idempotency window

  /** A remembered key stays as it is while every call on it reads a clock before its expiry. */
  lemma {:induction false} KeySurvives(db: Db, events: seq<Event>, key: Key)
    requires key in db.keys
    requires forall i :: 0 <= i < |events| && events[i].call.Approval? && KeyOf(events[i].call) == key ==>
      events[i].ticket.now < db.keys[key].expiresAt
    ensures key in Run(db, events).keys && Run(db, events).keys[key] == db.keys[key]
    decreases |events|
  {
    if events != [] {
      var before := events[..|events| - 1];
      KeySurvives(db, before, key);
      assert events[|events| - 1].call.Approval? && KeyOf(events[|events| - 1].call) == key ==>
        events[|events| - 1].ticket.now < db.keys[key].expiresAt;
      KeyUntouched(Run(db, before), events[|events| - 1], key);
    }
  }

  lemma KeyUntouched(db: Db, e: Event, key: Key)
    requires key in db.keys
    requires e.call.Approval? && KeyOf(e.call) == key ==> e.ticket.now < db.keys[key].expiresAt
    ensures key in Step(db, e).keys && Step(db, e).keys[key] == db.keys[key]
  {
  }

  /** Same question, reviewer and expected version; correlation ids may differ. */
  predicate SameCommand(a: Call, b: Call)
    requires a.Approval? && b.Approval?
  {
    a.tenantId == b.tenantId && a.id == b.id && a.reviewer == b.reviewer && a.expectedVersion == b.expectedVersion
  }

  /** The call is the one that runs the command, not a replay of an earlier one. */
  predicate FirstUse(db: Db, e: Event)
    requires e.call.Approval?
  {
    KeyRowOf(db, KeyOf(e.call)).None? || Expired(KeyRowOf(db, KeyOf(e.call)), e.ticket.now)
  }

  /** After an approval succeeds at time t, whatever other calls run, every call under the same
      tenant and key with a clock before t + 24h changes nothing; it returns the first result if
      it is the same command and key_reused otherwise. */
  lemma {:induction false} ApprovalIsRemembered(db: Db, first: Event, later: seq<Event>, e: Event)
    requires first.call.Approval? && FirstUse(db, first) && Transaction(db, first).1.Ok?
    requires e.call.Approval? && KeyOf(e.call) == KeyOf(first.call) && e.ticket.now < first.ticket.now + RETENTION
    requires forall i :: 0 <= i < |later| && later[i].call.Approval? && KeyOf(later[i].call) == KeyOf(first.call) ==>
      later[i].ticket.now < first.ticket.now + RETENTION
    ensures var after := Run(Step(db, first), later);
            && Step(after, e) == after
            && Transaction(after, e).1 ==
                 if SameCommand(e.call, first.call) then Transaction(db, first).1 else Err(Rule(KeyReused))
  {
    var key := KeyOf(first.call);
    var row := Step(db, first).keys[key];
    assert row.expiresAt == first.ticket.now + RETENTION && row.fingerprint == FingerprintOf(first.call);
    assert Ok(row.response) == Transaction(db, first).1;
    KeySurvives(Step(db, first), later, key);
    if FingerprintOf(e.call) == FingerprintOf(first.call) {
      FingerprintInjective(e.call.tenantId, e.call.id, e.call.reviewer, e.call.expectedVersion,
        first.call.tenantId, first.call.id, first.call.reviewer, first.call.expectedVersion);
    }
  }
}
