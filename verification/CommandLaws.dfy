/** What each command of a question promises, guard by guard and field by field, and that both stores keep it. */
module CommandLaws {
  import opened Base
  import opened Text
  import opened Domain

  /** The code points .NET counts as white space. */
  const WHITE: set<int> :=
    {0x9, 0xA, 0xB, 0xC, 0xD, 0x20, 0x85, 0xA0, 0x1680, 0x2000, 0x2001, 0x2002, 0x2003, 0x2004, 0x2005, 0x2006,
     0x2007, 0x2008, 0x2009, 0x200A, 0x2028, 0x2029, 0x202F, 0x205F, 0x3000}

  ghost predicate AllWhite(s: string) {
    forall i :: 0 <= i < |s| ==> s[i] as int in WHITE
  }

  /** The text between the outer white space of s. */
  ghost predicate Trimmed(s: string, t: string) {
    exists p: string, q: string :: s == p + t + q && AllWhite(p) && AllWhite(q)
      && (t != "" ==> t[0] as int !in WHITE && t[|t| - 1] as int !in WHITE)
  }

  /** Everything a command leaves alone: identity, and the fields not named. */
  ghost predicate Untouched(s: Snapshot, t: Snapshot) {
    && t.id == s.id && t.tenantId == s.tenantId && t.owner == s.owner && t.createdAt == s.createdAt
  }

  ghost predicate SameText(s: Snapshot, t: Snapshot) {
    t.title == s.title && t.body == s.body && t.tags == s.tags
  }

  ghost predicate SameApproval(s: Snapshot, t: Snapshot) {
    t.approvedVersion == s.approvedVersion && t.approvedBy == s.approvedBy && t.publishedAt == s.publishedAt
  }

  ghost predicate UpdateAnswer(s: Snapshot, title: string, body: string, tags: seq<string>, expectedVersion: int,
                               actor: string, now: int, r: Result<Snapshot, Code>) {
    && (r == Err(OwnerForbidden) <==> s.owner != actor)
    && (r == Err(UpdateInvalidState) <==> s.owner == actor && s.status != Draft)
    && (r == Err(VersionConflict) <==> s.owner == actor && s.status == Draft && s.version != expectedVersion)
    && (r.Ok? <==> s.owner == actor && s.status == Draft && s.version == expectedVersion)
    && (r.Ok? ==>
          var t := r.value;
          && t.version == expectedVersion + 1 && t.owner == actor && t.updatedAt == now && t.status == Draft
          && t.title == title && t.body == body && t.tags == tags && t.reviewReason == None
          && t.withdrawalReason == s.withdrawalReason && SameApproval(s, t) && Untouched(s, t))
  }

  ghost predicate SubmitAnswer(s: Snapshot, actor: string, now: int, r: Result<Snapshot, Code>) {
    && (r == Err(OwnerForbidden) <==> s.owner != actor)
    && (r == Err(SubmitInvalidState) <==> s.owner == actor && s.status != Draft)
    && (r.Ok? <==> s.owner == actor && s.status == Draft)
    && (r.Ok? ==>
          var t := r.value;
          && t.version == s.version + 1 && t.owner == actor && t.updatedAt == now && t.status == InReview
          && t.reviewReason == None && t.withdrawalReason == s.withdrawalReason
          && SameText(s, t) && SameApproval(s, t) && Untouched(s, t))
  }

  ghost predicate ReturnAnswer(s: Snapshot, reviewer: string, reason: string, now: int, r: Result<Snapshot, Code>) {
    && (r == Err(ReturnInvalidState) <==> s.status != InReview)
    && (r == Err(ReviewerRequired) <==> s.status == InReview && Trimmed(reviewer, ""))
    && (r == Err(ReturnReasonRequired) <==> s.status == InReview && !Trimmed(reviewer, "") && Trimmed(reason, ""))
    && (r.Ok? <==> s.status == InReview && !Trimmed(reviewer, "") && !Trimmed(reason, ""))
    && (r.Ok? ==>
          var t := r.value;
          && t.version == s.version + 1 && t.updatedAt == now && t.status == Draft
          && t.reviewReason.Some? && t.reviewReason.value != "" && Trimmed(reason, t.reviewReason.value)
          && t.withdrawalReason == s.withdrawalReason && SameText(s, t) && SameApproval(s, t) && Untouched(s, t))
  }

  ghost predicate ApproveAnswer(s: Snapshot, reviewer: string, expectedVersion: int, now: int,
                                r: Result<Snapshot, Code>) {
    && (r == Err(ApproveInvalidState) <==> s.status != InReview)
    && (r == Err(ReviewerRequired) <==> s.status == InReview && Trimmed(reviewer, ""))
    && (r == Err(SelfApprovalForbidden) <==> s.status == InReview && !Trimmed(reviewer, "") && s.owner == reviewer)
    && (r == Err(VersionConflict) <==>
          s.status == InReview && !Trimmed(reviewer, "") && s.owner != reviewer && s.version != expectedVersion)
    && (r.Ok? <==>
          s.status == InReview && !Trimmed(reviewer, "") && s.owner != reviewer && s.version == expectedVersion)
    && (r.Ok? ==>
          var t := r.value;
          && t.version == expectedVersion + 1 && t.updatedAt == now && t.status == Published
          && t.approvedVersion == Some(expectedVersion) && t.approvedBy == Some(reviewer) && t.publishedAt == Some(now)
          && t.reviewReason == None && t.withdrawalReason == s.withdrawalReason && SameText(s, t) && Untouched(s, t))
  }

  ghost predicate WithdrawAnswer(s: Snapshot, actor: string, reason: string, now: int, r: Result<Snapshot, Code>) {
    && (r == Err(WithdrawInvalidState) <==> s.status != Published)
    && (r == Err(ActorRequired) <==> s.status == Published && Trimmed(actor, ""))
    && (r == Err(WithdrawalReasonRequired) <==> s.status == Published && !Trimmed(actor, "") && Trimmed(reason, ""))
    && (r.Ok? <==> s.status == Published && !Trimmed(actor, "") && !Trimmed(reason, ""))
    && (r.Ok? ==>
          var t := r.value;
          && t.version == s.version + 1 && t.updatedAt == now && t.status == Withdrawn
          && t.withdrawalReason.Some? && t.withdrawalReason.value != "" && Trimmed(reason, t.withdrawalReason.value)
          && t.reviewReason == None && SameText(s, t) && SameApproval(s, t) && Untouched(s, t))
  }

  /** What a command promises for a stored question. */
  ghost predicate Answers(s: Snapshot, c: Command, now: int, r: Result<Snapshot, Code>) {
    match c
    case Update(title, body, tags, expected, actor) => UpdateAnswer(s, title, body, tags, expected, actor, now, r)
    case Submit(actor) => SubmitAnswer(s, actor, now, r)
    case Return(reviewer, reason) => ReturnAnswer(s, reviewer, reason, now, r)
    case Approve(reviewer, expected) => ApproveAnswer(s, reviewer, expected, now, r)
    case Withdraw(actor, reason) => WithdrawAnswer(s, actor, reason, now, r)
  }

  // ------------------------------------------------------------------ trimming

  ghost predicate Stripped(s: string, t: string) {
    exists p: string, q: string :: s == p + t + q && IsBlank(p) && IsBlank(q)
      && (t != "" ==> !IsSpace(t[0]) && !IsSpace(t[|t| - 1]))
  }

  lemma WhiteIsSpace(c: char)
    ensures IsSpace(c) <==> c as int in WHITE
  {
  }

  lemma AllWhiteIsBlank(s: string)
    ensures IsBlank(s) <==> AllWhite(s)
  {
    hide IsSpace;
    forall i | 0 <= i < |s| ensures IsSpace(s[i]) <==> s[i] as int in WHITE { WhiteIsSpace(s[i]); }
  }

  lemma TrimmedIsStripped(s: string, t: string)
    ensures Trimmed(s, t) <==> Stripped(s, t)
  {
    hide IsSpace, IsBlank, AllWhite;
    forall p: string ensures IsBlank(p) <==> AllWhite(p) { AllWhiteIsBlank(p); }
    if t != "" {
      WhiteIsSpace(t[0]);
      WhiteIsSpace(t[|t| - 1]);
    }
  }

  lemma {:induction false} StartSplits(s: string) returns (p: string)
    ensures s == p + TrimStart(s) && IsBlank(p)
    decreases |s|
  {
    if s != "" && IsSpace(s[0]) {
      var rest := StartSplits(s[1..]);
      p := [s[0]] + rest;
      assert s == [s[0]] + s[1..];
    } else {
      p := "";
    }
  }

  lemma {:induction false} EndSplits(s: string) returns (q: string)
    ensures s == TrimEnd(s) + q && IsBlank(q)
    decreases |s|
  {
    if s != "" && IsSpace(s[|s| - 1]) {
      var rest := EndSplits(s[..|s| - 1]);
      q := rest + [s[|s| - 1]];
      assert s == s[..|s| - 1] + [s[|s| - 1]];
    } else {
      q := "";
    }
  }

  lemma {:induction false} EndIsNoSpace(s: string)
    ensures TrimEnd(s) != "" ==> !IsSpace(TrimEnd(s)[|TrimEnd(s)| - 1])
    decreases |s|
  {
    hide IsSpace;
    if s != "" && IsSpace(s[|s| - 1]) { EndIsNoSpace(s[..|s| - 1]); }
  }

  lemma {:induction false} StartIsNoSpace(s: string)
    ensures TrimStart(s) != "" ==> !IsSpace(TrimStart(s)[0])
    decreases |s|
  {
    hide IsSpace;
    if s != "" && IsSpace(s[0]) { StartIsNoSpace(s[1..]); }
  }

  lemma TrimIsStripped(s: string)
    ensures Stripped(s, Trim(s))
  {
    hide IsSpace, IsBlank, TrimStart, TrimEnd;
    var p := StartSplits(s);
    var q := EndSplits(TrimStart(s));
    StartIsNoSpace(s);
    EndIsNoSpace(TrimStart(s));
    if Trim(s) != "" { assert Trim(s)[0] == TrimStart(s)[0]; }
    assert s == p + Trim(s) + q;
  }

  /** Trim gives that text. */
  lemma TrimIsTrimmed(s: string)
    ensures Trimmed(s, Trim(s))
  {
    hide Trimmed, Stripped, Trim;
    TrimIsStripped(s);
    TrimmedIsStripped(s, Trim(s));
  }

  lemma BlankParts(p: string, q: string)
    requires IsBlank(p) && IsBlank(q)
    ensures IsBlank(p + "" + q)
  {
    assert p + "" + q == p + q;
  }

  lemma {:induction false} BlankIsTrimmedAway(s: string)
    ensures IsBlank(s) <==> Trimmed(s, "")
  {
    hide IsBlank, Trimmed;
    TrimmedIsStripped(s, "");
    if IsBlank(s) {
      assert IsBlank("") by { NothingIsBlank(); }
      assert s == s + "" + "";
    }
    if Stripped(s, "") {
      var p: string, q: string :| s == p + "" + q && IsBlank(p) && IsBlank(q);
      BlankParts(p, q);
    }
  }

  lemma NothingIsBlank()
    ensures IsBlank("")
  {
  }

  /** There is only one such text. */
  lemma TrimmedOnce(s: string, t: string, u: string)
    requires Trimmed(s, t) && Trimmed(s, u)
    ensures t == u
  {
    hide Trimmed, Stripped;
    TrimmedIsStripped(s, t);
    TrimmedIsStripped(s, u);
    StrippedOnce(s, t, u);
  }

  lemma StrippedOnce(s: string, t: string, u: string)
    requires Stripped(s, t) && Stripped(s, u)
    ensures t == u
  {
    hide IsSpace;
    var p: string, q: string :| s == p + t + q && IsBlank(p) && IsBlank(q)
      && (t != "" ==> !IsSpace(t[0]) && !IsSpace(t[|t| - 1]));
    var x: string, y: string :| s == x + u + y && IsBlank(x) && IsBlank(y)
      && (u != "" ==> !IsSpace(u[0]) && !IsSpace(u[|u| - 1]));
    if t != "" {
      assert s[|p|] == t[0] && s[|p| + |t| - 1] == t[|t| - 1];
      assert forall i :: 0 <= i < |x| ==> s[i] == x[i];
      assert forall i :: 0 <= i < |y| ==> s[|x| + |u| + i] == y[i];
    }
    if u != "" {
      assert s[|x|] == u[0] && s[|x| + |u| - 1] == u[|u| - 1];
      assert forall i :: 0 <= i < |p| ==> s[i] == p[i];
      assert forall i :: 0 <= i < |q| ==> s[|p| + |t| + i] == q[i];
    }
    if t != "" && u != "" {
      assert |p| == |x| && |t| == |u|;
      assert t == s[|p|..|p| + |t|] && u == s[|x|..|x| + |u|];
    }
  }

  lemma ExecuteAnswers(s: Snapshot, c: Command, now: int)
    ensures Answers(s, c, now, Execute(s, c, now))
  {
    hide Trimmed, Trim, IsBlank;
    match c
    case Update(_, _, _, _, _) =>
    case Submit(_) =>
    case Return(reviewer, reason) =>
      BlankIsTrimmedAway(reviewer);
      BlankIsTrimmedAway(reason);
      TrimIsTrimmed(reason);
      TrimBlank(reason);
    case Approve(reviewer, _) =>
      BlankIsTrimmedAway(reviewer);
    case Withdraw(actor, reason) =>
      BlankIsTrimmedAway(actor);
      BlankIsTrimmedAway(reason);
      TrimIsTrimmed(reason);
      TrimBlank(reason);
  }
}
