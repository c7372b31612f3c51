/** The store's transactions as interleaved statements over shared tables, one advisory lock
    per hashed idempotency key and one row lock per question. */
module Transactions {
  import opened Base
  import opened Text
  import opened Domain
  import opened Store
  import opened Tables
  import opened Ledger

  /** How far a transaction has come, with what it has read and privately written. */
  datatype Phase =
    | Idle
    | Begun                                                  // clock read, tenant set
    | KeyHeld                                                // advisory lock granted
    | Swept(dropped: bool)                                   // expired key row deleted
    | Looked(dropped: bool, live: Option<KeyRow>)            // key row selected
    | Loaded(dropped: bool, row: Option<QuestionRow>)        // SELECT ... FOR UPDATE returned
    | Updated(dropped: bool, written: QuestionRow)               // UPDATE questions done, pointer read
    | Prepared(delta: Delta, result: Result<Snapshot, Error>)  // every row written, not committed
    | Finished(result: Result<Snapshot, Error>)

  datatype State = State(
    db: Db, phases: seq<Phase>, keyLocks: map<int, nat>, rowLocks: map<Guid, nat>, order: seq<nat>)

  function LockId(hash: string -> int, c: Call): int
    requires c.Approval?
  {
    hash(LockText(c.tenantId, c.key))
  }

  /** FOR UPDATE waits only when the row exists and another transaction holds it. */
  predicate RowFree(s: State, c: Call)
    requires !c.Create?
  {
    TargetRow(s.db, c).Some? ==> c.id !in s.rowLocks
  }

  /** A caller can only know an id once the create that issued it has returned. */
  ghost predicate IdKnown(program: seq<Event>, phases: seq<Phase>, id: Guid)
    requires |phases| == |program|
  {
    forall j :: 0 <= j < |program| && program[j].call.Create? && program[j].ticket.questionId == id ==>
      phases[j].Finished?
  }

  ghost predicate CanStep(program: seq<Event>, hash: string -> int, s: State, i: nat)
    requires |s.phases| == |program| && i < |program|
  {
    var c := program[i].call;
    match s.phases[i]
    case Idle => c.Create? || IdKnown(program, s.phases, c.id)
    case Begun =>
      if c.Create? || c.tenantId == EMPTY_GUID then true
      else if c.Mutate? then RowFree(s, c)
      else LockId(hash, c) !in s.keyLocks
    case Looked(_, live) => live.Some? || c.Create? || RowFree(s, c)
    case Finished(_) => false
    case _ => true
  }

  function Moved(s: State, i: nat, p: Phase): State
    requires i < |s.phases|
  {
    s.(phases := s.phases[i := p])
  }

  /** SELECT ... FOR UPDATE: read the row and lock it if it is there. */
  function Load(program: seq<Event>, s: State, i: nat, dropped: bool): State
    requires |s.phases| == |program| && i < |program| && !program[i].call.Create?
  {
    var c := program[i].call;
    var row := TargetRow(s.db, c);
    Moved(s, i, Loaded(dropped, row)).(rowLocks := if row.Some? then s.rowLocks[c.id := i] else s.rowLocks)
  }

  function Commit(program: seq<Event>, s: State, i: nat, d: Delta, r: Result<Snapshot, Error>): State
    requires |s.phases| == |program| && i < |program|
  {
    State(Committed(s.db, program[i], d), s.phases[i := Finished(r)],
          map h | h in s.keyLocks && s.keyLocks[h] != i :: s.keyLocks[h],
          map q | q in s.rowLocks && s.rowLocks[q] != i :: s.rowLocks[q],
          s.order + [i])
  }

  /** The next statement of transaction i. */
  function Next(program: seq<Event>, hash: string -> int, s: State, i: nat): State
    requires |s.phases| == |program| && i < |program|
  {
    var e := program[i];
    var c := e.call;
    match s.phases[i]
    case Idle => Moved(s, i, Begun)
    case Begun =>
      if c.Create? then
        var (d, r) := CreateOutcome(s.db, e);
        Moved(s, i, Prepared(d, r))
      else if c.tenantId == EMPTY_GUID then Moved(s, i, Prepared(NOTHING, Err(Argument(EmptyTenant))))
      else if c.Mutate? then Load(program, s, i, false)
      else Moved(s, i, KeyHeld).(keyLocks := s.keyLocks[LockId(hash, c) := i])
    case KeyHeld =>
      if !c.Approval? then s else Moved(s, i, Swept(Expired(KeyRowOf(s.db, KeyOf(c)), e.ticket.now)))
    case Swept(dropped) =>
      if !c.Approval? then s else Moved(s, i, Looked(dropped, if dropped then None else KeyRowOf(s.db, KeyOf(c))))
    case Looked(dropped, live) =>
      if !c.Approval? then s
      else if live.Some? then
        Moved(s, i, Prepared(NOTHING,
          if live.value.fingerprint != FingerprintOf(c) then Err(Rule(KeyReused)) else Ok(live.value.response)))
      else Load(program, s, i, dropped)
    case Loaded(dropped, row) =>
      if c.Create? then s
      else
        (match Judge(row, c, e.ticket.now)
         case Err(code) => Moved(s, i, Prepared(Refused(e, dropped, code), Err(Rule(code))))
         case Ok(t) => Moved(s, i, Updated(dropped, QuestionRow(t, Pointer(s.db.revisions, t)))))
    case Updated(dropped, row) => Moved(s, i, Prepared(Accepted(e, dropped, row), Ok(row.data)))
    case Prepared(d, r) => Commit(program, s, i, d, r)
    case Finished(_) => s
  }

  function Start(program: seq<Event>, db: Db): State {
    State(db, seq(|program|, _ => Idle), map[], map[], [])
  }

  /** The state after the transactions named by the schedule took one step each, in that order. */
  function After(program: seq<Event>, hash: string -> int, db: Db, schedule: seq<nat>): (s: State)
    requires forall k :: 0 <= k < |schedule| ==> schedule[k] < |program|
    ensures |s.phases| == |program|
    decreases |schedule|
  {
    if schedule == [] then Start(program, db)
    else Next(program, hash, After(program, hash, db, schedule[..|schedule| - 1]), schedule[|schedule| - 1])
  }

  /** A schedule only moves transactions that are not waiting. */
  ghost predicate Allowed(program: seq<Event>, hash: string -> int, db: Db, schedule: seq<nat>)
    decreases |schedule|
  {
    && (forall k :: 0 <= k < |schedule| ==> schedule[k] < |program|)
    && (schedule != [] ==>
          && Allowed(program, hash, db, schedule[..|schedule| - 1])
          && CanStep(program, hash, After(program, hash, db, schedule[..|schedule| - 1]), schedule[|schedule| - 1]))
  }

  /** Creates issue distinct new ids. */
  ghost predicate FreshIds(program: seq<Event>, db: Db) {
    && (forall i :: 0 <= i < |program| && program[i].call.Create? ==> program[i].ticket.questionId !in db.questions)
    && (forall i, j :: 0 <= i < j < |program| && program[i].call.Create? && program[j].call.Create? ==>
          program[i].ticket.questionId != program[j].ticket.questionId)
  }

  // ------------------------------------------------------------------ invariant

  predicate HoldsKey(e: Event, p: Phase) {
    e.call.Approval? && e.call.tenantId != EMPTY_GUID && !p.Idle? && !p.Begun? && !p.Finished?
  }

  /** A live key answers the call without touching its question. */
  predicate ReadsRow(db: Db, e: Event) {
    && !e.call.Create? && e.call.tenantId != EMPTY_GUID
    && (e.call.Approval? ==> KeyRowOf(db, KeyOf(e.call)).None? || Expired(KeyRowOf(db, KeyOf(e.call)), e.ticket.now))
  }

  /** The transaction has read its question. */
  predicate PastLoad(db: Db, e: Event, p: Phase) {
    (p.Loaded? || p.Updated? || p.Prepared?) && ReadsRow(db, e)
  }

  predicate DropFlag(db: Db, e: Event, dropped: bool) {
    dropped == (e.call.Approval? && Expired(KeyRowOf(db, KeyOf(e.call)), e.ticket.now))
  }

  /** What a transaction has read is still what the tables say, and what it has written is what
      it would write if it ran alone now. */
  predicate Faithful(db: Db, e: Event, p: Phase) {
    match p
    case Idle => true
    case Begun => true
    case Finished(_) => true
    case KeyHeld => HoldsKey(e, p)
    case Swept(dropped) => HoldsKey(e, p) && DropFlag(db, e, dropped)
    case Looked(dropped, live) =>
      HoldsKey(e, p) && DropFlag(db, e, dropped) && live == if dropped then None else KeyRowOf(db, KeyOf(e.call))
    case Loaded(dropped, row) => ReadsRow(db, e) && DropFlag(db, e, dropped) && row == TargetRow(db, e.call)
    case Updated(dropped, row) =>
      && ReadsRow(db, e) && DropFlag(db, e, dropped)
      && Judge(TargetRow(db, e.call), e.call, e.ticket.now) == Ok(row.data)
      && row.publishedRevision == Pointer(db.revisions, row.data)
    case Prepared(d, r) => (d, r) == Transaction(db, e)
  }

  ghost predicate Local(program: seq<Event>, hash: string -> int, s: State, i: nat)
    requires |s.phases| == |program| && i < |program|
  {
    var e, p := program[i], s.phases[i];
    && Faithful(s.db, e, p)
    && (HoldsKey(e, p) ==> LockId(hash, e.call) in s.keyLocks && s.keyLocks[LockId(hash, e.call)] == i)
    && (PastLoad(s.db, e, p) && TargetRow(s.db, e.call).Some? ==> e.call.id in s.rowLocks && s.rowLocks[e.call.id] == i)
    && (!p.Idle? && !e.call.Create? ==> IdKnown(program, s.phases, e.call.id))
    && (e.call.Create? && !p.Finished? ==> e.ticket.questionId !in s.db.questions)
  }

  /** Every lock belongs to a transaction that has taken it and not finished. */
  ghost predicate LocksOwned(program: seq<Event>, hash: string -> int, s: State)
    requires |s.phases| == |program|
  {
    && (forall h :: h in s.keyLocks ==>
          && s.keyLocks[h] < |program|
          && HoldsKey(program[s.keyLocks[h]], s.phases[s.keyLocks[h]])
          && LockId(hash, program[s.keyLocks[h]].call) == h)
    && (forall q :: q in s.rowLocks ==>
          && s.rowLocks[q] < |program|
          && !program[s.rowLocks[q]].call.Create?
          && (var p := s.phases[s.rowLocks[q]]; p.Loaded? || p.Updated? || p.Prepared?))
  }

  function Ordered(program: seq<Event>, order: seq<nat>): (events: seq<Event>)
    requires forall k :: 0 <= k < |order| ==> order[k] < |program|
    ensures |events| == |order|
  {
    seq(|order|, k requires 0 <= k < |order| => program[order[k]])
  }

  /** The finishing order is an enumeration of the finished transactions, and the tables and
      results are those of running them one at a time in that order. */
  ghost predicate Serial(program: seq<Event>, db0: Db, s: State)
    requires |s.phases| == |program|
  {
    && (forall k :: 0 <= k < |s.order| ==> s.order[k] < |program|)
    && (forall k, l :: 0 <= k < l < |s.order| ==> s.order[k] != s.order[l])
    && (forall i :: 0 <= i < |program| ==> (s.phases[i].Finished? <==> i in s.order))
    && var events := Ordered(program, s.order);
       && s.db == Run(db0, events)
       && forall k :: 0 <= k < |s.order| ==>
            s.phases[s.order[k]] == Finished(Transaction(Run(db0, events[..k]), events[k]).1)
  }

  ghost predicate Inv(program: seq<Event>, hash: string -> int, db0: Db, s: State) {
    && |s.phases| == |program|
    && Kept(s.db) && LocksOwned(program, hash, s) && Serial(program, db0, s)
    && forall i :: 0 <= i < |program| ==> Local(program, hash, s, i)
  }

  lemma StartInv(program: seq<Event>, hash: string -> int, db0: Db)
    requires FreshIds(program, db0) && Kept(db0)
    ensures Inv(program, hash, db0, Start(program, db0))
  {
    assert Ordered(program, []) == [];
  }

  // ------------------------------------------- steps that leave the tables alone

  /** A step of one transaction that commits nothing: at most it takes one free lock. */
  lemma QuietKeeps(program: seq<Event>, hash: string -> int, db0: Db, s: State, t: State, i: nat)
    requires Inv(program, hash, db0, s) && i < |program|
    requires t.db == s.db && t.order == s.order && |t.phases| == |program|
    requires t.phases == s.phases[i := t.phases[i]] && !s.phases[i].Finished? && !t.phases[i].Finished?
    requires forall h :: h in s.keyLocks ==> h in t.keyLocks && t.keyLocks[h] == s.keyLocks[h]
    requires forall q :: q in s.rowLocks ==> q in t.rowLocks && t.rowLocks[q] == s.rowLocks[q]
    requires LocksOwned(program, hash, t) && Local(program, hash, t, i)
    ensures Inv(program, hash, db0, t)
  {
    hide Kept, LockText, Transaction, LocksOwned, Faithful, HoldsKey, PastLoad;
    forall j | 0 <= j < |program| ensures Local(program, hash, t, j) {
      if j != i {
        assert Local(program, hash, s, j);
        assert forall id :: IdKnown(program, s.phases, id) ==> IdKnown(program, t.phases, id);
      }
    }
  }

  /** A private step: the new phase is faithful and claims no lock the old one did not. */
  lemma PrivateKeeps(program: seq<Event>, hash: string -> int, db0: Db, s: State, i: nat, p: Phase)
    requires Inv(program, hash, db0, s) && i < |program| && !s.phases[i].Finished? && !p.Finished? && !p.Idle?
    requires Faithful(s.db, program[i], p)
    requires HoldsKey(program[i], p) <==> HoldsKey(program[i], s.phases[i])
    requires PastLoad(s.db, program[i], p) ==> PastLoad(s.db, program[i], s.phases[i])
    requires s.phases[i].Loaded? || s.phases[i].Updated? || s.phases[i].Prepared? ==>
      p.Loaded? || p.Updated? || p.Prepared?
    requires program[i].call.Create? || IdKnown(program, s.phases, program[i].call.id)
    ensures Inv(program, hash, db0, Moved(s, i, p))
  {
    hide Kept, Serial, LockText, Transaction;
    var t := Moved(s, i, p);
    assert Local(program, hash, s, i);
    assert !program[i].call.Create? ==> IdKnown(program, t.phases, program[i].call.id);
    assert Local(program, hash, t, i);
    assert LocksOwned(program, hash, t);
    QuietKeeps(program, hash, db0, s, t, i);
  }

  lemma AcquireKeeps(program: seq<Event>, hash: string -> int, db0: Db, s: State, i: nat)
    requires Inv(program, hash, db0, s) && i < |program| && s.phases[i].Begun?
    requires program[i].call.Approval? && program[i].call.tenantId != EMPTY_GUID
      && LockId(hash, program[i].call) !in s.keyLocks
    ensures Inv(program, hash, db0, Moved(s, i, KeyHeld).(keyLocks := s.keyLocks[LockId(hash, program[i].call) := i]))
  {
    hide Kept, Serial, LockText, Transaction;
    var t := Moved(s, i, KeyHeld).(keyLocks := s.keyLocks[LockId(hash, program[i].call) := i]);
    assert Local(program, hash, s, i);
    assert IdKnown(program, t.phases, program[i].call.id);
    assert Local(program, hash, t, i);
    assert LocksOwned(program, hash, t);
    QuietKeeps(program, hash, db0, s, t, i);
  }

  lemma LoadKeeps(program: seq<Event>, hash: string -> int, db0: Db, s: State, i: nat, dropped: bool)
    requires Inv(program, hash, db0, s) && i < |program| && !program[i].call.Create?
    requires s.phases[i].Begun? || s.phases[i].Looked?
    requires HoldsKey(program[i], s.phases[i]) <==> program[i].call.Approval?
    requires ReadsRow(s.db, program[i]) && DropFlag(s.db, program[i], dropped) && RowFree(s, program[i].call)
    ensures Inv(program, hash, db0, Load(program, s, i, dropped))
  {
    hide Kept, Serial, Rejection, Changed, LockText, Transaction;
    var t := Load(program, s, i, dropped);
    assert Local(program, hash, s, i);
    assert IdKnown(program, t.phases, program[i].call.id);
    assert Local(program, hash, t, i);
    assert LocksOwned(program, hash, t);
    QuietKeeps(program, hash, db0, s, t, i);
  }

  /** A transaction that got past its key computes the decision the whole call would. */
  lemma DecisionIsTransaction(db: Db, e: Event, dropped: bool)
    requires ReadsRow(db, e) && DropFlag(db, e, dropped)
    ensures Transaction(db, e) == Decision(db, e, dropped)
  {
  }

  lemma LiveIsTransaction(db: Db, e: Event, row: KeyRow)
    requires e.call.Approval? && e.call.tenantId != EMPTY_GUID
    requires KeyRowOf(db, KeyOf(e.call)) == Some(row) && row.expiresAt > e.ticket.now
    ensures Transaction(db, e) ==
      (NOTHING, if row.fingerprint != FingerprintOf(e.call) then Err(Rule(KeyReused)) else Ok(row.response))
  {
  }

  /** Every step but a commit keeps the invariant. */
  lemma EarlyStepKeeps(program: seq<Event>, hash: string -> int, db0: Db, s: State, i: nat)
    requires Inv(program, hash, db0, s) && i < |program| && CanStep(program, hash, s, i)
    requires s.phases[i].Idle? || s.phases[i].Begun? || s.phases[i].KeyHeld? || s.phases[i].Swept?
      || s.phases[i].Looked?
    ensures Inv(program, hash, db0, Next(program, hash, s, i))
  {
    hide Fingerprint, Rejection, Changed, Kept, LocksOwned, Serial;
    var e := program[i];
    assert Local(program, hash, s, i);
    match s.phases[i]
    case Idle => PrivateKeeps(program, hash, db0, s, i, Begun);
    case Begun =>
      if e.call.Create? {
        var (d, r) := CreateOutcome(s.db, e);
        PrivateKeeps(program, hash, db0, s, i, Prepared(d, r));
      } else if e.call.tenantId == EMPTY_GUID {
        PrivateKeeps(program, hash, db0, s, i, Prepared(NOTHING, Err(Argument(EmptyTenant))));
      } else if e.call.Mutate? {
        LoadKeeps(program, hash, db0, s, i, false);
      } else {
        AcquireKeeps(program, hash, db0, s, i);
      }
    case KeyHeld => PrivateKeeps(program, hash, db0, s, i, Swept(Expired(KeyRowOf(s.db, KeyOf(e.call)), e.ticket.now)));
    case Swept(dropped) =>
      PrivateKeeps(program, hash, db0, s, i, Looked(dropped, if dropped then None else KeyRowOf(s.db, KeyOf(e.call))));
    case Looked(dropped, live) =>
      if live.Some? {
        LiveIsTransaction(s.db, e, live.value);
        var (d, r) := Transaction(s.db, e);
        PrivateKeeps(program, hash, db0, s, i, Prepared(d, r));
      } else {
        LoadKeeps(program, hash, db0, s, i, dropped);
      }
  }

  lemma LateStepKeeps(program: seq<Event>, hash: string -> int, db0: Db, s: State, i: nat)
    requires Inv(program, hash, db0, s) && i < |program|
    requires s.phases[i].Loaded? || s.phases[i].Updated?
    ensures Inv(program, hash, db0, Next(program, hash, s, i))
  {
    hide Fingerprint, Rejection, Changed, Kept, LocksOwned, Serial, Transaction;
    var e := program[i];
    assert Local(program, hash, s, i);
    DecisionIsTransaction(s.db, e, s.phases[i].dropped);
    match s.phases[i]
    case Loaded(dropped, row) =>
      match Judge(row, e.call, e.ticket.now) {
        case Err(code) => PrivateKeeps(program, hash, db0, s, i, Prepared(Refused(e, dropped, code), Err(Rule(code))));
        case Ok(t) => PrivateKeeps(program, hash, db0, s, i,
          Updated(dropped, QuestionRow(t, Pointer(s.db.revisions, t))));
      }
    case Updated(dropped, row) => PrivateKeeps(program, hash, db0, s, i,
      Prepared(Accepted(e, dropped, row), Ok(row.data)));
  }

  // --------------------------------------------------------------------- commits

  lemma KeyRowStays(db: Db, e: Event, d: Delta, key: Key)
    requires e.call.Approval? ==> KeyOf(e.call) != key
    ensures KeyRowOf(Committed(db, e, d), key) == KeyRowOf(db, key)
  {
  }

  lemma LookupStays(revisions: seq<RevisionRow>, row: RevisionRow, tenantId: Guid, id: Guid,
                    version: int)
    requires row.data.id != id || row.data.tenantId != tenantId
    ensures Lookup(revisions + [row], tenantId, id, version) == Lookup(revisions, tenantId, id, version)
  {
    assert (revisions + [row])[..|revisions|] == revisions;
  }

  /** Two table states look alike to a call once it has its row. */
  ghost predicate SameTarget(db: Db, other: Db, c: Call)
    requires !c.Create?
  {
    && TargetRow(db, c) == TargetRow(other, c)
    && forall v: int :: Lookup(db.revisions, c.tenantId, c.id, v) == Lookup(other.revisions, c.tenantId, c.id, v)
  }

  /** The rows a call writes: all about its target, none unless it holds what it needs. */
  ghost predicate WritesTarget(db: Db, e: Event, d: Delta) {
    && (d.question.None? ==> d.revision.None?)
    && (d.question.Some? ==>
          && d.question.value.data.id == Target(e)
          && d.revision.Some? && d.revision.value.data == d.question.value.data
          && (!e.call.Create? ==>
                ReadsRow(db, e) && TargetRow(db, e.call).Some? && d.question.value.data.tenantId == e.call.tenantId))
  }

  lemma TransactionWritesTarget(db: Db, e: Event)
    requires Kept(db)
    ensures WritesTarget(db, e, Transaction(db, e).0)
  {
    hide Fingerprint;
    var d := Transaction(db, e).0;
    if d.question.Some? {
      AcceptedNames(db, e);
      if !e.call.Create? {
        AcceptedIsDecision(db, e);
        assert RowKept(db, e.call.id);
        ExecuteSucceeds(db.questions[e.call.id].data, CommandOf(e.call), e.ticket.now);
      }
    }
  }

  lemma TargetStays(db: Db, e: Event, d: Delta, c: Call)
    requires WritesTarget(db, e, d) && !c.Create?
    requires d.question.Some? ==>
      Target(e) != c.id || (d.question.value.data.tenantId != c.tenantId && TargetRow(db, c).None?)
    ensures SameTarget(db, Committed(db, e, d), c)
  {
    forall v: int
      ensures Lookup(Committed(db, e, d).revisions, c.tenantId, c.id, v) == Lookup(db.revisions, c.tenantId, c.id, v)
    {
      if d.revision.Some? {
        LookupStays(db.revisions, d.revision.value, c.tenantId, c.id, v);
      }
    }
  }

  lemma SameDecision(db: Db, other: Db, e: Event, dropped: bool)
    requires Kept(db) && !e.call.Create? && SameTarget(db, other, e.call)
    ensures Decision(other, e, dropped) == Decision(db, e, dropped)
    ensures Judge(TargetRow(db, e.call), e.call, e.ticket.now).Ok? ==>
      var s := Judge(TargetRow(db, e.call), e.call, e.ticket.now).value;
      s.id == e.call.id && Pointer(other.revisions, s) == Pointer(db.revisions, s)
  {
    var row := TargetRow(db, e.call);
    if Judge(row, e.call, e.ticket.now).Ok? {
      assert RowKept(db, e.call.id);
      ExecuteSucceeds(row.value.data, CommandOf(e.call), e.ticket.now);
    }
  }

  /** A transaction's phase stays faithful across a change that spares its key and its row. */
  lemma FaithfulStays(db: Db, other: Db, e: Event, p: Phase)
    requires Kept(db) && Faithful(db, e, p)
    requires HoldsKey(e, p) ==> KeyRowOf(other, KeyOf(e.call)) == KeyRowOf(db, KeyOf(e.call))
    requires PastLoad(db, e, p) ==> SameTarget(db, other, e.call)
    requires e.call.Create? && !p.Finished? ==>
      e.ticket.questionId !in db.questions && e.ticket.questionId !in other.questions
    ensures Faithful(other, e, p)
    ensures PastLoad(other, e, p) <==> PastLoad(db, e, p)
  {
    hide Kept, Fingerprint, Execute;
    if p.Prepared? && !e.call.Create? && e.call.tenantId != EMPTY_GUID {
      assert ReadsRow(db, e) <==> ReadsRow(other, e);
      if ReadsRow(db, e) {
        var dropped := e.call.Approval? && Expired(KeyRowOf(db, KeyOf(e.call)), e.ticket.now);
        SameDecision(db, other, e, dropped);
        DecisionIsTransaction(db, e, dropped);
        DecisionIsTransaction(other, e, dropped);
      } else {
        LiveIsTransaction(db, e, KeyRowOf(db, KeyOf(e.call)).value);
        LiveIsTransaction(other, e, KeyRowOf(db, KeyOf(e.call)).value);
      }
    } else if p.Updated? {
      SameDecision(db, other, e, p.dropped);
    }
  }

  /** A commit spares the key and the row of every other transaction under way: equal keys hash to
      one lock, and a row that exists has one holder. */
  lemma CommitSpares(program: seq<Event>, hash: string -> int, db0: Db, s: State, i: nat, j: nat)
    requires Inv(program, hash, db0, s) && i < |program| && j < |program| && i != j && s.phases[i].Prepared?
    ensures var e, f, p := program[i], program[j], s.phases[j];
            var after := Committed(s.db, e, s.phases[i].delta);
            && (HoldsKey(f, p) ==> KeyRowOf(after, KeyOf(f.call)) == KeyRowOf(s.db, KeyOf(f.call)))
            && (PastLoad(s.db, f, p) ==> SameTarget(s.db, after, f.call))
  {
    hide LockText, Fingerprint, Judge, Decision, CreateOutcome, RowKept, Serial;
    var e, f, p, d := program[i], program[j], s.phases[j], s.phases[i].delta;
    assert Local(program, hash, s, i) && Local(program, hash, s, j);
    if HoldsKey(f, p) {
      if e.call.Approval? && e.call.tenantId == EMPTY_GUID {
        assert KeyOf(e.call) != KeyOf(f.call);
      }
      KeyRowStays(s.db, e, d, KeyOf(f.call));
    }
    if PastLoad(s.db, f, p) {
      TransactionWritesTarget(s.db, e);
      if d.question.Some? && Target(e) == f.call.id {
        assert !e.call.Create?;
        assert s.rowLocks[e.call.id] == i;
        assert TargetRow(s.db, f.call).None?;
      }
      TargetStays(s.db, e, d, f.call);
    }
  }

  lemma CommitKeepsLocal(program: seq<Event>, hash: string -> int, db0: Db, s: State, i: nat, j: nat)
    requires Inv(program, hash, db0, s) && FreshIds(program, db0) && i < |program| && j < |program|
      && s.phases[i].Prepared?
    ensures Local(program, hash, Commit(program, s, i, s.phases[i].delta, s.phases[i].result), j)
  {
    hide LockText, Fingerprint, Judge, Decision, CreateOutcome, RowKept, Serial, Faithful;
    var t := Commit(program, s, i, s.phases[i].delta, s.phases[i].result);
    assert forall id :: IdKnown(program, s.phases, id) ==> IdKnown(program, t.phases, id);
    assert Local(program, hash, s, i) && Local(program, hash, s, j);
    if i == j {
      FinishedIsLocal(program, hash, t, i);
    } else {
      CommitSpares(program, hash, db0, s, i, j);
      if program[j].call.Create? && !s.phases[j].Finished? {
        CommitSparesId(program, hash, db0, s, i, j);
      }
      FaithfulStays(s.db, t.db, program[j], s.phases[j]);
    }
  }

  lemma FinishedIsLocal(program: seq<Event>, hash: string -> int, t: State, i: nat)
    requires |t.phases| == |program| && i < |program| && t.phases[i].Finished?
    requires !program[i].call.Create? ==> IdKnown(program, t.phases, program[i].call.id)
    ensures Local(program, hash, t, i)
  {
  }

  lemma CommitSparesId(program: seq<Event>, hash: string -> int, db0: Db, s: State, i: nat, j: nat)
    requires Inv(program, hash, db0, s) && FreshIds(program, db0) && i < |program| && j < |program| && i != j
    requires s.phases[i].Prepared? && program[j].call.Create? && !s.phases[j].Finished?
    ensures program[j].ticket.questionId !in Committed(s.db, program[i], s.phases[i].delta).questions
  {
    hide LockText, Fingerprint, Judge, Decision, CreateOutcome, RowKept, Serial;
    assert Local(program, hash, s, i) && Local(program, hash, s, j);
    TransactionWritesTarget(s.db, program[i]);
  }

  lemma OrderedSnoc(program: seq<Event>, order: seq<nat>, i: nat)
    requires i < |program| && forall k :: 0 <= k < |order| ==> order[k] < |program|
    ensures Ordered(program, order + [i]) == Ordered(program, order) + [program[i]]
  {
  }

  lemma CommitKeepsSerial(program: seq<Event>, db0: Db, s: State, i: nat)
    requires |s.phases| == |program| && Serial(program, db0, s) && i < |program| && s.phases[i].Prepared?
    requires s.phases[i].result == Transaction(s.db, program[i]).1
    requires Committed(s.db, program[i], s.phases[i].delta) == Step(s.db, program[i])
    ensures Serial(program, db0, Commit(program, s, i, s.phases[i].delta, s.phases[i].result))
  {
    hide Transaction, Committed, Run, Step;
    var t := Commit(program, s, i, s.phases[i].delta, s.phases[i].result);
    var events, grown := Ordered(program, s.order), Ordered(program, t.order);
    OrderedSnoc(program, s.order, i);
    RunSnoc(db0, events, program[i]);
    assert t.db == Run(db0, grown);
    forall k | 0 <= k < |t.order|
      ensures t.phases[t.order[k]] == Finished(Transaction(Run(db0, grown[..k]), grown[k]).1)
    {
      assert grown[..k] == events[..k];
      if k < |s.order| {
        assert s.order[k] != i;
        assert grown[k] == events[k];
      } else {
        assert events[..k] == events;
      }
    }
    forall j | 0 <= j < |program| ensures t.phases[j].Finished? <==> j in t.order {
      assert j in t.order <==> j in s.order || j == i;
    }
  }

  lemma CommitStepKeeps(program: seq<Event>, hash: string -> int, db0: Db, s: State, i: nat)
    requires Inv(program, hash, db0, s) && FreshIds(program, db0) && i < |program| && s.phases[i].Prepared?
    ensures Inv(program, hash, db0, Next(program, hash, s, i))
  {
    hide LockText, Transaction, Kept, Serial, Faithful;
    var t := Commit(program, s, i, s.phases[i].delta, s.phases[i].result);
    assert Local(program, hash, s, i);
    PreparedIsTransaction(s.db, program[i], s.phases[i]);
    StepKeeps(s.db, program[i]);
    CommitKeepsSerial(program, db0, s, i);
    forall j | 0 <= j < |program| ensures Local(program, hash, t, j) {
      CommitKeepsLocal(program, hash, db0, s, i, j);
    }
    assert LocksOwned(program, hash, t);
  }

  lemma PreparedIsTransaction(db: Db, e: Event, p: Phase)
    requires p.Prepared? && Faithful(db, e, p)
    ensures (p.delta, p.result) == Transaction(db, e) && Committed(db, e, p.delta) == Step(db, e)
  {
  }

  lemma StepInv(program: seq<Event>, hash: string -> int, db0: Db, s: State, i: nat)
    requires Inv(program, hash, db0, s) && FreshIds(program, db0) && i < |program| && CanStep(program, hash, s, i)
    ensures Inv(program, hash, db0, Next(program, hash, s, i))
  {
    assert |s.phases| == |program|;
    hide LockText, Transaction, Inv, FreshIds;
    match s.phases[i]
    case Loaded(_, _) => LateStepKeeps(program, hash, db0, s, i);
    case Updated(_, _) => LateStepKeeps(program, hash, db0, s, i);
    case Prepared(_, _) => CommitStepKeeps(program, hash, db0, s, i);
    case Finished(_) =>
    case _ => EarlyStepKeeps(program, hash, db0, s, i);
  }

  lemma {:induction false} ReachableInv(program: seq<Event>, hash: string -> int, db0: Db, schedule: seq<nat>)
    requires FreshIds(program, db0) && Kept(db0) && Allowed(program, hash, db0, schedule)
    ensures Inv(program, hash, db0, After(program, hash, db0, schedule))
    decreases |schedule|
  {
    hide LockText, Inv, FreshIds, Kept, Next, CanStep, Start;
    if schedule == [] {
      StartInv(program, hash, db0);
    } else {
      var before := schedule[..|schedule| - 1];
      ReachableInv(program, hash, db0, before);
      StepInv(program, hash, db0, After(program, hash, db0, before), schedule[|schedule| - 1]);
    }
  }
}
