/** What the interleaved transactions guarantee: serial results, agreement with the in-memory
    store, no deadlock, and completion. */
module Liveness {
  import opened Text
  import opened Domain
  import opened Store
  import opened Tables
  import opened Ledger
  import opened Transactions
  import Mem = MemoryStore
  import opened Agreement

  /** Every interleaving leaves the tables, and returns the results, of running the finished calls
      one at a time in the order they finished, each with the clock value it read; and every
      table rule of the serial store holds in between. */
  lemma EveryInterleavingIsSerial(program: seq<Event>, hash: string -> int, db0: Db,
                                  schedule: seq<nat>)
    requires FreshIds(program, db0) && Kept(db0) && Allowed(program, hash, db0, schedule)
    ensures Serial(program, db0, After(program, hash, db0, schedule))
    ensures Kept(After(program, hash, db0, schedule).db)
  {
    ReachableInv(program, hash, db0, schedule);
  }

  /** From empty tables the interleaved store agrees with the locked in-memory store that takes the
      calls in finishing order: same states, same keys, same success rows, same results. */
  lemma InterleavedStoreAgrees(program: seq<Event>, hash: string -> int, schedule: seq<nat>, k: nat)
    requires FreshIds(program, EMPTY) && Allowed(program, hash, EMPTY, schedule)
    requires forall i :: 0 <= i < |program| ==> TenantGiven(program[i].call)
    requires k < |After(program, hash, EMPTY, schedule).order|
    ensures var s := After(program, hash, EMPTY, schedule);
      && (forall l :: 0 <= l < |s.order| ==> s.order[l] < |program|)
      && var events := Ordered(program, s.order);
         && Agree(Mem.Run(Mem.EMPTY, events), s.db)
         && s.phases[s.order[k]] == Finished(Mem.Step(Mem.Run(Mem.EMPTY, events[..k]), events[k]).1)
  {
    hide Transaction, Mem.Step, Agree, LockText, TenantGiven, FreshIds;
    EmptyKept();
    EveryInterleavingIsSerial(program, hash, EMPTY, schedule);
    var s := After(program, hash, EMPTY, schedule);
    var events := Ordered(program, s.order);
    RunAgrees(events);
    ResultsAgree(events, k);
    assert events[k] == program[s.order[k]];
  }

  // ------------------------------------------------------------ deadlock freedom

  ghost predicate WaitsForKey(program: seq<Event>, hash: string -> int, s: State, i: nat, j: nat)
    requires |s.phases| == |program| && i < |program|
  {
    var c := program[i].call;
    && s.phases[i].Begun? && c.Approval? && c.tenantId != EMPTY_GUID
    && LockId(hash, c) in s.keyLocks && s.keyLocks[LockId(hash, c)] == j
  }

  ghost predicate WaitsForRow(program: seq<Event>, s: State, i: nat, j: nat)
    requires |s.phases| == |program| && i < |program|
  {
    var c := program[i].call;
    && ((s.phases[i].Begun? && c.Mutate?) || (s.phases[i].Looked? && c.Approval?))
    && TargetRow(s.db, c).Some? && c.id in s.rowLocks && s.rowLocks[c.id] == j
  }

  ghost predicate WaitsFor(program: seq<Event>, hash: string -> int, s: State, i: nat, j: nat)
    requires |s.phases| == |program| && i < |program|
  {
    WaitsForKey(program, hash, s, i, j) || WaitsForRow(program, s, i, j)
  }

  /** The locks a transaction may still have to wait for. */
  function LocksAhead(e: Event, p: Phase): nat {
    if p.Loaded? || p.Updated? || p.Prepared? || p.Finished? then 0
    else if e.call.Approval? && (p.Idle? || p.Begun?) then 2
    else 1
  }

  lemma HolderIsAhead(program: seq<Event>, hash: string -> int, s: State, i: nat, j: nat)
    requires |s.phases| == |program| && i < |program| && LocksOwned(program, hash, s)
      && WaitsFor(program, hash, s, i, j)
    ensures j < |program| && LocksAhead(program[j], s.phases[j]) < LocksAhead(program[i], s.phases[i])
  {
  }

  ghost predicate WaitChain(program: seq<Event>, hash: string -> int, s: State, chain: seq<nat>)
    requires |s.phases| == |program|
  {
    && chain != [] && (forall k :: 0 <= k < |chain| ==> chain[k] < |program|)
    && forall k :: 0 <= k < |chain| - 1 ==> WaitsFor(program, hash, s, chain[k], chain[k + 1])
  }

  lemma {:induction false} ChainDescends(program: seq<Event>, hash: string -> int, s: State, chain: seq<nat>, k: nat)
    requires |s.phases| == |program| && LocksOwned(program, hash, s) && WaitChain(program, hash, s, chain)
      && k < |chain|
    ensures LocksAhead(program[chain[k]], s.phases[chain[k]]) + k <= LocksAhead(program[chain[0]], s.phases[chain[0]])
    decreases k
  {
    if k > 0 {
      ChainDescends(program, hash, s, chain, k - 1);
      HolderIsAhead(program, hash, s, chain[k - 1], chain[k]);
    }
  }

  /** In every reachable state waiting never closes a cycle, even when two keys hash to one lock: a
      chain of waiting transactions has at most two waits, and never returns to its start. */
  lemma NoDeadlock(program: seq<Event>, hash: string -> int, db0: Db, schedule: seq<nat>,
                   chain: seq<nat>)
    requires FreshIds(program, db0) && Kept(db0) && Allowed(program, hash, db0, schedule)
    requires WaitChain(program, hash, After(program, hash, db0, schedule), chain)
    ensures |chain| <= 3
    ensures |chain| > 1 ==> chain[|chain| - 1] != chain[0]
  {
    hide FreshIds, Kept, Serial, Local, LocksOwned, WaitsFor, Next, CanStep;
    ReachableInv(program, hash, db0, schedule);
    ChainDescends(program, hash, After(program, hash, db0, schedule), chain, |chain| - 1);
  }

  // ------------------------------------------------------------------- completion

  lemma CreatesNeverWait(program: seq<Event>, hash: string -> int, db0: Db, s: State, i: nat)
    requires Inv(program, hash, db0, s) && i < |program| && program[i].call.Create? && !s.phases[i].Finished?
    ensures CanStep(program, hash, s, i)
  {
    hide Kept, Serial, LockText, Transaction;
    assert Local(program, hash, s, i);
  }

  lemma RowHoldersNeverWait(program: seq<Event>, hash: string -> int, db0: Db, s: State, q: Guid)
    requires Inv(program, hash, db0, s) && q in s.rowLocks
    ensures s.rowLocks[q] < |program| && CanStep(program, hash, s, s.rowLocks[q])
  {
    hide Kept, Serial, LockText, Transaction;
  }

  /** While a transaction is unfinished, some transaction can take a step. */
  lemma SomeoneCanStep(program: seq<Event>, hash: string -> int, db0: Db, s: State, i: nat) returns (k: nat)
    requires Inv(program, hash, db0, s) && i < |program| && !s.phases[i].Finished?
    ensures k < |program| && CanStep(program, hash, s, k)
  {
    hide Kept, Serial, LockText, Transaction, Faithful;
    var c := program[i].call;
    k := i;
    if !CanStep(program, hash, s, i) {
      match s.phases[i]
      case Idle =>
        k :| 0 <= k < |program| && program[k].call.Create? && program[k].ticket.questionId == c.id
          && !s.phases[k].Finished?;
        CreatesNeverWait(program, hash, db0, s, k);
      case Begun =>
        if c.Mutate? {
          k := s.rowLocks[c.id];
          RowHoldersNeverWait(program, hash, db0, s, c.id);
        } else {
          k := s.keyLocks[LockId(hash, c)];
          if !CanStep(program, hash, s, k) {
            var q := program[k].call.id;
            k := s.rowLocks[q];
            RowHoldersNeverWait(program, hash, db0, s, q);
          }
        }
      case Looked(_, _) =>
        k := s.rowLocks[c.id];
        RowHoldersNeverWait(program, hash, db0, s, c.id);
    }
  }

  /** The most statements a transaction in this phase still has before it. */
  function Ahead(p: Phase): nat {
    match p
    case Idle => 8
    case Begun => 7
    case KeyHeld => 6
    case Swept(_) => 5
    case Looked(_, _) => 4
    case Loaded(_, _) => 3
    case Updated(_, _) => 2
    case Prepared(_, _) => 1
    case Finished(_) => 0
  }

  function TotalAhead(phases: seq<Phase>): nat {
    if phases == [] then 0 else TotalAhead(phases[..|phases| - 1]) + Ahead(phases[|phases| - 1])
  }

  lemma {:induction false} TotalAfterUpdate(phases: seq<Phase>, i: nat, p: Phase)
    requires i < |phases|
    ensures TotalAhead(phases[i := p]) == TotalAhead(phases) - Ahead(phases[i]) + Ahead(p)
  {
    var n := |phases| - 1;
    if i == n {
      assert phases[i := p][..n] == phases[..n];
    } else {
      assert phases[i := p][..n] == phases[..n][i := p];
      TotalAfterUpdate(phases[..n], i, p);
    }
  }

  lemma {:induction false} TotalBound(phases: seq<Phase>)
    ensures TotalAhead(phases) <= 8 * |phases|
    ensures TotalAhead(phases) == 0 ==> forall i :: 0 <= i < |phases| ==> phases[i].Finished?
  {
    if phases != [] {
      TotalBound(phases[..|phases| - 1]);
      forall i | 0 <= i < |phases| && TotalAhead(phases) == 0 ensures phases[i].Finished? {
        if i < |phases| - 1 {
          assert phases[..|phases| - 1][i] == phases[i];
        }
      }
    }
  }

  lemma StepShortens(program: seq<Event>, hash: string -> int, db0: Db, s: State, i: nat)
    requires Inv(program, hash, db0, s) && i < |program| && CanStep(program, hash, s, i)
    ensures TotalAhead(Next(program, hash, s, i).phases) < TotalAhead(s.phases)
  {
    hide Kept, Serial, LockText, Transaction, LocksOwned, Execute, CreateOutcome, Committed, TotalAhead;
    assert Local(program, hash, s, i);
    var t := Next(program, hash, s, i);
    assert t.phases == s.phases[i := t.phases[i]];
    TotalAfterUpdate(s.phases, i, t.phases[i]);
  }

  /** No schedule is longer than eight statements a transaction. */
  lemma {:induction false} SchedulesAreBounded(program: seq<Event>, hash: string -> int, db0: Db, schedule: seq<nat>)
    requires FreshIds(program, db0) && Kept(db0) && Allowed(program, hash, db0, schedule)
    ensures |schedule| + TotalAhead(After(program, hash, db0, schedule).phases) <= 8 * |program|
    decreases |schedule|
  {
    hide Next, CanStep, Inv, Kept, FreshIds, TotalAhead;
    if schedule == [] {
      TotalBound(Start(program, db0).phases);
    } else {
      var before := schedule[..|schedule| - 1];
      SchedulesAreBounded(program, hash, db0, before);
      ReachableInv(program, hash, db0, before);
      StepShortens(program, hash, db0, After(program, hash, db0, before), schedule[|schedule| - 1]);
    }
  }

  /** Every schedule, however it began, extends to one that finishes every transaction. */
  lemma {:induction false} EveryCallFinishes(program: seq<Event>, hash: string -> int, db0: Db, schedule: seq<nat>)
    returns (full: seq<nat>)
    requires FreshIds(program, db0) && Kept(db0) && Allowed(program, hash, db0, schedule)
    ensures schedule <= full && Allowed(program, hash, db0, full)
    ensures forall i :: 0 <= i < |program| ==> After(program, hash, db0, full).phases[i].Finished?
    decreases TotalAhead(After(program, hash, db0, schedule).phases)
  {
    hide Next, CanStep, Inv, Kept, FreshIds, TotalAhead;
    var s := After(program, hash, db0, schedule);
    ReachableInv(program, hash, db0, schedule);
    if i :| 0 <= i < |program| && !s.phases[i].Finished? {
      var k := SomeoneCanStep(program, hash, db0, s, i);
      var longer := schedule + [k];
      assert longer[..|longer| - 1] == schedule;
      StepShortens(program, hash, db0, s, k);
      full := EveryCallFinishes(program, hash, db0, longer);
    } else {
      full := schedule;
    }
  }
}
