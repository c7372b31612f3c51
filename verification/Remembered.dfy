/** A successful approval is remembered for 24 hours, in the in-memory store and under interleaving too. */
module Remembered {
  import opened Base
  import opened Text
  import opened Domain
  import opened Store
  import Mem = MemoryStore
  import opened Tables
  import opened Ledger
  import opened Transactions

  // ---------------------------------------------------------------- the in-memory store

  lemma MemoryKeyUntouched(m: Mem.State, e: Event, key: Key)
    requires key in m.idempotency
    requires e.call.Approval? && KeyOf(e.call) == key ==> e.ticket.now < m.idempotency[key].expiresAt
    ensures key in Mem.Step(m, e).0.idempotency && Mem.Step(m, e).0.idempotency[key] == m.idempotency[key]
  {
    hide FingerprintOf, Execute;
  }

  lemma {:induction false} MemoryKeySurvives(m: Mem.State, events: seq<Event>, key: Key)
    requires key in m.idempotency
    requires forall i :: 0 <= i < |events| && events[i].call.Approval? && KeyOf(events[i].call) == key ==>
      events[i].ticket.now < m.idempotency[key].expiresAt
    ensures key in Mem.Run(m, events).idempotency && Mem.Run(m, events).idempotency[key] == m.idempotency[key]
    decreases |events|
  {
    hide Mem.Step;
    if events != [] {
      var before, last := events[..|events| - 1], events[|events| - 1];
      MemoryKeySurvives(m, before, key);
      MemoryKeyUntouched(Mem.Run(m, before), last, key);
    }
  }

  predicate MemoryFirstUse(m: Mem.State, e: Event)
    requires e.call.Approval?
  {
    KeyOf(e.call) !in m.idempotency || m.idempotency[KeyOf(e.call)].expiresAt <= e.ticket.now
  }

  /** What the in-memory store files on a first successful use of a key. */
  lemma FirstUseIsFiled(m: Mem.State, first: Event)
    requires first.call.Approval? && MemoryFirstUse(m, first) && Mem.Step(m, first).1.Ok?
    ensures var after := Mem.Step(m, first).0; var key := KeyOf(first.call);
      && key in after.idempotency
      && after.idempotency[key]
        == Mem.Entry(FingerprintOf(first.call), Mem.Step(m, first).1.value, first.ticket.now + RETENTION)
  {
    hide FingerprintOf, Execute;
  }

  lemma LiveKeyAnswers(m: Mem.State, e: Event)
    requires e.call.Approval? && KeyOf(e.call) in m.idempotency && e.ticket.now < m.idempotency[KeyOf(e.call)].expiresAt
    ensures Mem.Step(m, e).0 == m
    ensures Mem.Step(m, e).1 ==
      if m.idempotency[KeyOf(e.call)].fingerprint == FingerprintOf(e.call) then Ok(m.idempotency[KeyOf(e.call)].result)
      else Err(Rule(KeyReused))
  {
    hide FingerprintOf, Execute;
  }

  lemma SameFingerprint(a: Call, b: Call)
    requires a.Approval? && b.Approval?
    ensures FingerprintOf(a) == FingerprintOf(b) <==> SameCommand(a, b)
  {
    if FingerprintOf(a) == FingerprintOf(b) {
      FingerprintInjective(a.tenantId, a.id, a.reviewer, a.expectedVersion, b.tenantId, b.id, b.reviewer,
        b.expectedVersion);
    }
  }

  /** After an approval succeeds at time t, whatever other calls run, a call under the same tenant and key with a clock
      before t + 24h leaves questions, keys and audit trail alone and returns the first result, or key_reused. */
  lemma {:induction false} MemoryApprovalIsRemembered(m: Mem.State, first: Event, later: seq<Event>, e: Event)
    requires first.call.Approval? && MemoryFirstUse(m, first) && Mem.Step(m, first).1.Ok?
    requires e.call.Approval? && KeyOf(e.call) == KeyOf(first.call) && e.ticket.now < first.ticket.now + RETENTION
    requires forall i :: 0 <= i < |later| && later[i].call.Approval? && KeyOf(later[i].call) == KeyOf(first.call) ==>
      later[i].ticket.now < first.ticket.now + RETENTION
    ensures var after := Mem.Run(Mem.Step(m, first).0, later);
      && Mem.Step(after, e).0 == after
      && Mem.Step(after, e).1 == if SameCommand(e.call, first.call) then Mem.Step(m, first).1 else Err(Rule(KeyReused))
  {
    hide FingerprintOf, Mem.Step, Mem.Run;
    FirstUseIsFiled(m, first);
    MemoryKeySurvives(Mem.Step(m, first).0, later, KeyOf(first.call));
    LiveKeyAnswers(Mem.Run(Mem.Step(m, first).0, later), e);
    SameFingerprint(e.call, first.call);
  }

  // ------------------------------------------------------------------- interleaved calls

  /** A stretch of a serial run is the run of that stretch. */
  lemma {:induction false} RunFrom(db: Db, events: seq<Event>, a: nat, b: nat)
    requires a <= b <= |events|
    ensures Run(db, events[..b]) == Run(Run(db, events[..a]), events[a..b])
    decreases b
  {
    hide Step;
    if a == b {
      assert events[a..b] == [];
    } else {
      RunFrom(db, events, a, b - 1);
      assert events[..b] == events[..b - 1] + [events[b - 1]];
      assert events[a..b] == events[a..b - 1] + [events[b - 1]];
      RunSnoc(db, events[..b - 1], events[b - 1]);
      RunSnoc(Run(db, events[..a]), events[a..b - 1], events[b - 1]);
    }
  }

  /** The same in a serial run, by position. */
  lemma RememberedInRun(db: Db, events: seq<Event>, a: nat, b: nat)
    requires a < b < |events| && events[a].call.Approval? && events[b].call.Approval?
    requires KeyOf(events[b].call) == KeyOf(events[a].call)
    requires FirstUse(Run(db, events[..a]), events[a]) && Transaction(Run(db, events[..a]), events[a]).1.Ok?
    requires forall i :: a < i <= b && events[i].call.Approval? && KeyOf(events[i].call) == KeyOf(events[a].call) ==>
      events[i].ticket.now < events[a].ticket.now + RETENTION
    ensures Run(db, events[..b + 1]) == Run(db, events[..b])
    ensures Transaction(Run(db, events[..b]), events[b]).1 ==
      if SameCommand(events[b].call, events[a].call) then Transaction(Run(db, events[..a]), events[a]).1
      else Err(Rule(KeyReused))
  {
    hide Run, Transaction, Step, FirstUse, SameCommand;
    var later := events[a + 1..b];
    assert events[..a + 1] == events[..a] + [events[a]] && events[..b + 1] == events[..b] + [events[b]];
    RunSnoc(db, events[..a], events[a]);
    RunSnoc(db, events[..b], events[b]);
    RunFrom(db, events, a + 1, b);
    assert forall i :: 0 <= i < |later| ==> later[i] == events[a + 1 + i];
    ApprovalIsRemembered(Run(db, events[..a]), events[a], later, events[b]);
  }

  /** In every interleaving: let the call that finished at position a of the order be the first, successful use of its
      key. Then each later approval under that key whose clock, like those in between, is before t + 24h returns that
      result or key_reused, and its commit changes no table. */
  lemma InterleavedApprovalIsRemembered(
    program: seq<Event>, hash: string -> int, db0: Db, schedule: seq<nat>, a: nat, b: nat)
    requires FreshIds(program, db0) && Kept(db0) && Allowed(program, hash, db0, schedule)
    requires a < b < |After(program, hash, db0, schedule).order|
    requires forall k :: 0 <= k < |After(program, hash, db0, schedule).order| ==>
      After(program, hash, db0, schedule).order[k] < |program|
    requires var events := Ordered(program, After(program, hash, db0, schedule).order);
      && events[a].call.Approval? && events[b].call.Approval? && KeyOf(events[b].call) == KeyOf(events[a].call)
      && FirstUse(Run(db0, events[..a]), events[a]) && Transaction(Run(db0, events[..a]), events[a]).1.Ok?
      && forall i :: a < i <= b && events[i].call.Approval? && KeyOf(events[i].call) == KeyOf(events[a].call) ==>
           events[i].ticket.now < events[a].ticket.now + RETENTION
    ensures var s := After(program, hash, db0, schedule);
      var events := Ordered(program, s.order);
      && |s.phases| == |program|
      && s.phases[s.order[a]].Finished? && s.phases[s.order[b]] == Finished(
           if SameCommand(events[b].call, events[a].call) then s.phases[s.order[a]].result else Err(Rule(KeyReused)))
      && Run(db0, events[..b + 1]) == Run(db0, events[..b])
  {
    hide Run, Transaction, Tables.Step, FirstUse, SameCommand, FreshIds, Kept, LocksOwned, After;
    ReachableInv(program, hash, db0, schedule);
    var s := After(program, hash, db0, schedule);
    RememberedInRun(db0, Ordered(program, s.order), a, b);
  }
}
