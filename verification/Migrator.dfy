/** PostgreSqlMigrator: embedded migrations applied in one transaction under one advisory lock. */
module Migrator {
  import opened Base
  import Order

  predicate Contains(s: string, part: string) {
    part <= s || (s != "" && Contains(s[1..], part))
  }

  predicate EndsWith(s: string, end: string) {
    |end| <= |s| && s[|s| - |end|..] == end
  }

  function Embedded(names: seq<string>): (r: seq<string>)
    ensures forall x :: x in r <==> x in names && Contains(x, ".Persistence.Migrations.") && EndsWith(x, ".sql")
    ensures DistinctBy(names, Order.Self) ==> DistinctBy(r, Order.Self)
  {
    if names == [] then []
    else
      var r := Embedded(names[1..]);
      assert names == [names[0]] + names[1..];
      assert forall i :: 0 <= i < |r| ==> r[i] in r;
      assert DistinctBy(names, Order.Self) ==>
        DistinctBy(names[1..], Order.Self) && names[0] !in names[1..] by { TailDistinct(names); }
      if Contains(names[0], ".Persistence.Migrations.") && EndsWith(names[0], ".sql") then [names[0]] + r else r
  }

  lemma TailDistinct(names: seq<string>)
    requires names != []
    ensures DistinctBy(names, Order.Self) ==>
      DistinctBy(names[1..], Order.Self) && names[0] !in names[1..]
  {
    assert forall i :: 0 < i < |names| ==> names[i] == names[1..][i - 1];
  }

  /** The migrations among the assembly's resources, in ordinal order. */
  function Plan(manifest: seq<string>): seq<string> {
    Order.Sort(Embedded(manifest), Order.Self)
  }

  /** What the loop executes and records: each planned migration not yet in the ledger. */
  function Missing(plan: seq<string>, ledger: seq<string>): seq<string> {
    if plan == [] then []
    else if plan[0] in ledger then Missing(plan[1..], ledger)
    else [plan[0]] + Missing(plan[1..], ledger + [plan[0]])
  }

  lemma {:induction false} MissingStep(plan: seq<string>, ledger: seq<string>, n: nat)
    requires n < |plan|
    ensures var before := Missing(plan[..n], ledger);
      Missing(plan[..n + 1], ledger) == if plan[n] in ledger + before then before else before + [plan[n]]
    decreases n
  {
    hide Missing;
    if n == 0 {
      FirstMissing(plan, ledger);
    } else {
      var rest := plan[1..];
      assert plan[..n][1..] == rest[..n - 1] && plan[..n + 1][1..] == rest[..n];
      var next := if plan[0] in ledger then ledger else ledger + [plan[0]];
      MissingStep(rest, next, n - 1);
      MissingFront(plan[..n], ledger);
      MissingFront(plan[..n + 1], ledger);
      var m := Missing(rest[..n - 1], next);
      if plan[0] !in ledger {
        assert ledger + ([plan[0]] + m) == ledger + [plan[0]] + m;
        assert [plan[0]] + (m + [plan[n]]) == [plan[0]] + m + [plan[n]];
      }
    }
  }

  lemma {:induction false} FirstMissing(plan: seq<string>, ledger: seq<string>)
    requires plan != []
    ensures Missing(plan[..0], ledger) == []
    ensures Missing(plan[..1], ledger) == if plan[0] in ledger then [] else [plan[0]]
  {
    assert plan[..1][1..] == [] && plan[..0] == [];
  }

  lemma MissingFront(plan: seq<string>, ledger: seq<string>)
    requires plan != []
    ensures Missing(plan, ledger) ==
      if plan[0] in ledger then Missing(plan[1..], ledger)
      else [plan[0]] + Missing(plan[1..], ledger + [plan[0]])
  {
  }

  /** Afterwards everything planned is in the ledger. */
  lemma {:induction false} MissingCompletes(plan: seq<string>, ledger: seq<string>)
    ensures forall x :: x in plan ==> x in ledger + Missing(plan, ledger)
  {
    if plan != [] {
      assert plan == [plan[0]] + plan[1..];
      var next := if plan[0] in ledger then ledger else ledger + [plan[0]];
      MissingCompletes(plan[1..], next);
      var m := Missing(plan[1..], next);
      if plan[0] !in ledger { assert ledger + ([plan[0]] + m) == ledger + [plan[0]] + m; }
    }
  }

  /** Nothing is recorded twice. */
  lemma {:induction false} MissingIsNew(plan: seq<string>, ledger: seq<string>)
    ensures forall x :: x in Missing(plan, ledger) ==> x in plan && x !in ledger
    ensures Distinct(Missing(plan, ledger))
  {
    if plan != [] {
      assert plan == [plan[0]] + plan[1..];
      var next := if plan[0] in ledger then ledger else ledger + [plan[0]];
      MissingIsNew(plan[1..], next);
      var m := Missing(plan[1..], next);
      assert forall i :: 0 <= i < |m| ==> m[i] in m;
    }
  }

  lemma {:induction false} NothingMissing(plan: seq<string>, ledger: seq<string>)
    requires forall x :: x in plan ==> x in ledger
    ensures Missing(plan, ledger) == []
  {
    if plan != [] { NothingMissing(plan[1..], ledger); }
  }

  /** On an empty ledger the plan itself is executed, in its order. */
  lemma {:induction false} AllMissing(plan: seq<string>, ledger: seq<string>)
    requires Distinct(plan) && forall i :: 0 <= i < |plan| ==> plan[i] !in ledger
    ensures Missing(plan, ledger) == plan
  {
    if plan != [] {
      assert forall i :: 0 < i < |plan| ==> plan[i] == plan[1..][i - 1];
      AllMissing(plan[1..], ledger + [plan[0]]);
      assert plan == [plan[0]] + plan[1..];
    }
  }

  lemma PlanIsOrdered(manifest: seq<string>)
    requires DistinctBy(manifest, Order.Self)
    ensures Order.Sorted(Plan(manifest), Order.Self) && Distinct(Plan(manifest))
    ensures forall x :: x in Plan(manifest) <==> x in Embedded(manifest)
  {
    Order.SortSorts(Embedded(manifest), Order.Self);
    var p := Plan(manifest);
    forall i, j | 0 <= i < j < |p| ensures p[i] != p[j] {
      assert Order.Less(Order.Self(p[i]), Order.Self(p[j]));
      Order.LessIrreflexive(p[i]);
    }
  }

  /** The committed tables: the ledger, and the migrations whose statements took effect. */
  class PostgreSqlMigrator {
    var ledger: seq<string>
    var executed: seq<string>

    constructor ()
      ensures ledger == [] && executed == []
    {
      ledger, executed := [], [];
    }

    /** One call, alone under the lock: it looks each migration up, executes it and records it. A statement that fails
        raises and rolls everything back. */
    method ApplyAsync(manifest: seq<string>, executeFails: string -> bool, insertFails: string -> bool,
                      grantsFail: bool)
      returns (applied: bool)
      modifies this
      ensures var missing := Missing(Plan(manifest), old(ledger));
        && (applied <==> !grantsFail && forall x :: x in missing ==> !executeFails(x) && !insertFails(x))
        && ledger == (if applied then old(ledger) + missing else old(ledger))
        && executed == (if applied then old(executed) + missing else old(executed))
    {
      hide Missing, Plan;
      var resources := Plan(manifest);
      var ran: seq<string>, inserted: seq<string> := [], [];
      ghost var missing := Missing(resources, ledger);
      assert Missing([], ledger) == [] by { NothingMissing([], ledger); }
      assert resources[..0] == [];
      for i := 0 to |resources|
        invariant ledger == old(ledger) && executed == old(executed)
        invariant ran == inserted == Missing(resources[..i], ledger)
        invariant forall x :: x in inserted ==> !executeFails(x) && !insertFails(x)
      {
        MissingStep(resources, ledger, i);
        if resources[i] in ledger + inserted { continue; }
        MissingGrows(resources, ledger, i + 1);
        assert resources[i] in Missing(resources[..i + 1], ledger);
        if executeFails(resources[i]) { return false; }
        ran := ran + [resources[i]];
        if insertFails(resources[i]) { return false; }
        inserted := inserted + [resources[i]];
      }
      assert resources[..|resources|] == resources;
      if grantsFail { return false; }
      ledger, executed := ledger + inserted, executed + ran;
      return true;
    }
  }

  lemma {:induction false} MissingGrows(plan: seq<string>, ledger: seq<string>, n: nat)
    requires n <= |plan|
    ensures forall x :: x in Missing(plan[..n], ledger) ==> x in Missing(plan, ledger)
    decreases |plan| - n
  {
    hide Missing;
    if n == |plan| {
      assert plan[..n] == plan;
    } else {
      MissingStep(plan, ledger, n);
      MissingGrows(plan, ledger, n + 1);
    }
  }

  // --------------------------------------------------------------- concurrent callers

  datatype Stage = Looking | Executing | Recording

  /** A caller holding the lock is done with the first `next` migrations and works on the one at `next`: it looks it up,
      executes it, then records it. It has executed `ran` and inserted `added`. */
  datatype Caller =
    | Waiting
    | Working(next: nat, stage: Stage, ran: seq<string>, added: seq<string>)
    | Finished(applied: bool)

  datatype State = State(callers: seq<Caller>, ledger: seq<string>, executed: seq<string>, lock: Option<nat>)

  datatype Move = Lock(i: nat) | Look(i: nat) | Execute(i: nat) | Record(i: nat) | Commit(i: nat) | Abort(i: nat)

  function Start(n: nat, ledger: seq<string>): State {
    State(seq(n, _ => Waiting), ledger, ledger, None)
  }

  /** Any unfinished caller may fail at any point: a statement error, the grants or a cancellation. */
  predicate Enabled(plan: seq<string>, s: State, m: Move) {
    && m.i < |s.callers|
    && var c := s.callers[m.i];
       match m
       case Lock(_) => c.Waiting? && s.lock.None?
       case Look(_) => c.Working? && c.next < |plan| && c.stage == Looking
       case Execute(_) => c.Working? && c.next < |plan| && c.stage == Executing
       case Record(_) => c.Working? && c.next < |plan| && c.stage == Recording
       case Commit(_) => c.Working? && c.next == |plan|
       case Abort(_) => !c.Finished?
  }

  function Next(plan: seq<string>, s: State, m: Move): State
    requires Enabled(plan, s, m)
  {
    var c := s.callers[m.i];
    match m
    case Lock(i) => s.(callers := s.callers[i := Working(0, Looking, [], [])], lock := Some(i))
    case Look(i) =>
      s.(callers := s.callers[i :=
        if plan[c.next] in s.ledger + c.added then c.(next := c.next + 1) else c.(stage := Executing)])
    case Execute(i) => s.(callers := s.callers[i := c.(ran := c.ran + [plan[c.next]], stage := Recording)])
    case Record(i) =>
      s.(callers := s.callers[i := c.(added := c.added + [plan[c.next]], next := c.next + 1, stage := Looking)])
    case Commit(i) => State(s.callers[i := Finished(true)], s.ledger + c.added, s.executed + c.ran, None)
    case Abort(i) => s.(callers := s.callers[i := Finished(false)], lock := if s.lock == Some(i) then None else s.lock)
  }

  predicate Possible(plan: seq<string>, n: nat, ledger: seq<string>, moves: seq<Move>)
    decreases |moves|, 0
  {
    moves != [] ==>
      && Possible(plan, n, ledger, moves[..|moves| - 1])
      && Enabled(plan, After(plan, n, ledger, moves[..|moves| - 1]), moves[|moves| - 1])
  }

  function After(plan: seq<string>, n: nat, ledger: seq<string>, moves: seq<Move>): State
    requires Possible(plan, n, ledger, moves)
    decreases |moves|, 1
  {
    if moves == [] then Start(n, ledger)
    else Next(plan, After(plan, n, ledger, moves[..|moves| - 1]), moves[|moves| - 1])
  }

  /** Some caller's transaction committed. */
  predicate SomeoneApplied(s: State) {
    exists i :: 0 <= i < |s.callers| && s.callers[i] == Finished(true)
  }

  /** What a working caller has done: it has executed and inserted what is missing of the first migrations, and executed
      but not yet inserted the one it is recording. */
  predicate Progress(plan: seq<string>, ledger: seq<string>, c: Caller)
    requires c.Working?
  {
    && c.next <= |plan|
    && c.added == Missing(plan[..c.next], ledger)
    && (c.stage.Looking? || (c.next < |plan| && plan[c.next] !in ledger + c.added))
    && c.ran == (if c.stage.Recording? && c.next < |plan| then c.added + [plan[c.next]] else c.added)
  }

  predicate Inv(plan: seq<string>, n: nat, initial: seq<string>, s: State) {
    && |s.callers| == n
    && (s.lock.Some? ==> s.lock.value < n && s.callers[s.lock.value].Working?)
    && (forall i :: 0 <= i < n && s.callers[i].Working? ==> s.lock == Some(i) && Progress(plan, s.ledger, s.callers[i]))
    && s.ledger == (if SomeoneApplied(s) then initial + Missing(plan, initial) else initial)
    && s.executed == s.ledger
  }

  lemma MoveKeeps(plan: seq<string>, n: nat, initial: seq<string>, s: State, m: Move)
    requires Inv(plan, n, initial, s) && Enabled(plan, s, m)
    ensures Inv(plan, n, initial, Next(plan, s, m))
  {
    hide Missing;
    var t := Next(plan, s, m);
    var c := s.callers[m.i];
    match m
    case Lock(i) =>
      assert plan[..0] == [];
      NothingMissing([], s.ledger);
      OthersApplied(s, t, i);
    case Look(i) =>
      MissingStep(plan, s.ledger, c.next);
      OthersApplied(s, t, i);
    case Execute(i) =>
      OthersApplied(s, t, i);
    case Record(i) =>
      MissingStep(plan, s.ledger, c.next);
      OthersApplied(s, t, i);
    case Commit(i) =>
      assert plan[..c.next] == plan;
      assert t.callers[i] == Finished(true);
      if SomeoneApplied(s) {
        MissingCompletes(plan, initial);
        NothingMissing(plan, s.ledger);
        assert s.ledger + [] == s.ledger;
      }
    case Abort(i) =>
      OthersApplied(s, t, i);
  }

  lemma OthersApplied(s: State, t: State, i: nat)
    requires i < |s.callers| && |t.callers| == |s.callers| && t.callers == s.callers[i := t.callers[i]]
    requires s.callers[i] != Finished(true) && t.callers[i] != Finished(true)
    ensures SomeoneApplied(t) <==> SomeoneApplied(s)
  {
    if SomeoneApplied(s) {
      var j :| 0 <= j < |s.callers| && s.callers[j] == Finished(true);
      assert t.callers[j] == Finished(true);
    }
    if SomeoneApplied(t) {
      var j :| 0 <= j < |t.callers| && t.callers[j] == Finished(true);
      assert s.callers[j] == Finished(true);
    }
  }

  /** In every interleaving the committed ledger and the executed migrations are the initial ones until some
      call commits, and from then on the initial ones followed by every missing migration once, in plan order. */
  lemma {:induction false} AppliedExactlyOnce(plan: seq<string>, n: nat, initial: seq<string>, moves: seq<Move>)
    requires Possible(plan, n, initial, moves)
    ensures Inv(plan, n, initial, After(plan, n, initial, moves))
    decreases |moves|
  {
    hide Missing, Next, Inv;
    if moves == [] {
      StartKeeps(plan, n, initial);
    } else {
      var before := moves[..|moves| - 1];
      AppliedExactlyOnce(plan, n, initial, before);
      MoveKeeps(plan, n, initial, After(plan, n, initial, before), moves[|moves| - 1]);
    }
  }

  lemma StartKeeps(plan: seq<string>, n: nat, initial: seq<string>)
    ensures Inv(plan, n, initial, Start(n, initial))
  {
    hide Missing;
  }

  /** No migration is ever committed twice: a ledger without repeats keeps none. */
  lemma NeverTwice(plan: seq<string>, n: nat, initial: seq<string>, moves: seq<Move>)
    requires Possible(plan, n, initial, moves) && Distinct(initial)
    ensures Distinct(After(plan, n, initial, moves).ledger)
  {
    hide Missing, After, Possible;
    AppliedExactlyOnce(plan, n, initial, moves);
    MissingIsNew(plan, initial);
    var m := Missing(plan, initial);
    assert forall i :: 0 <= i < |m| ==> m[i] in m;
    assert forall i :: 0 <= i < |initial| ==> initial[i] in initial;
  }

  /** From an empty ledger: nothing, or every embedded migration in ordinal order; each at most once. */
  lemma EmptyLedgerFillsInOrder(manifest: seq<string>, n: nat, moves: seq<Move>)
    requires DistinctBy(manifest, Order.Self) && Possible(Plan(manifest), n, [], moves)
    ensures var s := After(Plan(manifest), n, [], moves);
      && s.executed == s.ledger == (if SomeoneApplied(s) then Plan(manifest) else [])
      && Order.Sorted(s.ledger, Order.Self) && Distinct(s.ledger)
  {
    hide Missing, After, Possible, Plan;
    AppliedExactlyOnce(Plan(manifest), n, [], moves);
    PlanIsOrdered(manifest);
    AllMissing(Plan(manifest), []);
    assert [] + Plan(manifest) == Plan(manifest);
  }

  /** Once a call has committed, no caller executes or records a migration: each one it looks at is in the ledger. */
  lemma NothingAfterCommit(plan: seq<string>, n: nat, initial: seq<string>, moves: seq<Move>, j: nat)
    requires Possible(plan, n, initial, moves) && SomeoneApplied(After(plan, n, initial, moves))
    requires j < |After(plan, n, initial, moves).callers| && After(plan, n, initial, moves).callers[j].Working?
    ensures Idle(plan, After(plan, n, initial, moves), j)
  {
    hide Missing, After, Possible;
    AppliedExactlyOnce(plan, n, initial, moves);
    var s := After(plan, n, initial, moves);
    MissingCompletes(plan, initial);
    assert Progress(plan, s.ledger, s.callers[j]);
    NothingMissing(plan[..s.callers[j].next], s.ledger);
  }

  /** A working caller that has changed nothing and finds the next migration recorded. */
  predicate Idle(plan: seq<string>, s: State, j: nat) {
    && j < |s.callers| && s.callers[j].Working? && s.callers[j].stage.Looking?
    && s.callers[j].ran == [] && s.callers[j].added == []
    && (s.callers[j].next < |plan| ==> plan[s.callers[j].next] in s.ledger)
  }

  /** A call that fails changes nothing; once a call has committed, no later step changes the tables or executes a
      migration. */
  lemma TablesChangeOnce(plan: seq<string>, n: nat, initial: seq<string>, moves: seq<Move>, m: Move)
    requires Possible(plan, n, initial, moves) && Enabled(plan, After(plan, n, initial, moves), m)
    requires !m.Commit? || SomeoneApplied(After(plan, n, initial, moves))
    ensures var s := After(plan, n, initial, moves);
      && Next(plan, s, m).ledger == s.ledger && Next(plan, s, m).executed == s.executed
      && (SomeoneApplied(s) ==>
            !m.Execute? && !m.Record? && forall j :: 0 <= j < |s.callers| && s.callers[j].Working? ==> Idle(plan, s, j))
  {
    hide Missing, After, Possible, SomeoneApplied;
    var s := After(plan, n, initial, moves);
    AppliedExactlyOnce(plan, n, initial, moves);
    if SomeoneApplied(s) {
      forall j | 0 <= j < |s.callers| && s.callers[j].Working? ensures Idle(plan, s, j) {
        NothingAfterCommit(plan, n, initial, moves, j);
      }
    }
  }

  /** Nobody waits for ever: while some caller is unfinished, one can take the lock, its next step or the commit. */
  lemma SomeoneCanMove(plan: seq<string>, n: nat, initial: seq<string>, moves: seq<Move>, i: nat) returns (m: Move)
    requires Possible(plan, n, initial, moves) && i < n
    requires i < |After(plan, n, initial, moves).callers| ==> !After(plan, n, initial, moves).callers[i].Finished?
    ensures Enabled(plan, After(plan, n, initial, moves), m) && !m.Abort?
  {
    hide Missing, After, Possible;
    AppliedExactlyOnce(plan, n, initial, moves);
    var s := After(plan, n, initial, moves);
    if s.lock.None? {
      m := Lock(i);
    } else {
      var j := s.lock.value;
      var c := s.callers[j];
      assert Progress(plan, s.ledger, c);
      m := if c.next == |plan| then Commit(j)
           else match c.stage case Looking => Look(j) case Executing => Execute(j) case Recording => Record(j);
    }
  }
}
