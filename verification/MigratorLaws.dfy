/** Which migrations are applied and in which order, told from the names of the embedded resources. */
module MigratorLaws {
  import opened Base
  import opened Migrator
  import Order

  /** An SQL file below the migrations folder. */
  ghost predicate Migration(name: string) {
    && (exists a: string, b: string :: name == a + ".Persistence.Migrations." + b)
    && exists c: string :: name == c + ".sql"
  }

  lemma OccursLater(s: string, part: string, a: string, b: string)
    requires s == a + part + b && !(part <= s)
    ensures s != "" && exists c: string, d: string :: s[1..] == c + part + d
  {
    assert a == "" ==> s == part + b;
    assert s[1..] == a[1..] + part + b;
  }

  lemma {:induction false} ContainsIs(s: string, part: string)
    ensures Contains(s, part) <==> exists a: string, b: string :: s == a + part + b
  {
    if part <= s {
      assert s == "" + part + s[|part|..];
    } else if s != "" {
      ContainsIs(s[1..], part);
      if Contains(s[1..], part) {
        var a: string, b: string :| s[1..] == a + part + b;
        assert s == ([s[0]] + a) + part + b;
      }
      forall a: string, b: string | s == a + part + b ensures Contains(s[1..], part) { OccursLater(s, part, a, b); }
    }
  }

  lemma EndsWithIs(s: string, end: string)
    ensures EndsWith(s, end) <==> exists c: string :: s == c + end
  {
    if EndsWith(s, end) { assert s == s[..|s| - |end|] + end; }
    if c: string :| s == c + end { assert s[|s| - |end|..] == end; }
  }

  /** The plan lists the embedded migrations, each once, in code-point order. */
  lemma PlanExactly(manifest: seq<string>)
    requires Distinct(manifest)
    ensures forall x :: x in Plan(manifest) <==> x in manifest && Migration(x)
    ensures forall i, j :: 0 <= i < j < |Plan(manifest)| ==> Order.Precedes(Plan(manifest)[i], Plan(manifest)[j])
  {
    hide Plan, Contains, EndsWith, Order.Precedes, Order.Less;
    PlanIsOrdered(manifest);
    forall x ensures x in Plan(manifest) <==> x in manifest && Migration(x) {
      ContainsIs(x, ".Persistence.Migrations.");
      EndsWithIs(x, ".sql");
    }
    var p := Plan(manifest);
    forall i, j | 0 <= i < j < |p| ensures Order.Precedes(p[i], p[j]) { Order.LessIsPrecedes(p[i], p[j]); }
  }

  /** What is missing stands in the order of the plan. */
  lemma {:induction false} MissingInOrder(plan: seq<string>, ledger: seq<string>)
    requires forall i, j :: 0 <= i < j < |plan| ==> Order.Precedes(plan[i], plan[j])
    ensures var m := Missing(plan, ledger); forall i, j :: 0 <= i < j < |m| ==> Order.Precedes(m[i], m[j])
  {
    hide Order.Precedes, Missing;
    if plan == [] {
      NothingMissing(plan, ledger);
    } else {
      var rest := plan[1..];
      var next := if plan[0] in ledger then ledger else ledger + [plan[0]];
      MissingInOrder(rest, next);
      MissingIsNew(rest, next);
      var m := Missing(rest, next);
      forall i | 0 <= i < |m| ensures Order.Precedes(plan[0], m[i]) {
        assert m[i] in m;
        var k :| 0 <= k < |rest| && rest[k] == m[i];
        assert rest[k] == plan[k + 1];
      }
      MissingFront(plan, ledger);
    }
  }

  /** These names are the migrations that the ledger lacked, each once and in code-point order. */
  ghost predicate JustMissing(added: seq<string>, manifest: seq<string>, ledger: seq<string>) {
    && (forall x :: x in added <==> x in manifest && Migration(x) && x !in ledger)
    && forall i, j :: 0 <= i < j < |added| ==> Order.Precedes(added[i], added[j])
  }

  lemma MissingExactly(manifest: seq<string>, ledger: seq<string>)
    requires Distinct(manifest)
    ensures JustMissing(Missing(Plan(manifest), ledger), manifest, ledger)
  {
    hide Plan, Missing, Migration, Order.Precedes;
    var plan := Plan(manifest);
    PlanExactly(manifest);
    MissingInOrder(plan, ledger);
    MissingIsNew(plan, ledger);
    MissingCompletes(plan, ledger);
    var m := Missing(plan, ledger);
    forall x ensures x in m <==> x in manifest && Migration(x) && x !in ledger {
      if x in manifest && Migration(x) && x !in ledger { assert x in ledger + m; }
    }
  }

  /** However many callers start at once and wherever they fail: until one commits the tables are as they were, and
      from then on they hold besides just the migrations that were missing. */
  lemma TablesTold(manifest: seq<string>, n: nat, initial: seq<string>, moves: seq<Move>) returns (added: seq<string>)
    requires Distinct(manifest) && Possible(Plan(manifest), n, initial, moves)
    ensures JustMissing(added, manifest, initial)
    ensures var s := After(Plan(manifest), n, initial, moves);
      s.executed == s.ledger
      && s.ledger == if exists i :: 0 <= i < |s.callers| && s.callers[i] == Finished(true) then initial + added
                     else initial
  {
    hide Plan, Missing, Possible, After, JustMissing;
    added := Missing(Plan(manifest), initial);
    MissingExactly(manifest, initial);
    AppliedExactlyOnce(Plan(manifest), n, initial, moves);
  }
}
