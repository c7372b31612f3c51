/** The loop transition, spelled out: when it raises, what stops it, and how often each phase may retry. */
module LoopLaws {
  import opened Base
  import opened Json
  import opened ReviewLoop

  /** What the loop takes the findings of the review to be. */
  ghost predicate ListedAs(review: Json, items: seq<Json>) {
    && review.Obj?
    && (|| Get(review.members, "findings") == Some(Arr(items))
        || (items == []
            && (Get(review.members, "findings") == None || Get(review.members, "findings") == Some(Str(""))
                || Get(review.members, "findings") == Some(Obj([])))))
  }

  /** A P0 or P1 finding that is not verified. */
  ghost predicate Unsettled(item: Json) {
    && item.Obj?
    && (Get(item.members, "severity") == Some(Str("P0")) || Get(item.members, "severity") == Some(Str("P1")))
    && Get(item.members, "verification_status") != Some(Str("VERIFIED"))
  }

  /** No dictionary, or a severity that is a list or a dictionary. */
  ghost predicate Unreadable(item: Json) {
    || !item.Obj?
    || exists s :: Get(item.members, "severity") == Some(s) && (s.Arr? || s.Obj?)
  }

  /** Reading the findings in order meets an unreadable one before an unsettled one. */
  ghost predicate Stumbles(items: seq<Json>) {
    exists i :: 0 <= i < |items| && Unreadable(items[i]) && forall j :: 0 <= j < i ==> !Unsettled(items[j])
  }

  ghost predicate AnyUnsettled(items: seq<Json>) {
    exists i :: 0 <= i < |items| && Unsettled(items[i])
  }

  lemma UnresolvedIs(item: Json)
    ensures Unresolved(item) == if Unreadable(item) then Raises else if Unsettled(item) then Yes else No
  {
    hide Get;
  }

  lemma {:induction false} AnswerIs(items: seq<Json>)
    ensures AnyUnresolved(items) == if Stumbles(items) then Raises else if AnyUnsettled(items) then Yes else No
  {
    hide Unresolved, Unreadable, Unsettled;
    if items != [] {
      var rest := items[1..];
      UnresolvedIs(items[0]);
      AnswerIs(rest);
      assert forall i :: 0 < i < |items| ==> items[i] == rest[i - 1];
      ReadOn(items);
    }
  }

  lemma ReadOn(items: seq<Json>)
    requires items != []
    ensures Stumbles(items) <==> Unreadable(items[0]) || (!Unsettled(items[0]) && Stumbles(items[1..]))
    ensures AnyUnsettled(items) <==> Unsettled(items[0]) || AnyUnsettled(items[1..])
  {
    hide Unreadable, Unsettled;
    var rest := items[1..];
    if Unsettled(items[0]) { SettledFirst(items[0]); }
    if i :| 0 <= i < |rest| && Unreadable(rest[i]) && forall j :: 0 <= j < i ==> !Unsettled(rest[j]) {
      assert items[i + 1] == rest[i];
      assert forall j :: 0 < j < i + 1 ==> items[j] == rest[j - 1];
    }
    if i :| 0 <= i < |items| && Unreadable(items[i]) && forall j :: 0 <= j < i ==> !Unsettled(items[j]) {
      assert i > 0 ==> rest[i - 1] == items[i];
      assert forall j :: 0 <= j < i - 1 ==> rest[j] == items[j + 1];
    }
    if i :| 0 <= i < |items| && Unsettled(items[i]) { assert i > 0 ==> rest[i - 1] == items[i]; }
    if i :| 0 <= i < |rest| && Unsettled(rest[i]) { assert items[i + 1] == rest[i]; }
  }

  lemma SettledFirst(item: Json)
    requires Unsettled(item)
    ensures !Unreadable(item)
  {
    hide Get;
  }

  lemma IteratedIs(review: Json, items: seq<Json>)
    ensures Iterated(review) == Some(items) <==> ListedAs(review, items)
  {
    hide Get;
  }

  /** The loop raises exactly when the findings cannot be iterated over or reading them stumbles. */
  lemma RaisesExactly(r: Round, phase: string, iteration: int, maxIterations: int)
    ensures Transition(r, phase, iteration, maxIterations).None?
      <==> forall items :: ListedAs(r.review, items) ==> Stumbles(items)
  {
    hide Iterated, AnyUnresolved, ListedAs, Stumbles;
    forall items ensures Iterated(r.review) == Some(items) <==> ListedAs(r.review, items) {
      IteratedIs(r.review, items);
    }
    if Iterated(r.review).Some? {
      AnswerIs(Iterated(r.review).value);
    }
  }

  /** Retries a phase allows. */
  function Allowance(phase: string): nat {
    match phase case "B" => 1 case "C" => 3 case _ => 0
  }

  /** Otherwise it stops, with the reasons that apply; accepts when nothing was found; and else sends the work back,
      for another try as long as the phase and the work order allow one. */
  lemma MovesExactly(r: Round, phase: string, iteration: int, maxIterations: int, items: seq<Json>)
    requires ListedAs(r.review, items) && !Stumbles(items)
    ensures var over := r.budgetExceeded || iteration > maxIterations;
      var repeated := r.patch != "" && r.patch == r.previousPatch;
      Transition(r, phase, iteration, maxIterations) == Some(
        if over || repeated || AnyUnsettled(items) then
          Move(Decision("qf:stopped", false,
                 (if over then ["STOP-020"] else []) + (if repeated then ["STOP-018"] else [])
                 + (if AnyUnsettled(items) then ["STOP-001"] else [])), iteration)
        else if items == [] then Move(Decision("qf:organizer-acceptance", true, []), iteration)
        else if phase != "A" && iteration < Allowance(phase) && iteration < maxIterations then
          Move(Decision("qf:manufacturing", true, ["bounded-retry"]), iteration + 1)
        else Move(Decision("qf:changes-requested", true, ["human-return"]), iteration))
  {
    hide Iterated, AnyUnresolved, ListedAs, Stumbles, AnyUnsettled;
    IteratedIs(r.review, items);
    AnswerIs(items);
    AllowanceIs(phase);
    var over := r.budgetExceeded || iteration > maxIterations;
    var repeated := r.patch != "" && r.patch == r.previousPatch;
    var reasons := (if over then ["STOP-020"] else []) + (if repeated then ["STOP-018"] else [])
      + (if AnyUnsettled(items) then ["STOP-001"] else []);
    assert reasons == [] <==> !over && !repeated && !AnyUnsettled(items);
  }

  /** From iteration 0 a run of returnable reviews retries once in phase B, three times in phase C and never in
      another one, or less if the work order or the reviews end first; no run retries more often. */
  lemma RetriesByPhase(rounds: seq<Round>, phase: string, maxIterations: nat)
    ensures Retries(rounds, phase, 0, maxIterations) <= Allowance(phase)
    ensures Retries(rounds, phase, 0, maxIterations) <= maxIterations
    ensures (forall i :: 0 <= i < |rounds| ==> Returnable(rounds[i])) ==>
              Retries(rounds, phase, 0, maxIterations) == Min(|rounds|, Min(Allowance(phase), maxIterations))
  {
    hide Transition, Returnable, Retries, PhaseLimit, Allowance;
    AllowanceIs(phase);
    RetriesLeft(rounds, phase, 0, maxIterations);
    if forall i :: 0 <= i < |rounds| ==> Returnable(rounds[i]) {
      RetriesReachTheBound(rounds, phase, 0, maxIterations);
    }
  }

  lemma AllowanceIs(phase: string)
    ensures PhaseLimit(phase) == Allowance(phase)
  {
  }
}
