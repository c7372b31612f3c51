/** The queue and worker objects do what the interleaved machine does when its moves are not interleaved. */
module AuditRefinement {
  import opened Base
  import opened AuditPipeline
  import opened AuditQueue

  /** The state after the moves, when each can be made. */
  ghost function Follow(envelopes: seq<Envelope>, capacity: nat, s: State, moves: seq<Move>): Option<State>
    decreases |moves|
  {
    if moves == [] then Some(s)
    else if InRange(envelopes, s) && Enabled(envelopes, s, moves[0]) then
      Follow(envelopes, capacity, Next(envelopes, capacity, s, moves[0]), moves[1..])
    else None
  }

  lemma {:induction false} FollowThen(envelopes: seq<Envelope>, capacity: nat, s: State, a: seq<Move>, b: seq<Move>)
    requires Follow(envelopes, capacity, s, a).Some?
    ensures Follow(envelopes, capacity, s, a + b)
      == Follow(envelopes, capacity, Follow(envelopes, capacity, s, a).value, b)
    decreases |a|
  {
    hide Next, Enabled, InRange;
    if a == [] {
      assert a + b == b;
    } else {
      assert (a + b)[0] == a[0] && (a + b)[1..] == a[1..] + b;
      FollowThen(envelopes, capacity, Next(envelopes, capacity, s, a[0]), a[1..], b);
    }
  }

  lemma {:induction false} FollowOne(envelopes: seq<Envelope>, capacity: nat, s: State, m: Move)
    requires InRange(envelopes, s) && Enabled(envelopes, s, m)
    ensures Follow(envelopes, capacity, s, [m]) == Some(Next(envelopes, capacity, s, m))
  {
    hide Next, Enabled, InRange;
    assert [m][1..] == [];
  }

  /** Everything but the windows, one writer and the record of removals is as before. */
  ghost predicate OnlyTrimmed(s: State, t: State, i: nat) {
    && i < |s.writers| && t.writers == s.writers[i := Ready]
    && t.channel == s.channel && t.worker == s.worker && t.events == s.events
    && t.suppressed == s.suppressed && t.failures == s.failures && t.claims == s.claims && t.accepted == s.accepted
  }

  function Expired(windows: map<string, nat>, now: nat): set<string> {
    set key | key in windows && windows[key] < now - 2 * MINUTE
  }

  function Kept(windows: map<string, nat>, now: nat): map<string, nat> {
    map key | key in windows && windows[key] >= now - 2 * MINUTE :: windows[key]
  }

  lemma RemoveOne(windows: map<string, nat>, now: nat, key: string)
    requires key in Expired(windows, now)
    ensures Expired(windows - {key}, now) == Expired(windows, now) - {key}
    ensures Kept(windows - {key}, now) == Kept(windows, now)
  {
  }

  /** A writer alone can trim exactly the expired windows. */
  lemma {:induction false} TrimAlone(envelopes: seq<Envelope>, capacity: nat, s: State, i: nat)
    returns (moves: seq<Move>)
    requires InRange(envelopes, s) && i < |envelopes| && s.writers[i].Trimming?
    ensures var r := Follow(envelopes, capacity, s, moves);
      r.Some? && InRange(envelopes, r.value) && OnlyTrimmed(s, r.value, i)
      && r.value.windows == Kept(s.windows, envelopes[i].occurredAt)
    decreases Expired(s.windows, envelopes[i].occurredAt)
  {
    hide SuppressionKey, IsDuplicate, Follow;
    var now := envelopes[i].occurredAt;
    if Expired(s.windows, now) == {} {
      assert forall key :: key in s.windows && s.windows[key] < now - 2 * MINUTE ==> key in Expired(s.windows, now);
      assert Kept(s.windows, now) == s.windows;
      moves := [EndTrim(i)];
      FollowOne(envelopes, capacity, s, EndTrim(i));
    } else {
      var key :| key in Expired(s.windows, now);
      var seen := Next(envelopes, capacity, s, See(i, key));
      var cut := Next(envelopes, capacity, seen, Remove(i));
      RemoveOne(s.windows, now, key);
      var rest := TrimAlone(envelopes, capacity, cut, i);
      FollowOne(envelopes, capacity, s, See(i, key));
      FollowOne(envelopes, capacity, seen, Remove(i));
      FollowThen(envelopes, capacity, s, [See(i, key)], [Remove(i)]);
      FollowThen(envelopes, capacity, s, [See(i, key)] + [Remove(i)], rest);
      moves := [See(i, key)] + [Remove(i)] + rest;
      assert cut.writers[i := Ready] == s.writers[i := Ready];
    }
  }

  /** A writer alone, its key claimed, gets ready with the windows trimmed as the queue trims them. */
  lemma ClaimedAlone(envelopes: seq<Envelope>, capacity: nat, s: State, i: nat) returns (moves: seq<Move>)
    requires InRange(envelopes, s) && i < |envelopes| && s.writers[i].Claimed?
    ensures var r := Follow(envelopes, capacity, s, moves);
      r.Some? && InRange(envelopes, r.value) && OnlyTrimmed(s, r.value, i)
      && r.value.windows == Trimmed(s.windows, envelopes[i].occurredAt)
  {
    hide SuppressionKey, IsDuplicate, Follow;
    var counted := Next(envelopes, capacity, s, CheckCount(i));
    FollowOne(envelopes, capacity, s, CheckCount(i));
    if |s.windows| < TRIM_THRESHOLD {
      moves := [CheckCount(i)];
    } else {
      var rest := TrimAlone(envelopes, capacity, counted, i);
      FollowThen(envelopes, capacity, s, [CheckCount(i)], rest);
      moves := [CheckCount(i)] + rest;
    }
  }

  /** What TryEnqueue's contract says of the windows, the channel and the counters. */
  ghost predicate Enqueues(s: State, t: State, capacity: nat, i: nat, e: Envelope) {
    var admitted := Admitted(s.windows, e);
    && t.windows == (if e.reason == RateLimited && admitted
                     then Trimmed(s.windows[SuppressionKey(e) := e.occurredAt], e.occurredAt) else s.windows)
    && t.channel == (if admitted && |s.channel| < capacity then s.channel + [i] else s.channel)
    && t.suppressed == s.suppressed + (if admitted then 0 else 1)
    && t.failures == s.failures + (if admitted && |s.channel| >= capacity then 1 else 0)
    && t.events == s.events && t.worker == s.worker
  }

  /** One writer's moves, made without interruption, have exactly the effect of TryEnqueue. */
  lemma TryEnqueueIsOneWriter(envelopes: seq<Envelope>, capacity: nat, s: State, i: nat) returns (moves: seq<Move>)
    requires InRange(envelopes, s) && i < |envelopes| && s.writers[i].Arriving?
    ensures var r := Follow(envelopes, capacity, s, moves);
      r.Some? && Enqueues(s, r.value, capacity, i, envelopes[i])
      && |r.value.writers| == |envelopes|
      && (r.value.writers[i].Suppressed? || r.value.writers[i].Dropped? || r.value.writers[i].Enqueued?)
  {
    hide SuppressionKey, IsDuplicate, Follow, Trimmed;
    var e := envelopes[i];
    var first := if e.reason == RateLimited then Claim(i) else Move.Pass(i);
    var s1 := Next(envelopes, capacity, s, first);
    FollowOne(envelopes, capacity, s, first);
    moves := [first];
    if Admitted(s.windows, e) {
      var s2 := s1;
      if e.reason == RateLimited {
        var more := ClaimedAlone(envelopes, capacity, s1, i);
        FollowThen(envelopes, capacity, s, moves, more);
        moves := moves + more;
        s2 := Follow(envelopes, capacity, s, moves).value;
      }
      FollowOne(envelopes, capacity, s2, Write(i));
      FollowThen(envelopes, capacity, s, moves, [Write(i)]);
      moves := moves + [Write(i)];
      s1 := Next(envelopes, capacity, s2, Write(i));
    }
    if s1.writers[i].Duplicate? || s1.writers[i].Refused? {
      FollowOne(envelopes, capacity, s1, Count(i));
      FollowThen(envelopes, capacity, s, moves, [Count(i)]);
      moves := moves + [Count(i)];
    }
  }

  /** Taking, delivering and counting one envelope has the effect of one turn of the worker's loop. */
  lemma WorkerTurn(envelopes: seq<Envelope>, capacity: nat, s: State, fails: bool) returns (moves: seq<Move>)
    requires InRange(envelopes, s) && s.channel != [] && s.worker.Idle?
    ensures var r := Follow(envelopes, capacity, s, moves);
      && r.Some? && InRange(envelopes, r.value) && r.value.channel == s.channel[1..] && r.value.worker.Idle?
      && Tally(Rows(envelopes, r.value.events), r.value.suppressed, r.value.failures)
        == Delivered(Tally(Rows(envelopes, s.events), s.suppressed, s.failures), envelopes[s.channel[0]], fails)
  {
    hide SuppressionKey, IsDuplicate, Follow;
    var taken := Next(envelopes, capacity, s, Take);
    FollowOne(envelopes, capacity, s, Take);
    FollowOne(envelopes, capacity, taken, Deliver(fails));
    FollowThen(envelopes, capacity, s, [Take], [Deliver(fails)]);
    moves := [Take] + [Deliver(fails)];
    var t := Next(envelopes, capacity, taken, Deliver(fails));
    if t.worker.Counting? {
      FollowOne(envelopes, capacity, t, CountOutcome);
      FollowThen(envelopes, capacity, s, moves, [CountOutcome]);
      moves := moves + [CountOutcome];
    } else {
      assert Rows(envelopes, s.events + [s.channel[0]]) == Rows(envelopes, s.events) + [envelopes[s.channel[0]]];
    }
  }
}
