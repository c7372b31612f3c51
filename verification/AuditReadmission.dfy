/** The one-minute bound matters: a later envelope brings a trimmed window back. */
module AuditReadmission {
  import opened Base
  import opened Text
  import opened AuditPipeline

  /** Just over two minutes after the first envelope. */
  const LATER: nat := 2 * MINUTE + 1

  function Limited(partition: string, occurredAt: nat): Envelope {
    Envelope(EMPTY_GUID, occurredAt, RateLimited, "GET /questions", partition, Some(WindowStart(occurredAt)))
  }

  /** One old envelope, enough later ones of other partitions to fill the table, and one more for the old window, from
      the last tick of its minute. */
  function Arrivals(): (r: seq<Envelope>)
    ensures |r| == TRIM_THRESHOLD + 1
    ensures r[TRIM_THRESHOLD] == Limited(NatText(0), MINUTE - 1)
    ensures forall i :: 0 <= i < TRIM_THRESHOLD ==> r[i] == Limited(NatText(i), if i == 0 then 0 else LATER)
  {
    seq(TRIM_THRESHOLD + 1, i requires 0 <= i < TRIM_THRESHOLD + 1 =>
      if i == TRIM_THRESHOLD then Limited(NatText(0), MINUTE - 1) else Limited(NatText(i), if i == 0 then 0 else LATER))
  }

  lemma ArrivalsWellFormed()
    ensures AllWellFormed(Arrivals())
  {
    hide NatText;
    forall i | 0 <= i < |Arrivals()| ensures WellFormed(Arrivals()[i]) {
      NoColon(if i == TRIM_THRESHOLD then 0 else i);
    }
  }

  lemma {:induction false} NoColon(n: nat)
    ensures ':' !in NatText(n)
  {
    var s := NatText(n);
    assert forall i :: 0 <= i < |s| ==> IsDigit(s[i]);
  }

  function KeyAt(i: nat): string
    requires i <= TRIM_THRESHOLD
  {
    SuppressionKey(Arrivals()[i])
  }

  lemma KeysDiffer(i: nat, j: nat)
    requires i < TRIM_THRESHOLD && j < TRIM_THRESHOLD && i != j
    ensures KeyAt(i) != KeyAt(j)
  {
    hide NatText, SuppressionKey;
    if KeyAt(i) == KeyAt(j) {
      ArrivalsWellFormed();
      SuppressionKeyInjective(Arrivals()[i], Arrivals()[j]);
      NatTextRoundTrip(i);
      NatTextRoundTrip(j);
    }
  }

  lemma OldKeyAgain()
    ensures KeyAt(TRIM_THRESHOLD) == KeyAt(0)
  {
    hide NatText;
    assert WindowStart(MINUTE - 1) == 0 == WindowStart(0);
  }

  /** The table after the first n claims. */
  ghost predicate Claimed(s: State, n: nat)
    requires n <= TRIM_THRESHOLD
  {
    && |s.writers| == TRIM_THRESHOLD + 1 && InRange(Arrivals(), s)
    && (forall i :: 0 <= i < |s.writers| ==> s.writers[i] == if i < n then Writer.Claimed else Arriving)
    && |s.windows| == n
    && (forall i :: 0 <= i < n ==> KeyAt(i) in s.windows && s.windows[KeyAt(i)] == Arrivals()[i].occurredAt)
    && (forall i :: n <= i < TRIM_THRESHOLD ==> KeyAt(i) !in s.windows)
    && s.claims == seq(n, i => i) && s.removals == [] && s.channel == [] && s.accepted == []
  }

  function Claims(n: nat): (moves: seq<Move>)
    ensures |moves| == n
  {
    seq(n, i requires 0 <= i < n => Claim(i))
  }

  lemma ClaimNext(capacity: nat, s: State, n: nat)
    requires n < TRIM_THRESHOLD && Claimed(s, n)
    ensures Enabled(Arrivals(), s, Claim(n)) && Claimed(Next(Arrivals(), capacity, s, Claim(n)), n + 1)
  {
    hide SuppressionKey, NatText;
    forall i | 0 <= i < TRIM_THRESHOLD && i != n ensures KeyAt(i) != KeyAt(n) { KeysDiffer(i, n); }
    hide IsDuplicate;
    assert seq(n + 1, i => i) == seq(n, i => i) + [n];
  }

  lemma StartClaimed(s: State)
    requires s == Start(TRIM_THRESHOLD + 1)
    ensures Claimed(s, 0)
  {
    hide SuppressionKey, NatText;
  }

  lemma {:induction false} ClaimMany(capacity: nat, n: nat)
    requires n <= TRIM_THRESHOLD
    ensures Possible(Arrivals(), capacity, Claims(n)) && Claimed(After(Arrivals(), capacity, Claims(n)), n)
  {
    hide Next, Enabled, SuppressionKey, NatText, Claimed;
    if n == 0 {
      StartClaimed(Start(|Arrivals()|));
    } else {
      ClaimMany(capacity, n - 1);
      assert Claims(n)[..n - 1] == Claims(n - 1);
      ClaimNext(capacity, After(Arrivals(), capacity, Claims(n - 1)), n - 1);
    }
  }

  lemma {:induction false} OneMore(envelopes: seq<Envelope>, capacity: nat, moves: seq<Move>, m: Move)
    requires Possible(envelopes, capacity, moves) && Enabled(envelopes, After(envelopes, capacity, moves), m)
    ensures Possible(envelopes, capacity, moves + [m])
    ensures After(envelopes, capacity, moves + [m]) == Next(envelopes, capacity, After(envelopes, capacity, moves), m)
  {
    hide Next, Enabled;
    assert (moves + [m])[..|moves|] == moves;
  }

  /** A writer whose key is claimed in a full table may write without removing a window. */
  function WriteOut(i: nat): seq<Move> {
    [CheckCount(i)] + [EndTrim(i)] + [Write(i)]
  }

  lemma WritesOut(capacity: nat, moves: seq<Move>, i: nat)
    requires Possible(Arrivals(), capacity, moves) && i <= TRIM_THRESHOLD
    requires var s := After(Arrivals(), capacity, moves);
      s.writers[i].Claimed? && |s.windows| >= TRIM_THRESHOLD && |s.channel| < capacity
    ensures Possible(Arrivals(), capacity, moves + WriteOut(i))
    ensures var s := After(Arrivals(), capacity, moves);
      After(Arrivals(), capacity, moves + WriteOut(i))
        == s.(writers := s.writers[i := Enqueued], channel := s.channel + [i], accepted := s.accepted + [i])
  {
    hide SuppressionKey, NatText, After, Possible, IsDuplicate, Rows;
    var all := Arrivals();
    var m1 := moves + [CheckCount(i)];
    var m2 := m1 + [EndTrim(i)];
    OneMore(all, capacity, moves, CheckCount(i));
    OneMore(all, capacity, m1, EndTrim(i));
    OneMore(all, capacity, m2, Write(i));
    assert m2 + [Write(i)] == moves + WriteOut(i);
    var s := After(all, capacity, moves);
    assert s.writers[i := Trimming][i := Ready][i := Enqueued] == s.writers[i := Enqueued];
  }

  /** The last claimer trims the old window, and the late envelope claims it. */
  function TrimAndClaim(): seq<Move> {
    [CheckCount(TRIM_THRESHOLD - 1)] + [See(TRIM_THRESHOLD - 1, KeyAt(0))] + [Remove(TRIM_THRESHOLD - 1)]
      + [Claim(TRIM_THRESHOLD)]
  }

  /** The moves: every claim; the old envelope is written; its window is trimmed and claimed again by the late envelope,
      which is written too. */
  function Readmission(): seq<Move> {
    Claims(TRIM_THRESHOLD) + WriteOut(0) + TrimAndClaim() + WriteOut(TRIM_THRESHOLD)
  }

  lemma Reclaims(capacity: nat, moves: seq<Move>)
    requires Possible(Arrivals(), capacity, moves)
    requires var s := After(Arrivals(), capacity, moves);
      && s.writers[TRIM_THRESHOLD - 1].Claimed? && s.writers[TRIM_THRESHOLD].Arriving? && |s.windows| == TRIM_THRESHOLD
      && KeyAt(0) in s.windows && s.windows[KeyAt(0)] == 0 && s.removals == []
    ensures Possible(Arrivals(), capacity, moves + TrimAndClaim())
    ensures var s, t := After(Arrivals(), capacity, moves), After(Arrivals(), capacity, moves + TrimAndClaim());
      && t.claims == s.claims + [TRIM_THRESHOLD] && t.removals == [(KeyAt(0), TRIM_THRESHOLD - 1)]
      && t.channel == s.channel && t.accepted == s.accepted && t.writers[TRIM_THRESHOLD].Claimed?
      && |t.windows| == TRIM_THRESHOLD
  {
    hide SuppressionKey, NatText, After, Possible, IsDuplicate, Rows;
    var n, all := TRIM_THRESHOLD, Arrivals();
    OldKeyAgain();
    OneMore(all, capacity, moves, CheckCount(n - 1));
    var m1 := moves + [CheckCount(n - 1)];
    OneMore(all, capacity, m1, See(n - 1, KeyAt(0)));
    var m2 := m1 + [See(n - 1, KeyAt(0))];
    OneMore(all, capacity, m2, Remove(n - 1));
    var m3 := m2 + [Remove(n - 1)];
    OneMore(all, capacity, m3, Claim(n));
    assert m3 + [Claim(n)] == moves + TrimAndClaim();
    var s := After(all, capacity, moves);
    assert |s.windows - {KeyAt(0)}| == n - 1;
  }

  /** An envelope one minute and two ticks older than the one that trimmed its window claims that window a second
      time, and the window reaches the channel twice. */
  lemma LateEnvelopeReadmits(capacity: nat)
    requires capacity >= 2
    ensures AllWellFormed(Arrivals()) && Possible(Arrivals(), capacity, Readmission())
    ensures var s := After(Arrivals(), capacity, Readmission());
      && !ClaimedOnce(Arrivals(), s)
      && s.accepted == [0, TRIM_THRESHOLD] && SameWindow(Arrivals()[0], Arrivals()[TRIM_THRESHOLD])
      && s.removals == [(KeyAt(0), TRIM_THRESHOLD - 1)]
      && Arrivals()[TRIM_THRESHOLD].occurredAt + MINUTE + 2 == Arrivals()[TRIM_THRESHOLD - 1].occurredAt
  {
    hide SuppressionKey, NatText, After, Possible, IsDuplicate, Rows, Next, Enabled;
    var n, all := TRIM_THRESHOLD, Arrivals();
    ArrivalsWellFormed();
    OldKeyAgain();
    ClaimMany(capacity, n);
    WritesOut(capacity, Claims(n), 0);
    Reclaims(capacity, Claims(n) + WriteOut(0));
    WritesOut(capacity, Claims(n) + WriteOut(0) + TrimAndClaim(), n);
    var s := After(all, capacity, Readmission());
    assert s.claims == seq(n, i => i) + [n];
    assert s.claims[0] == 0 && s.claims[n] == n;
    assert WindowStart(MINUTE - 1) == 0 == WindowStart(0);
  }
}
