/** The audit pipeline told in its own terms: what a minute is, what is trimmed, what the worker stores and counts. */
module AuditLaws {
  import opened Text
  import opened AuditPipeline
  import opened AuditQueue

  /** Sixty seconds of ten million ticks. */
  const SIXTY_SECONDS: nat := 60 * 10_000_000

  /** A window starts at the last full minute. */
  lemma WindowIsMinute(t: nat)
    ensures WindowStart(t) <= t < WindowStart(t) + SIXTY_SECONDS && WindowStart(t) % SIXTY_SECONDS == 0
  {
  }

  /** Both rows are about one rate-limited window: the same partition and action in the same minute. */
  ghost predicate OneWindow(a: Envelope, b: Envelope) {
    && a.reason.RateLimited? && b.reason.RateLimited?
    && a.partition == b.partition && a.action == b.action && a.window == b.window
  }

  ghost predicate Present(events: seq<Envelope>, e: Envelope) {
    exists l :: 0 <= l < |events| && OneWindow(events[l], e)
  }

  lemma DuplicateExactly(events: seq<Envelope>, e: Envelope)
    ensures IsDuplicate(events, e) <==> Present(events, e)
  {
  }

  /** An envelope gets past the windows unless it is rate-limited and its text is among them. */
  lemma AdmittedExactly(windows: map<string, nat>, e: Envelope)
    ensures Admitted(windows, e) <==>
      !(e.reason.RateLimited?
        && e.partition + ":" + e.action + ":" + IntText(if e.window.Some? then e.window.value else 0) in windows)
  {
    var w := IntText(if e.window.Some? then e.window.value else 0);
    assert e.partition + ":" + (e.action + ":" + w) == e.partition + ":" + e.action + ":" + w;
  }

  /** From 4096 entries on trimming drops exactly those more than two minutes old, below it drops none. */
  lemma TrimmedExactly(windows: map<string, nat>, now: nat, key: string)
    ensures key in Trimmed(windows, now) <==>
      key in windows && (|windows| >= 4096 ==> windows[key] + 2 * SIXTY_SECONDS >= now)
    ensures key in Trimmed(windows, now) ==> Trimmed(windows, now)[key] == windows[key]
  {
  }

  // ------------------------------------------------------------------ the worker

  /** Place k of the channel is stored: its write does not fail, and its window was not there before. */
  ghost predicate Stores(t: Tally, channel: seq<Envelope>, fails: seq<bool>, k: nat)
    requires |fails| == |channel| && k < |channel|
  {
    && !fails[k] && !Present(t.events, channel[k])
    && forall j :: 0 <= j < k && !fails[j] ==> !OneWindow(channel[j], channel[k])
  }

  ghost function Stored(t: Tally, channel: seq<Envelope>, fails: seq<bool>): set<nat>
    requires |fails| == |channel|
  {
    set k: nat | k < |channel| && Stores(t, channel, fails, k)
  }

  ghost function Failed(fails: seq<bool>): set<nat> {
    set k: nat | k < |fails| && fails[k]
  }

  /** The rows at the places, in order. */
  ghost function RowsAt(channel: seq<Envelope>, places: set<nat>): seq<Envelope> {
    if channel == [] then []
    else
      var n := |channel| - 1;
      RowsAt(channel[..n], places) + if n in places then [channel[n]] else []
  }

  /** The same place of a channel and of its beginning. */
  lemma StoresBefore(t: Tally, channel: seq<Envelope>, fails: seq<bool>, n: nat, k: nat)
    requires |fails| == |channel| && k < n <= |channel|
    ensures Stores(t, channel[..n], fails[..n], k) <==> Stores(t, channel, fails, k)
  {
    hide Present, OneWindow;
    assert channel[..n][k] == channel[k] && fails[..n][k] == fails[k];
    assert forall j :: 0 <= j < k ==> channel[..n][j] == channel[j] && fails[..n][j] == fails[j];
  }

  lemma {:induction false} RowsSame(channel: seq<Envelope>, a: set<nat>, b: set<nat>)
    requires forall k: nat :: k < |channel| ==> (k in a <==> k in b)
    ensures RowsAt(channel, a) == RowsAt(channel, b)
    decreases |channel|
  {
    if channel != [] { RowsSame(channel[..|channel| - 1], a, b); }
  }

  lemma {:induction false} RowOf(channel: seq<Envelope>, places: set<nat>, row: Envelope)
    ensures row in RowsAt(channel, places)
      <==> exists k: nat :: k < |channel| && k in places && channel[k] == row
    decreases |channel|
  {
    if channel != [] {
      var n := |channel| - 1;
      RowOf(channel[..n], places, row);
      forall k: nat | k < n ensures channel[..n][k] == channel[k] {}
    }
  }

  lemma WindowShared(a: Envelope, b: Envelope, c: Envelope)
    requires OneWindow(a, b) && OneWindow(b, c)
    ensures OneWindow(a, c)
  {
  }

  lemma PresentShared(events: seq<Envelope>, b: Envelope, c: Envelope)
    requires Present(events, b) && OneWindow(b, c)
    ensures Present(events, c)
  {
    var l :| 0 <= l < |events| && OneWindow(events[l], b);
    WindowShared(events[l], b, c);
  }

  lemma PresentIn(events: seq<Envelope>, row: Envelope, e: Envelope)
    requires row in events && OneWindow(row, e)
    ensures Present(events, e)
  {
  }

  /** A write that did not fail leaves its window in the sink. */
  lemma {:induction false} WindowStays(t: Tally, channel: seq<Envelope>, fails: seq<bool>, j: nat, e: Envelope)
    requires |fails| == |channel| && j < |channel| && !fails[j] && OneWindow(channel[j], e)
    ensures Present(t.events + RowsAt(channel, Stored(t, channel, fails)), e)
    decreases j
  {
    hide OneWindow, RowsAt, Present;
    var rows := RowsAt(channel, Stored(t, channel, fails));
    if Stores(t, channel, fails, j) {
      RowOf(channel, Stored(t, channel, fails), channel[j]);
      PresentIn(t.events + rows, channel[j], e);
    } else if Present(t.events, channel[j]) {
      PresentShared(t.events, channel[j], e);
      PresentMore(t.events, rows, e);
    } else {
      var i: nat :| i < j && !fails[i] && OneWindow(channel[i], channel[j]);
      WindowShared(channel[i], channel[j], e);
      WindowStays(t, channel, fails, i, e);
    }
  }

  lemma PresentMore(events: seq<Envelope>, rows: seq<Envelope>, e: Envelope)
    ensures Present(events + rows, e) <==> Present(events, e) || Present(rows, e)
  {
    hide OneWindow;
    var all := events + rows;
    if l :| 0 <= l < |all| && OneWindow(all[l], e) { assert l >= |events| ==> rows[l - |events|] == all[l]; }
    if l :| 0 <= l < |events| && OneWindow(events[l], e) { assert all[l] == events[l]; }
    if l :| 0 <= l < |rows| && OneWindow(rows[l], e) { assert all[|events| + l] == rows[l]; }
  }

  lemma PresentAfter(t: Tally, channel: seq<Envelope>, fails: seq<bool>, e: Envelope)
    requires |fails| == |channel|
    ensures Present(t.events + RowsAt(channel, Stored(t, channel, fails)), e) <==>
      Present(t.events, e) || exists j: nat :: j < |channel| && !fails[j] && OneWindow(channel[j], e)
  {
    hide OneWindow, RowsAt, Stored;
    var rows := RowsAt(channel, Stored(t, channel, fails));
    PresentMore(t.events, rows, e);
    if Present(rows, e) {
      var l :| 0 <= l < |rows| && OneWindow(rows[l], e);
      RowOf(channel, Stored(t, channel, fails), rows[l]);
      StoredSucceeds(t, channel, fails);
    }
    if j: nat :| j < |channel| && !fails[j] && OneWindow(channel[j], e) { WindowStays(t, channel, fails, j, e); }
  }

  lemma StoredSucceeds(t: Tally, channel: seq<Envelope>, fails: seq<bool>)
    requires |fails| == |channel|
    ensures forall k: nat :: k in Stored(t, channel, fails) ==> k < |channel| && !fails[k]
  {
  }

  lemma FailedGrows(fails: seq<bool>)
    requires fails != []
    ensures var n := |fails| - 1; |Failed(fails)| == |Failed(fails[..n])| + (if fails[n] then 1 else 0)
  {
    var n := |fails| - 1;
    var oks := fails[..n];
    assert Failed(fails) == Failed(oks) + if fails[n] then {n} else {};
  }

  lemma StoredGrows(t: Tally, channel: seq<Envelope>, fails: seq<bool>)
    requires |fails| == |channel| && channel != []
    ensures var n: nat := |channel| - 1;
      Stored(t, channel, fails)
        == Stored(t, channel[..n], fails[..n]) + (if Stores(t, channel, fails, n) then {n} else {})
  {
    hide Stores;
    var n: nat := |channel| - 1;
    forall k: nat | k < n ensures Stores(t, channel[..n], fails[..n], k) <==> Stores(t, channel, fails, k) {
      StoresBefore(t, channel, fails, n, k);
    }
  }

  /** One more place: the sets grow by it or not. */
  lemma PlacesGrow(t: Tally, channel: seq<Envelope>, fails: seq<bool>)
    requires |fails| == |channel| && channel != []
    ensures var n := |channel| - 1; var before, oks := channel[..n], fails[..n];
      && |Stored(t, channel, fails)| == |Stored(t, before, oks)| + (if Stores(t, channel, fails, n) then 1 else 0)
      && RowsAt(channel, Stored(t, channel, fails))
         == RowsAt(before, Stored(t, before, oks)) + (if Stores(t, channel, fails, n) then [channel[n]] else [])
  {
    hide Stores, Stored;
    var n: nat := |channel| - 1;
    StoredGrows(t, channel, fails);
    StoredBelow(t, channel[..n], fails[..n]);
    RowsSame(channel[..n], Stored(t, channel[..n], fails[..n]), Stored(t, channel, fails));
  }

  lemma StoredBelow(t: Tally, channel: seq<Envelope>, fails: seq<bool>)
    requires |fails| == |channel|
    ensures forall k: nat :: k in Stored(t, channel, fails) ==> k < |channel|
  {
    hide Stores;
  }

  /** Draining stores the rows of just those places, in order, and counts every other one: as a failure if its write
      failed, and else as suppressed. */
  lemma {:induction false} DrainedExactly(t: Tally, channel: seq<Envelope>, fails: seq<bool>)
    requires |fails| == |channel|
    ensures Drained(t, channel, fails).events == t.events + RowsAt(channel, Stored(t, channel, fails))
    ensures Drained(t, channel, fails).failures == t.failures + |Failed(fails)|
    ensures Drained(t, channel, fails).suppressed
      == t.suppressed + |channel| - |Failed(fails)| - |Stored(t, channel, fails)|
    decreases |channel|
  {
    hide OneWindow, Present, IsDuplicate, Stores, Stored, Failed, RowsAt;
    if channel == [] {
      NothingStored(t);
    } else {
      var n := |channel| - 1;
      var before, oks := channel[..n], fails[..n];
      DrainedExactly(t, before, oks);
      PlacesGrow(t, channel, fails);
      FailedGrows(fails);
      DuplicateExactly(Drained(t, before, oks).events, channel[n]);
      PresentAfter(t, before, oks, channel[n]);
      LastStores(t, channel, fails);
    }
  }

  lemma NothingStored(t: Tally)
    ensures Failed([]) == {} && Stored(t, [], []) == {} && RowsAt([], {}) == []
  {
  }

  lemma LastStores(t: Tally, channel: seq<Envelope>, fails: seq<bool>)
    requires |fails| == |channel| && channel != []
    ensures var n := |channel| - 1;
      Stores(t, channel, fails, n) <==>
        && !fails[n] && !Present(t.events, channel[n])
        && !exists j: nat :: j < |channel[..n]| && !fails[..n][j] && OneWindow(channel[..n][j], channel[n])
  {
    hide OneWindow, Present;
    var n := |channel| - 1;
    forall j: nat | j < n ensures channel[..n][j] == channel[j] && fails[..n][j] == fails[j] {}
  }

  // ------------------------------------------------------------------ the interleaved pipeline

  /** Which of the deliveries so far failed, in order. */
  ghost function Outcomes(moves: seq<Move>): seq<bool> {
    if moves == [] then []
    else
      var n := |moves| - 1;
      Outcomes(moves[..n]) + match moves[n] case Deliver(fails) => [fails] case _ => []
  }

  /** The channel is what was accepted last, and n of what was taken before has been delivered. */
  ghost predicate InTurn(s: State, n: nat) {
    && n <= |s.accepted| - |s.channel|
    && s.channel == s.accepted[|s.accepted| - |s.channel|..]
    && match s.worker
       case Holding(i) => n + 1 == |s.accepted| - |s.channel| && i == s.accepted[n]
       case _ => n == |s.accepted| - |s.channel|
  }

  lemma MoveInTurn(envelopes: seq<Envelope>, capacity: nat, s: State, m: Move, n: nat)
    requires Enabled(envelopes, s, m) && InRange(envelopes, s) && InTurn(s, n)
    ensures InTurn(Next(envelopes, capacity, s, m), if m.Deliver? then n + 1 else n)
  {
    hide SuppressionKey, IsDuplicate, Rows;
  }

  ghost function Suppressing(writers: seq<Writer>): set<nat> {
    set i: nat | i < |writers| && writers[i].Suppressed?
  }

  ghost function Dropping(writers: seq<Writer>): set<nat> {
    set i: nat | i < |writers| && writers[i].Dropped?
  }

  lemma WriterMoves(writers: seq<Writer>, i: nat, w: Writer)
    requires i < |writers| && !writers[i].Suppressed? && !writers[i].Dropped?
    ensures |Suppressing(writers[i := w])| == |Suppressing(writers)| + (if w.Suppressed? then 1 else 0)
    ensures |Dropping(writers[i := w])| == |Dropping(writers)| + (if w.Dropped? then 1 else 0)
  {
    assert Suppressing(writers[i := w]) == Suppressing(writers) + if w.Suppressed? then {i} else {};
    assert Dropping(writers[i := w]) == Dropping(writers) + if w.Dropped? then {i} else {};
  }

  /** The sink and both counters agree with draining d, the writers' own counts aside. */
  ghost predicate Agrees(envelopes: seq<Envelope>, s: State, d: Tally)
    requires InRange(envelopes, s)
  {
    && Rows(envelopes, s.events) == d.events
    && s.suppressed + (if s.worker == Counting(false) then 1 else 0) == d.suppressed + |Suppressing(s.writers)|
    && s.failures + (if s.worker == Counting(true) then 1 else 0) == d.failures + |Dropping(s.writers)|
  }

  lemma WriterAgrees(envelopes: seq<Envelope>, capacity: nat, s: State, m: Move, d: Tally)
    requires Enabled(envelopes, s, m) && InRange(envelopes, s) && Agrees(envelopes, s, d)
    requires !m.Take? && !m.Deliver? && !m.CountOutcome?
    ensures Agrees(envelopes, Next(envelopes, capacity, s, m), d)
  {
    hide SuppressionKey, IsDuplicate, Rows, Suppressing, Dropping;
    WriterMoves(s.writers, m.i, Next(envelopes, capacity, s, m).writers[m.i]);
  }

  lemma WorkerAgrees(envelopes: seq<Envelope>, capacity: nat, s: State, m: Move, d: Tally)
    requires Enabled(envelopes, s, m) && InRange(envelopes, s) && Agrees(envelopes, s, d)
    requires m.Take? || m.Deliver? || m.CountOutcome?
    ensures Agrees(envelopes, Next(envelopes, capacity, s, m),
                   if m.Deliver? then Delivered(d, envelopes[s.worker.i], m.fails) else d)
  {
    hide SuppressionKey, IsDuplicate, Suppressing, Dropping;
    if m.Deliver? {
      assert Rows(envelopes, s.events + [s.worker.i]) == Rows(envelopes, s.events) + [envelopes[s.worker.i]];
    }
  }

  /** Everything accepted is an envelope. */
  ghost predicate AcceptedInRange(envelopes: seq<Envelope>, s: State) {
    forall k :: 0 <= k < |s.accepted| ==> s.accepted[k] < |envelopes|
  }

  lemma AcceptedFits(envelopes: seq<Envelope>, capacity: nat, moves: seq<Move>)
    requires Possible(envelopes, capacity, moves)
    ensures AcceptedInRange(envelopes, After(envelopes, capacity, moves))
  {
    hide Possible, After, Conserved, Deduplicated, WindowsTraced, ClaimsRecorded;
    PipelineInv(envelopes, capacity, moves);
  }

  /** What draining the accepted envelopes delivered so far gives. */
  ghost function Delivery(envelopes: seq<Envelope>, s: State, outcomes: seq<bool>): Tally
    requires AcceptedInRange(envelopes, s) && |outcomes| <= |s.accepted|
  {
    Drained(Tally([], 0, 0), Rows(envelopes, s.accepted[..|outcomes|]), outcomes)
  }

  ghost predicate Drains(envelopes: seq<Envelope>, s: State, outcomes: seq<bool>)
    requires InRange(envelopes, s)
  {
    && AcceptedInRange(envelopes, s) && InTurn(s, |outcomes|)
    && Agrees(envelopes, s, Delivery(envelopes, s, outcomes))
  }

  /** Accepting one more changes nothing that was delivered. */
  lemma DeliveryStays(envelopes: seq<Envelope>, s: State, t: State, outcomes: seq<bool>)
    requires AcceptedInRange(envelopes, s) && AcceptedInRange(envelopes, t) && |outcomes| <= |s.accepted|
    requires s.accepted <= t.accepted
    ensures Delivery(envelopes, t, outcomes) == Delivery(envelopes, s, outcomes)
  {
    hide Drained;
    assert t.accepted[..|outcomes|] == s.accepted[..|outcomes|];
  }

  lemma OneMoreDelivery(envelopes: seq<Envelope>, s: State, outcomes: seq<bool>, fails: bool)
    requires AcceptedInRange(envelopes, s) && |outcomes| < |s.accepted|
    ensures Delivery(envelopes, s, outcomes + [fails])
      == Delivered(Delivery(envelopes, s, outcomes), envelopes[s.accepted[|outcomes|]], fails)
  {
    hide Delivered;
    var n := |outcomes|;
    var rows := Rows(envelopes, s.accepted[..n + 1]);
    assert rows[..n] == Rows(envelopes, s.accepted[..n]) && rows[n] == envelopes[s.accepted[n]];
    assert (outcomes + [fails])[..n] == outcomes;
  }

  lemma MoveDrains(envelopes: seq<Envelope>, capacity: nat, s: State, m: Move, outcomes: seq<bool>)
    requires Enabled(envelopes, s, m) && InRange(envelopes, s) && Drains(envelopes, s, outcomes)
    requires AcceptedInRange(envelopes, Next(envelopes, capacity, s, m))
    ensures Drains(envelopes, Next(envelopes, capacity, s, m),
                   outcomes + match m case Deliver(fails) => [fails] case _ => [])
  {
    hide SuppressionKey, IsDuplicate, Agrees, Delivery, Delivered, Rows;
    var t := Next(envelopes, capacity, s, m);
    MoveInTurn(envelopes, capacity, s, m, |outcomes|);
    DeliveryStays(envelopes, s, t, outcomes);
    if m.Take? || m.Deliver? || m.CountOutcome? {
      WorkerAgrees(envelopes, capacity, s, m, Delivery(envelopes, s, outcomes));
      if m.Deliver? { OneMoreDelivery(envelopes, t, outcomes, m.fails); }
    } else {
      WriterAgrees(envelopes, capacity, s, m, Delivery(envelopes, s, outcomes));
    }
    assert outcomes + [] == outcomes;
  }

  /** In every interleaving the worker delivers what was accepted, in that order, and the sink and the counters are
      those of draining it: besides the writers' own suppressions and drops and an outcome not yet counted. */
  lemma {:induction false} PipelineDrains(envelopes: seq<Envelope>, capacity: nat, moves: seq<Move>)
    requires Possible(envelopes, capacity, moves)
    ensures Drains(envelopes, After(envelopes, capacity, moves), Outcomes(moves))
    decreases |moves|
  {
    hide Next, Enabled, Drains, InRange;
    if moves == [] {
      StartDrains(envelopes);
    } else {
      var n := |moves| - 1;
      PipelineDrains(envelopes, capacity, moves[..n]);
      AcceptedFits(envelopes, capacity, moves);
      MoveDrains(envelopes, capacity, After(envelopes, capacity, moves[..n]), moves[n], Outcomes(moves[..n]));
    }
  }

  lemma StartDrains(envelopes: seq<Envelope>)
    ensures InRange(envelopes, Start(|envelopes|)) && Drains(envelopes, Start(|envelopes|), [])
  {
    var s := Start(|envelopes|);
    assert Suppressing(s.writers) == {} && Dropping(s.writers) == {};
    assert Rows(envelopes, []) == [];
  }

  /** In every interleaving: of the envelopes delivered so far, in the order the channel took them, the sink holds just
      those whose write did not fail and whose window was new; the counters hold the others, by why they were lost. */
  lemma PipelineTold(envelopes: seq<Envelope>, capacity: nat, moves: seq<Move>)
    requires Possible(envelopes, capacity, moves)
    ensures var s, fails := After(envelopes, capacity, moves), Outcomes(moves);
      && AcceptedInRange(envelopes, s) && InTurn(s, |fails|)
      && var delivered, none := Rows(envelopes, s.accepted[..|fails|]), Tally([], 0, 0);
         && Rows(envelopes, s.events) == RowsAt(delivered, Stored(none, delivered, fails))
         && s.failures + (if s.worker == Counting(true) then 1 else 0) == |Failed(fails)| + |Dropping(s.writers)|
         && s.suppressed + (if s.worker == Counting(false) then 1 else 0)
            == |fails| - |Failed(fails)| - |Stored(none, delivered, fails)| + |Suppressing(s.writers)|
  {
    hide After, Possible, Outcomes, Rows, RowsAt, Stored, Failed, Suppressing, Dropping, InRange, InTurn;
    hide AcceptedInRange;
    PipelineDrains(envelopes, capacity, moves);
    var s, fails := After(envelopes, capacity, moves), Outcomes(moves);
    DeliveredInRange(envelopes, s, |fails|);
    DrainedExactly(Tally([], 0, 0), Rows(envelopes, s.accepted[..|fails|]), fails);
  }

  lemma DeliveredInRange(envelopes: seq<Envelope>, s: State, n: nat)
    requires AcceptedInRange(envelopes, s) && InTurn(s, n)
    ensures n <= |s.accepted| && forall k :: 0 <= k < n ==> s.accepted[..n][k] < |envelopes|
  {
  }
}
