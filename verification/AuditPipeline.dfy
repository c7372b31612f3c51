/** The security audit pipeline: writers claim a rate-limit window and write to a bounded channel,
    one worker drains it into a deduplicating sink. Times count 100-nanosecond ticks. */
module AuditPipeline {
  import opened Base
  import opened Text

  const MINUTE: int := 600_000_000

  /** The table size from which a successful claim trims expired windows. */
  const TRIM_THRESHOLD: nat := 4096

  datatype Reason = RateLimited | Denied(code: string)

  datatype Envelope = Envelope(
    id: Guid, occurredAt: nat, reason: Reason, action: string, partition: string, window: Option<nat>)

  /** The start of the minute. */
  function WindowStart(occurredAt: nat): nat {
    occurredAt - occurredAt % MINUTE
  }

  /** What the middleware builds: the partition is a hexadecimal digest, and a rate-limited
      envelope carries its own minute. */
  ghost predicate WellFormed(e: Envelope) {
    && ':' !in e.partition
    && e.window == if e.reason == RateLimited then Some(WindowStart(e.occurredAt)) else None
  }

  function Ticks(window: Option<nat>): nat {
    if window.Some? then window.value else 0
  }

  function SuppressionKey(e: Envelope): string {
    e.partition + ":" + (e.action + ":" + IntText(Ticks(e.window)))
  }

  /** Although an action may contain ':', equal suppression keys mean the same partition, action
      and window. */
  lemma SuppressionKeyInjective(a: Envelope, b: Envelope)
    requires WellFormed(a) && WellFormed(b) && SuppressionKey(a) == SuppressionKey(b)
    ensures a.partition == b.partition && a.action == b.action && Ticks(a.window) == Ticks(b.window)
  {
    var s, t := a.action + ":" + IntText(Ticks(a.window)), b.action + ":" + IntText(Ticks(b.window));
    SplitAtFirstColon(a.partition, s, b.partition, t);
    SplitAtLastColon(a.action, IntText(Ticks(a.window)), b.action, IntText(Ticks(b.window)));
    IntTextInjective(Ticks(a.window), Ticks(b.window));
  }

  lemma SplitAtFirstColon(a: string, b: string, c: string, d: string)
    requires a + ":" + b == c + ":" + d
    requires ':' !in a && ':' !in c
    ensures a == c && b == d
  {
    var s := a + ":" + b;
    assert s[|a|] == ':' && s[|c|] == ':';
    assert forall i :: 0 <= i < |a| ==> s[i] == a[i];
    assert forall i :: 0 <= i < |c| ==> s[i] == c[i];
    assert |a| == |c|;
    assert a == s[..|a|] == c;
    assert b == s[|a| + 1..] == d;
  }

  /** Rate-limited envelopes with one key fall into one minute. */
  lemma SameKeySameMinute(a: Envelope, b: Envelope)
    requires WellFormed(a) && WellFormed(b) && a.reason == b.reason == RateLimited
    requires SuppressionKey(a) == SuppressionKey(b)
    ensures a.occurredAt < b.occurredAt + MINUTE
  {
    SuppressionKeyInjective(a, b);
  }

  predicate SameWindow(a: Envelope, b: Envelope) {
    a.reason == b.reason == RateLimited && a.partition == b.partition && a.action == b.action && a.window == b.window
  }

  /** The sink's rule: no second rate-limited row for a partition, action and window. */
  predicate IsDuplicate(events: seq<Envelope>, e: Envelope) {
    e.reason == RateLimited && exists i :: 0 <= i < |events| && SameWindow(events[i], e)
  }

  // ------------------------------------------------------------ interleaved steps

  datatype Writer =
    | Arriving                 // about to call TryEnqueue
    | Claimed                  // its window key was added
    | Trimming                 // enumerating the windows
    | Expiring(key: string)    // saw an expired entry, about to remove its key
    | Ready                    // about to write to the channel
    | Duplicate                // its window key was taken, about to count the suppression
    | Refused                  // the channel was full, about to count the failure
    | Suppressed | Dropped | Enqueued  // left TryEnqueue

  datatype Worker =
    | Idle
    | Holding(i: nat)          // took envelope i, about to write it to the sink
    | Counting(failed: bool)   // the write failed or found a duplicate, about to count it

  datatype State = State(
    writers: seq<Writer>, windows: map<string, nat>, channel: seq<nat>, worker: Worker, events: seq<nat>,
    suppressed: nat, failures: nat,
    claims: seq<nat>,                  // history: envelopes whose key was added, in order
    removals: seq<(string, nat)>,      // history: removed keys with the trimming envelope
    accepted: seq<nat>)                // history: envelopes written to the channel, in order

  datatype Move =
    | Claim(i: nat) | Pass(i: nat) | CheckCount(i: nat) | See(i: nat, key: string) | Remove(i: nat) | EndTrim(i: nat)
    | Write(i: nat) | Count(i: nat) | Take | Deliver(fails: bool) | CountOutcome

  function Start(n: nat): State {
    State(seq(n, _ => Arriving), map[], [], Idle, [], 0, 0, [], [], [])
  }

  /** Any writer may move at any time; the enumeration may show any expired entry present at that
      moment, in any order, and may end at any time; the worker handles one envelope at a time. */
  predicate Enabled(envelopes: seq<Envelope>, s: State, m: Move) {
    && |s.writers| == |envelopes|
    && match m
       case Claim(i) => i < |envelopes| && s.writers[i].Arriving? && envelopes[i].reason == RateLimited
       case Pass(i) => i < |envelopes| && s.writers[i].Arriving? && envelopes[i].reason != RateLimited
       case CheckCount(i) => i < |envelopes| && s.writers[i].Claimed?
       case See(i, key) =>
         && i < |envelopes| && s.writers[i].Trimming?
         && key in s.windows && s.windows[key] < envelopes[i].occurredAt - 2 * MINUTE
       case Remove(i) => i < |envelopes| && s.writers[i].Expiring?
       case EndTrim(i) => i < |envelopes| && s.writers[i].Trimming?
       case Write(i) => i < |envelopes| && s.writers[i].Ready?
       case Count(i) => i < |envelopes| && (s.writers[i].Duplicate? || s.writers[i].Refused?)
       case Take => s.worker.Idle? && s.channel != []
       case Deliver(_) => s.worker.Holding?
       case CountOutcome => s.worker.Counting?
  }

  function Rows(envelopes: seq<Envelope>, indices: seq<nat>): (rows: seq<Envelope>)
    requires forall k :: 0 <= k < |indices| ==> indices[k] < |envelopes|
    ensures |rows| == |indices|
  {
    seq(|indices|, k requires 0 <= k < |indices| => envelopes[indices[k]])
  }

  ghost predicate InRange(envelopes: seq<Envelope>, s: State) {
    && |s.writers| == |envelopes|
    && (forall k :: 0 <= k < |s.events| ==> s.events[k] < |envelopes|)
    && (forall k :: 0 <= k < |s.channel| ==> s.channel[k] < |envelopes|)
    && (s.worker.Holding? ==> s.worker.i < |envelopes|)
  }

  ghost function Next(envelopes: seq<Envelope>, capacity: nat, s: State, m: Move): (t: State)
    requires Enabled(envelopes, s, m) && InRange(envelopes, s)
    ensures InRange(envelopes, t)
  {
    match m
    case Claim(i) =>
      var key := SuppressionKey(envelopes[i]);
      if key in s.windows then s.(writers := s.writers[i := Duplicate])
      else s.(writers := s.writers[i := Claimed], windows := s.windows[key := envelopes[i].occurredAt],
        claims := s.claims + [i])
    case Pass(i) => s.(writers := s.writers[i := Ready])
    case CheckCount(i) => s.(writers := s.writers[i := if |s.windows| < TRIM_THRESHOLD then Ready else Trimming])
    case See(i, key) => s.(writers := s.writers[i := Expiring(key)])
    case Remove(i) =>
      var key := s.writers[i].key;
      s.(writers := s.writers[i := Trimming], windows := s.windows - {key}, removals := s.removals + [(key, i)])
    case EndTrim(i) => s.(writers := s.writers[i := Ready])
    case Write(i) =>
      if |s.channel| < capacity then
        s.(writers := s.writers[i := Enqueued], channel := s.channel + [i], accepted := s.accepted + [i])
      else s.(writers := s.writers[i := Refused])
    case Count(i) =>
      if s.writers[i].Duplicate? then s.(writers := s.writers[i := Suppressed], suppressed := s.suppressed + 1)
      else s.(writers := s.writers[i := Dropped], failures := s.failures + 1)
    case Take => s.(channel := s.channel[1..], worker := Holding(s.channel[0]))
    case Deliver(fails) =>
      if fails then s.(worker := Counting(true))
      else if IsDuplicate(Rows(envelopes, s.events), envelopes[s.worker.i]) then s.(worker := Counting(false))
      else s.(worker := Idle, events := s.events + [s.worker.i])
    case CountOutcome =>
      if s.worker.failed then s.(worker := Idle, failures := s.failures + 1)
      else s.(worker := Idle, suppressed := s.suppressed + 1)
  }

  // ------------------------------------------------------------------ conservation

  function Left(w: Writer): nat {
    if w.Suppressed? || w.Dropped? || w.Enqueued? then 1 else 0
  }

  /** How many envelopes have left TryEnqueue. */
  function LeftCount(writers: seq<Writer>): nat {
    if writers == [] then 0 else LeftCount(writers[..|writers| - 1]) + Left(writers[|writers| - 1])
  }

  lemma {:induction false} LeftCountUpdate(writers: seq<Writer>, i: nat, w: Writer)
    requires i < |writers|
    ensures LeftCount(writers[i := w]) == LeftCount(writers) - Left(writers[i]) + Left(w)
  {
    var n := |writers| - 1;
    if i == n {
      assert writers[i := w][..n] == writers[..n];
    } else {
      assert writers[i := w][..n] == writers[..n][i := w];
      LeftCountUpdate(writers[..n], i, w);
    }
  }

  /** The envelope the worker has taken and not yet stored or counted. */
  function InFlight(worker: Worker): nat {
    if worker.Idle? then 0 else 1
  }

  /** Every envelope that left TryEnqueue is accounted for exactly once. */
  ghost predicate Conserved(s: State) {
    LeftCount(s.writers) == s.suppressed + s.failures + |s.events| + |s.channel| + InFlight(s.worker)
  }

  ghost predicate Deduplicated(envelopes: seq<Envelope>, s: State)
    requires InRange(envelopes, s)
  {
    forall k, l :: 0 <= k < l < |s.events| ==> !SameWindow(envelopes[s.events[k]], envelopes[s.events[l]])
  }

  // ------------------------------------------------------------- window re-admission

  /** Some envelope with this key occurred more than two minutes before t. */
  ghost predicate ExpiredFor(envelopes: seq<Envelope>, key: string, t: nat) {
    exists j :: 0 <= j < |envelopes| && envelopes[j].reason == RateLimited && SuppressionKey(envelopes[j]) == key
      && envelopes[j].occurredAt < t - 2 * MINUTE
  }

  ghost predicate Held(envelopes: seq<Envelope>, key: string, value: nat) {
    exists j :: 0 <= j < |envelopes| && envelopes[j].reason == RateLimited && SuppressionKey(envelopes[j]) == key
      && envelopes[j].occurredAt == value
  }

  ghost predicate Removed(s: State, key: string) {
    exists r :: 0 <= r < |s.removals| && s.removals[r].0 == key
  }

  /** A removal on record: its trimmer's time had passed the entry by two minutes. */
  ghost predicate RemovalsTraced(envelopes: seq<Envelope>, s: State) {
    forall r :: 0 <= r < |s.removals| ==>
      s.removals[r].1 < |envelopes|
      && ExpiredFor(envelopes, s.removals[r].0, envelopes[s.removals[r].1].occurredAt)
  }

  /** A claimed key is present until it is removed. */
  ghost predicate ClaimTraced(envelopes: seq<Envelope>, s: State, e: nat) {
    && e < |envelopes| && envelopes[e].reason == RateLimited
    && (SuppressionKey(envelopes[e]) in s.windows || Removed(s, SuppressionKey(envelopes[e])))
  }

  /** Stored windows come from envelopes; what is being or was removed had expired; a claimed key is
      present until it is removed. */
  ghost predicate WindowsTraced(envelopes: seq<Envelope>, s: State)
    requires |s.writers| == |envelopes|
  {
    && (forall key :: key in s.windows ==> Held(envelopes, key, s.windows[key]))
    && (forall i :: 0 <= i < |envelopes| && s.writers[i].Expiring? ==>
          ExpiredFor(envelopes, s.writers[i].key, envelopes[i].occurredAt))
    && RemovalsTraced(envelopes, s)
    && (forall k :: 0 <= k < |s.claims| ==> ClaimTraced(envelopes, s, s.claims[k]))
  }

  predicate Unclaimed(w: Writer) {
    w.Arriving? || w.Duplicate? || w.Suppressed?
  }

  /** A rate-limited envelope is past its claim only with its claim on record. */
  ghost predicate ClaimsRecorded(envelopes: seq<Envelope>, s: State)
    requires |s.writers| == |envelopes|
  {
    forall i :: 0 <= i < |envelopes| && envelopes[i].reason == RateLimited && !Unclaimed(s.writers[i]) ==> i in s.claims
  }

  /** The channel's history holds what has left as enqueued, each envelope at most once. */
  ghost predicate AcceptedOnce(envelopes: seq<Envelope>, s: State)
    requires |s.writers| == |envelopes|
  {
    && (forall k :: 0 <= k < |s.accepted| ==> s.accepted[k] < |envelopes| && s.writers[s.accepted[k]].Enqueued?)
    && (forall k, l :: 0 <= k < l < |s.accepted| ==> s.accepted[k] != s.accepted[l])
  }

  ghost predicate Inv(envelopes: seq<Envelope>, capacity: nat, s: State) {
    && InRange(envelopes, s)
    && Conserved(s) && |s.channel| <= capacity && Deduplicated(envelopes, s)
    && WindowsTraced(envelopes, s) && ClaimsRecorded(envelopes, s) && AcceptedOnce(envelopes, s)
  }

  lemma {:induction false} StartLeft(n: nat)
    ensures LeftCount(Start(n).writers) == 0
  {
    if n > 0 {
      StartLeft(n - 1);
      assert Start(n).writers[..n - 1] == Start(n - 1).writers;
    }
  }

  lemma MoveKeepsCapacity(envelopes: seq<Envelope>, capacity: nat, s: State, m: Move)
    requires Enabled(envelopes, s, m) && InRange(envelopes, s) && |s.channel| <= capacity
    ensures |Next(envelopes, capacity, s, m).channel| <= capacity
  {
    hide SuppressionKey, IsDuplicate, Rows;
  }

  lemma WriterConserves(envelopes: seq<Envelope>, capacity: nat, s: State, m: Move)
    requires Enabled(envelopes, s, m) && InRange(envelopes, s) && Conserved(s)
    requires !m.Take? && !m.Deliver? && !m.CountOutcome?
    ensures Conserved(Next(envelopes, capacity, s, m))
  {
    hide SuppressionKey, IsDuplicate, Rows, LeftCount;
    LeftCountUpdate(s.writers, m.i, Next(envelopes, capacity, s, m).writers[m.i]);
  }

  lemma WorkerConserves(envelopes: seq<Envelope>, capacity: nat, s: State, m: Move)
    requires Enabled(envelopes, s, m) && InRange(envelopes, s) && Conserved(s)
    requires m.Take? || m.Deliver? || m.CountOutcome?
    ensures Conserved(Next(envelopes, capacity, s, m))
  {
    hide SuppressionKey, IsDuplicate, Rows, LeftCount;
  }

  lemma MoveDeduplicates(envelopes: seq<Envelope>, capacity: nat, s: State, m: Move)
    requires Enabled(envelopes, s, m) && InRange(envelopes, s) && Deduplicated(envelopes, s)
    requires InRange(envelopes, Next(envelopes, capacity, s, m))
    ensures Deduplicated(envelopes, Next(envelopes, capacity, s, m))
  {
    if m == Deliver(false) {
      var rows := Rows(envelopes, s.events);
      assert forall k :: 0 <= k < |rows| ==> rows[k] == envelopes[s.events[k]];
      assert forall k :: 0 <= k < |rows| && SameWindow(rows[k], envelopes[s.worker.i]) ==>
        IsDuplicate(rows, envelopes[s.worker.i]);
    }
  }

  lemma RemovedStays(envelopes: seq<Envelope>, capacity: nat, s: State, m: Move, key: string)
    requires Enabled(envelopes, s, m) && InRange(envelopes, s)
    requires Removed(s, key) || (m.Remove? && s.writers[m.i].key == key)
    ensures Removed(Next(envelopes, capacity, s, m), key)
  {
    hide SuppressionKey, IsDuplicate;
    var t := Next(envelopes, capacity, s, m);
    if Removed(s, key) {
      var r :| 0 <= r < |s.removals| && s.removals[r].0 == key;
      assert t.removals[r].0 == key;
    } else {
      assert t.removals[|s.removals|].0 == key;
    }
  }

  lemma OwnEntry(envelopes: seq<Envelope>, i: nat)
    requires i < |envelopes| && envelopes[i].reason == RateLimited
    ensures Held(envelopes, SuppressionKey(envelopes[i]), envelopes[i].occurredAt)
  {
    hide SuppressionKey;
  }

  lemma EntryExpires(envelopes: seq<Envelope>, key: string, value: nat, t: nat)
    requires Held(envelopes, key, value) && value < t - 2 * MINUTE
    ensures ExpiredFor(envelopes, key, t)
  {
    hide SuppressionKey;
  }

  lemma MoveTracesEntries(envelopes: seq<Envelope>, capacity: nat, s: State, m: Move)
    requires Enabled(envelopes, s, m) && InRange(envelopes, s)
    requires forall key :: key in s.windows ==> Held(envelopes, key, s.windows[key])
    ensures var t := Next(envelopes, capacity, s, m);
      forall key :: key in t.windows ==> Held(envelopes, key, t.windows[key])
  {
    hide SuppressionKey, IsDuplicate, Held, Rows, InRange;
    if m.Claim? {
      OwnEntry(envelopes, m.i);
    }
  }

  lemma MoveTracesExpiring(envelopes: seq<Envelope>, capacity: nat, s: State, m: Move)
    requires Enabled(envelopes, s, m) && InRange(envelopes, s)
    requires m.See? ==> Held(envelopes, m.key, s.windows[m.key])
    requires forall i :: 0 <= i < |envelopes| && s.writers[i].Expiring? ==>
      ExpiredFor(envelopes, s.writers[i].key, envelopes[i].occurredAt)
    ensures var t := Next(envelopes, capacity, s, m);
      forall i :: 0 <= i < |envelopes| && t.writers[i].Expiring? ==>
        ExpiredFor(envelopes, t.writers[i].key, envelopes[i].occurredAt)
  {
    hide SuppressionKey, IsDuplicate, Held, ExpiredFor, Rows;
    if m.See? {
      EntryExpires(envelopes, m.key, s.windows[m.key], envelopes[m.i].occurredAt);
    }
  }

  lemma MoveTracesRemovals(envelopes: seq<Envelope>, capacity: nat, s: State, m: Move)
    requires Enabled(envelopes, s, m) && InRange(envelopes, s) && RemovalsTraced(envelopes, s)
    requires m.Remove? ==> ExpiredFor(envelopes, s.writers[m.i].key, envelopes[m.i].occurredAt)
    ensures RemovalsTraced(envelopes, Next(envelopes, capacity, s, m))
  {
    hide SuppressionKey, IsDuplicate, ExpiredFor, Rows;
  }

  lemma ClaimStaysTraced(envelopes: seq<Envelope>, capacity: nat, s: State, m: Move, e: nat)
    requires Enabled(envelopes, s, m) && InRange(envelopes, s) && ClaimTraced(envelopes, s, e)
    ensures ClaimTraced(envelopes, Next(envelopes, capacity, s, m), e)
  {
    hide SuppressionKey, IsDuplicate, Removed, Rows;
    var key := SuppressionKey(envelopes[e]);
    if Removed(s, key) || (m.Remove? && s.writers[m.i].key == key) {
      RemovedStays(envelopes, capacity, s, m, key);
    }
  }

  lemma NewClaimTraced(envelopes: seq<Envelope>, capacity: nat, s: State, m: Move)
    requires Enabled(envelopes, s, m) && InRange(envelopes, s)
    ensures var t := Next(envelopes, capacity, s, m);
      t.claims == s.claims || (m.Claim? && t.claims == s.claims + [m.i] && ClaimTraced(envelopes, t, m.i))
  {
    hide SuppressionKey, IsDuplicate, Removed, Rows;
  }

  lemma MoveTracesClaims(envelopes: seq<Envelope>, capacity: nat, s: State, m: Move)
    requires Enabled(envelopes, s, m) && InRange(envelopes, s)
    requires forall k :: 0 <= k < |s.claims| ==> ClaimTraced(envelopes, s, s.claims[k])
    ensures var t := Next(envelopes, capacity, s, m);
      forall k :: 0 <= k < |t.claims| ==> ClaimTraced(envelopes, t, t.claims[k])
  {
    hide Next, ClaimTraced, Enabled, InRange;
    var t := Next(envelopes, capacity, s, m);
    NewClaimTraced(envelopes, capacity, s, m);
    forall k | 0 <= k < |s.claims| ensures ClaimTraced(envelopes, t, s.claims[k]) {
      ClaimStaysTraced(envelopes, capacity, s, m, s.claims[k]);
    }
  }

  lemma MoveTracesWindows(envelopes: seq<Envelope>, capacity: nat, s: State, m: Move)
    requires Enabled(envelopes, s, m) && InRange(envelopes, s) && WindowsTraced(envelopes, s)
    ensures WindowsTraced(envelopes, Next(envelopes, capacity, s, m))
  {
    hide SuppressionKey, IsDuplicate, ExpiredFor, Held, Next, RemovalsTraced, ClaimTraced, Rows;
    MoveTracesEntries(envelopes, capacity, s, m);
    MoveTracesExpiring(envelopes, capacity, s, m);
    MoveTracesRemovals(envelopes, capacity, s, m);
    MoveTracesClaims(envelopes, capacity, s, m);
  }

  lemma MoveTracesClaimed(envelopes: seq<Envelope>, capacity: nat, s: State, m: Move)
    requires Enabled(envelopes, s, m) && InRange(envelopes, s) && ClaimsRecorded(envelopes, s)
    ensures ClaimsRecorded(envelopes, Next(envelopes, capacity, s, m))
  {
    hide SuppressionKey, IsDuplicate, Rows;
    assert forall i :: i in s.claims ==> i in Next(envelopes, capacity, s, m).claims;
  }

  lemma MoveTracesAccepted(envelopes: seq<Envelope>, capacity: nat, s: State, m: Move)
    requires Enabled(envelopes, s, m) && InRange(envelopes, s) && AcceptedOnce(envelopes, s)
    ensures AcceptedOnce(envelopes, Next(envelopes, capacity, s, m))
  {
    hide SuppressionKey, IsDuplicate, Rows;
  }

  // ------------------------------------------------------------------- whole runs

  /** The moves can be made one after the other. */
  ghost predicate Possible(envelopes: seq<Envelope>, capacity: nat, moves: seq<Move>)
    decreases |moves|, 0
  {
    moves != [] ==>
      && Possible(envelopes, capacity, moves[..|moves| - 1])
      && Enabled(envelopes, After(envelopes, capacity, moves[..|moves| - 1]), moves[|moves| - 1])
  }

  ghost function After(envelopes: seq<Envelope>, capacity: nat, moves: seq<Move>): (s: State)
    requires Possible(envelopes, capacity, moves)
    ensures InRange(envelopes, s)
    decreases |moves|, 1
  {
    if moves == [] then Start(|envelopes|)
    else
      var s := After(envelopes, capacity, moves[..|moves| - 1]);
      Next(envelopes, capacity, s, moves[|moves| - 1])
  }

  /** In every interleaving of writers and worker: suppressed + failures + stored + queued + in flight is the
      number of envelopes that left TryEnqueue, the channel respects its capacity, and the sink never holds
      two rate-limited rows for one partition, action and window. */
  lemma {:induction false} PipelineInv(envelopes: seq<Envelope>, capacity: nat, moves: seq<Move>)
    requires Possible(envelopes, capacity, moves)
    ensures Inv(envelopes, capacity, After(envelopes, capacity, moves))
    decreases |moves|
  {
    if moves == [] {
      StartLeft(|envelopes|);
    } else {
      var before := moves[..|moves| - 1];
      PipelineInv(envelopes, capacity, before);
      var s, m := After(envelopes, capacity, before), moves[|moves| - 1];
      MoveKeepsCapacity(envelopes, capacity, s, m);
      if m.Take? || m.Deliver? || m.CountOutcome? {
        WorkerConserves(envelopes, capacity, s, m);
      } else {
        WriterConserves(envelopes, capacity, s, m);
      }
      MoveDeduplicates(envelopes, capacity, s, m);
      MoveTracesWindows(envelopes, capacity, s, m);
      MoveTracesClaimed(envelopes, capacity, s, m);
      MoveTracesAccepted(envelopes, capacity, s, m);
    }
  }

  ghost predicate AllWellFormed(envelopes: seq<Envelope>) {
    forall i :: 0 <= i < |envelopes| ==> WellFormed(envelopes[i])
  }

  /** A removed window can only be claimed again by an envelope more than one minute older than the one that
      trimmed it: by a minute and two ticks at least. */
  lemma ReadmittedIsLate(envelopes: seq<Envelope>, capacity: nat, moves: seq<Move>, r: nat, e: nat)
    requires AllWellFormed(envelopes) && Possible(envelopes, capacity, moves)
    requires r < |After(envelopes, capacity, moves).removals| && e < |envelopes| && envelopes[e].reason == RateLimited
    requires After(envelopes, capacity, moves).removals[r].0 == SuppressionKey(envelopes[e])
    ensures After(envelopes, capacity, moves).removals[r].1 < |envelopes|
    ensures envelopes[e].occurredAt + MINUTE + 2
      <= envelopes[After(envelopes, capacity, moves).removals[r].1].occurredAt
  {
    PipelineInv(envelopes, capacity, moves);
    var s := After(envelopes, capacity, moves);
    var (key, t) := s.removals[r];
    assert ExpiredFor(envelopes, key, envelopes[t].occurredAt);
    var j :| 0 <= j < |envelopes| && envelopes[j].reason == RateLimited && SuppressionKey(envelopes[j]) == key
      && envelopes[j].occurredAt < envelopes[t].occurredAt - 2 * MINUTE;
    SameKeySameMinute(envelopes[e], envelopes[j]);
  }

  /** No envelope claims a window more than one minute after a younger one trimmed. */
  ghost predicate Orderly(envelopes: seq<Envelope>, capacity: nat, moves: seq<Move>)
    requires Possible(envelopes, capacity, moves)
    decreases |moves|
  {
    moves != [] ==>
      var before, m := moves[..|moves| - 1], moves[|moves| - 1];
      && Orderly(envelopes, capacity, before)
      && (m.Claim? ==>
            forall r :: 0 <= r < |After(envelopes, capacity, before).removals| ==>
              var t := After(envelopes, capacity, before).removals[r].1;
              t < |envelopes| ==> envelopes[m.i].occurredAt >= envelopes[t].occurredAt - MINUTE)
  }

  ghost predicate ClaimedOnce(envelopes: seq<Envelope>, s: State) {
    && (forall k :: 0 <= k < |s.claims| ==> s.claims[k] < |envelopes|)
    && forall k, l :: 0 <= k < l < |s.claims| ==>
      SuppressionKey(envelopes[s.claims[k]]) != SuppressionKey(envelopes[s.claims[l]])
  }

  /** Under that order, a key that can be claimed was never claimed before. */
  lemma ClaimIsNew(envelopes: seq<Envelope>, capacity: nat, before: seq<Move>, e: nat, k: nat)
    requires AllWellFormed(envelopes) && Possible(envelopes, capacity, before)
    requires e < |envelopes| && envelopes[e].reason == RateLimited
    requires SuppressionKey(envelopes[e]) !in After(envelopes, capacity, before).windows
    requires forall r :: 0 <= r < |After(envelopes, capacity, before).removals| ==>
      var t := After(envelopes, capacity, before).removals[r].1;
      t < |envelopes| ==> envelopes[e].occurredAt >= envelopes[t].occurredAt - MINUTE
    requires k < |After(envelopes, capacity, before).claims|
    ensures After(envelopes, capacity, before).claims[k] < |envelopes|
    ensures SuppressionKey(envelopes[After(envelopes, capacity, before).claims[k]]) != SuppressionKey(envelopes[e])
  {
    hide SuppressionKey, AllWellFormed, After;
    PipelineInv(envelopes, capacity, before);
    var s := After(envelopes, capacity, before);
    if SuppressionKey(envelopes[s.claims[k]]) == SuppressionKey(envelopes[e]) {
      var r :| 0 <= r < |s.removals| && s.removals[r].0 == SuppressionKey(envelopes[e]);
      ReadmittedIsLate(envelopes, capacity, before, r, e);
    }
  }

  lemma ClaimsAfter(envelopes: seq<Envelope>, capacity: nat, s: State, m: Move)
    requires Enabled(envelopes, s, m) && InRange(envelopes, s)
    ensures Next(envelopes, capacity, s, m).claims ==
      if m.Claim? && SuppressionKey(envelopes[m.i]) !in s.windows then s.claims + [m.i] else s.claims
  {
  }

  /** With at most a minute of disorder each window key is claimed at most once per run. */
  lemma {:induction false} EachKeyClaimedOnce(envelopes: seq<Envelope>, capacity: nat, moves: seq<Move>)
    requires AllWellFormed(envelopes) && Possible(envelopes, capacity, moves) && Orderly(envelopes, capacity, moves)
    ensures ClaimedOnce(envelopes, After(envelopes, capacity, moves))
    decreases |moves|
  {
    hide SuppressionKey, AllWellFormed, Next;
    if moves != [] {
      var before, m := moves[..|moves| - 1], moves[|moves| - 1];
      EachKeyClaimedOnce(envelopes, capacity, before);
      var s := After(envelopes, capacity, before);
      ClaimsAfter(envelopes, capacity, s, m);
      if m.Claim? && SuppressionKey(envelopes[m.i]) !in s.windows {
        forall k | 0 <= k < |s.claims|
          ensures SuppressionKey(envelopes[s.claims[k]]) != SuppressionKey(envelopes[m.i])
        {
          ClaimIsNew(envelopes, capacity, before, m.i, k);
        }
      }
    }
  }

  /** So each rate-limit window reaches the channel at most once. */
  lemma EachWindowReachesChannelOnce(envelopes: seq<Envelope>, capacity: nat, moves: seq<Move>,
                                     k: nat, l: nat)
    requires AllWellFormed(envelopes) && Possible(envelopes, capacity, moves) && Orderly(envelopes, capacity, moves)
    requires k < l < |After(envelopes, capacity, moves).accepted|
    ensures var s := After(envelopes, capacity, moves);
      && s.accepted[k] < |envelopes| && s.accepted[l] < |envelopes|
      && !SameWindow(envelopes[s.accepted[k]], envelopes[s.accepted[l]])
  {
    hide After, Possible, Orderly, AllWellFormed;
    PipelineInv(envelopes, capacity, moves);
    EachKeyClaimedOnce(envelopes, capacity, moves);
    var s := After(envelopes, capacity, moves);
    assert s.accepted[k] < |envelopes| && s.accepted[l] < |envelopes|;
    if SameWindow(envelopes[s.accepted[k]], envelopes[s.accepted[l]]) {
      ClaimsDiffer(envelopes, s, k, l);
    }
  }

  lemma ClaimsDiffer(envelopes: seq<Envelope>, s: State, k: nat, l: nat)
    requires |s.writers| == |envelopes| && ClaimsRecorded(envelopes, s) && AcceptedOnce(envelopes, s)
      && ClaimedOnce(envelopes, s)
    requires k < l < |s.accepted|
    ensures s.accepted[k] < |envelopes| && s.accepted[l] < |envelopes|
    ensures !SameWindow(envelopes[s.accepted[k]], envelopes[s.accepted[l]])
  {
    hide SuppressionKey;
    var a, b := s.accepted[k], s.accepted[l];
    assert envelopes[a].reason == RateLimited ==> a in s.claims;
    assert envelopes[b].reason == RateLimited ==> b in s.claims;
    if SameWindow(envelopes[a], envelopes[b]) {
      OneKey(envelopes[a], envelopes[b]);
    }
  }

  lemma OneKey(a: Envelope, b: Envelope)
    requires SameWindow(a, b)
    ensures SuppressionKey(a) == SuppressionKey(b)
  {
  }
}
