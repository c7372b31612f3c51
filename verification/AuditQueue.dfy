/** The pipeline's objects when one caller uses them: counters, sink, queue and worker. */
module AuditQueue {
  import opened AuditPipeline

  class SecurityAuditMetrics {
    var suppressedTotal: nat
    var writeFailuresTotal: nat

    constructor ()
      ensures suppressedTotal == writeFailuresTotal == 0
    {
      suppressedTotal, writeFailuresTotal := 0, 0;
    }

    method RecordSuppressed()
      modifies this`suppressedTotal
      ensures suppressedTotal == old(suppressedTotal) + 1
    {
      suppressedTotal := suppressedTotal + 1;
    }

    method RecordWriteFailure()
      modifies this`writeFailuresTotal
      ensures writeFailuresTotal == old(writeFailuresTotal) + 1
    {
      writeFailuresTotal := writeFailuresTotal + 1;
    }
  }

  datatype Written = Recorded | DuplicateSuppressed

  class InMemoryPlatformSecurityAuditStore {
    var events: seq<Envelope>

    constructor ()
      ensures events == []
    {
      events := [];
    }

    method WriteAsync(e: Envelope) returns (r: Written)
      modifies this
      ensures IsDuplicate(old(events), e) ==> r == DuplicateSuppressed && events == old(events)
      ensures !IsDuplicate(old(events), e) ==> r == Recorded && events == old(events) + [e]
    {
      if e.reason == RateLimited {
        for i := 0 to |events|
          invariant forall j :: 0 <= j < i ==> !SameWindow(events[j], e)
          invariant events == old(events)
        {
          if SameWindow(events[i], e) { return DuplicateSuppressed; }
        }
      }
      events := events + [e];
      return Recorded;
    }
  }

  /** The windows left after trimming at a time: nothing is trimmed below the threshold size. */
  function Trimmed(windows: map<string, nat>, now: nat): map<string, nat> {
    if |windows| < TRIM_THRESHOLD then windows
    else map key | key in windows && windows[key] >= now - 2 * MINUTE :: windows[key]
  }

  /** Whether the envelope gets past the window check. */
  predicate Admitted(windows: map<string, nat>, e: Envelope) {
    e.reason == RateLimited ==> SuppressionKey(e) !in windows
  }

  class SecurityAuditQueue {
    const capacity: nat
    const metrics: SecurityAuditMetrics
    var windows: map<string, nat>
    var channel: seq<Envelope>

    /** The constructor rejects any other capacity. */
    constructor (capacity: nat, metrics: SecurityAuditMetrics)
      requires 16 <= capacity <= 65536
      ensures this.capacity == capacity && this.metrics == metrics && windows == map[] && channel == []
    {
      this.capacity, this.metrics := capacity, metrics;
      windows, channel := map[], [];
    }

    method TryEnqueue(e: Envelope) returns (ok: bool)
      modifies this, metrics
      ensures ok <==> Admitted(old(windows), e) && |old(channel)| < capacity
      ensures channel == if ok then old(channel) + [e] else old(channel)
      ensures windows == if e.reason == RateLimited && Admitted(old(windows), e)
        then Trimmed(old(windows)[SuppressionKey(e) := e.occurredAt], e.occurredAt) else old(windows)
      ensures metrics.suppressedTotal == old(metrics.suppressedTotal) + if Admitted(old(windows), e) then 0 else 1
      ensures metrics.writeFailuresTotal
        == old(metrics.writeFailuresTotal) + if Admitted(old(windows), e) && |old(channel)| >= capacity then 1 else 0
    {
      if e.reason == RateLimited {
        var key := SuppressionKey(e);
        if key in windows {
          metrics.RecordSuppressed();
          return false;
        }
        windows := windows[key := e.occurredAt];
        TrimExpiredWindows(e.occurredAt);
      }
      if |channel| < capacity {
        channel := channel + [e];
        return true;
      }
      metrics.RecordWriteFailure();
      return false;
    }

    method TrimExpiredWindows(now: nat)
      modifies this`windows
      ensures windows == Trimmed(old(windows), now)
    {
      if |windows| < TRIM_THRESHOLD { return; }
      var threshold := now - 2 * MINUTE;
      var todo := windows.Keys;
      while todo != {}
        invariant todo <= windows.Keys <= old(windows).Keys
        invariant forall key :: key in windows ==> windows[key] == old(windows)[key]
        invariant forall key :: key in old(windows) && key !in todo ==>
          (key in windows <==> old(windows)[key] >= threshold)
        decreases |todo|
      {
        var key :| key in todo;
        todo := todo - {key};
        if windows[key] < threshold {
          windows := windows - {key};
        }
      }
    }
  }

  datatype Tally = Tally(events: seq<Envelope>, suppressed: nat, failures: nat)

  /** One delivery; a timed-out, cancelled or failing write is counted and its envelope lost. */
  function Delivered(t: Tally, e: Envelope, fails: bool): Tally {
    if fails then t.(failures := t.failures + 1)
    else if IsDuplicate(t.events, e) then t.(suppressed := t.suppressed + 1)
    else t.(events := t.events + [e])
  }

  /** The deliveries of a whole channel, in order. */
  function Drained(t: Tally, channel: seq<Envelope>, fails: seq<bool>): Tally
    requires |fails| == |channel|
    decreases |channel|
  {
    if channel == [] then t
    else
      var n := |channel| - 1;
      Delivered(Drained(t, channel[..n], fails[..n]), channel[n], fails[n])
  }

  /** Draining loses nothing, never stores a second row for a window, and stores or already holds the
      window of every rate-limited envelope whose write did not fail. */
  lemma {:induction false} DrainedConserves(t: Tally, channel: seq<Envelope>, fails: seq<bool>)
    requires |fails| == |channel|
    requires forall k, l :: 0 <= k < l < |t.events| ==> !SameWindow(t.events[k], t.events[l])
    ensures var u := Drained(t, channel, fails);
      && u.suppressed + u.failures + |u.events| == t.suppressed + t.failures + |t.events| + |channel|
      && t.events <= u.events
      && (forall k, l :: 0 <= k < l < |u.events| ==> !SameWindow(u.events[k], u.events[l]))
      && (forall k :: 0 <= k < |channel| && !fails[k] ==>
            exists l :: 0 <= l < |u.events| && (u.events[l] == channel[k] || SameWindow(u.events[l], channel[k])))
    decreases |channel|
  {
    if channel != [] {
      var n := |channel| - 1;
      DrainedConserves(t, channel[..n], fails[..n]);
      var v, u := Drained(t, channel[..n], fails[..n]), Drained(t, channel, fails);
      forall k | 0 <= k < |channel| && !fails[k]
        ensures exists l :: 0 <= l < |u.events| && (u.events[l] == channel[k] || SameWindow(u.events[l], channel[k]))
      {
        if k < n {
          assert channel[..n][k] == channel[k] && !fails[..n][k];
          var l :| 0 <= l < |v.events| && (v.events[l] == channel[k] || SameWindow(v.events[l], channel[k]));
          assert u.events[l] == v.events[l];
        } else if IsDuplicate(v.events, channel[n]) {
          var l :| 0 <= l < |v.events| && SameWindow(v.events[l], channel[n]);
          assert u.events[l] == v.events[l];
        } else {
          assert u.events[|v.events|] == channel[n];
        }
      }
    }
  }

  class SecurityAuditWorker {
    const queue: SecurityAuditQueue
    const sink: InMemoryPlatformSecurityAuditStore
    const metrics: SecurityAuditMetrics

    constructor (queue: SecurityAuditQueue, sink: InMemoryPlatformSecurityAuditStore, metrics: SecurityAuditMetrics)
      ensures this.queue == queue && this.sink == sink && this.metrics == metrics
    {
      this.queue, this.sink, this.metrics := queue, sink, metrics;
    }

    /** Reads the channel to its end; `fails` says which writes time out or throw. */
    method ExecuteAsync(fails: seq<bool>)
      requires |fails| == |queue.channel|
      modifies queue`channel, sink, metrics
      ensures queue.channel == []
      ensures Tally(sink.events, metrics.suppressedTotal, metrics.writeFailuresTotal)
        == Drained(old(Tally(sink.events, metrics.suppressedTotal, metrics.writeFailuresTotal)), old(queue.channel),
          fails)
    {
      ghost var all := queue.channel;
      ghost var start := Tally(sink.events, metrics.suppressedTotal, metrics.writeFailuresTotal);
      var i := 0;
      while queue.channel != []
        invariant 0 <= i <= |all| && queue.channel == all[i..]
        invariant Tally(sink.events, metrics.suppressedTotal, metrics.writeFailuresTotal)
          == Drained(start, all[..i], fails[..i])
        decreases |queue.channel|
      {
        var e := queue.channel[0];
        queue.channel := queue.channel[1..];
        if fails[i] {
          metrics.RecordWriteFailure();
        } else {
          var outcome := sink.WriteAsync(e);
          if outcome == DuplicateSuppressed {
            metrics.RecordSuppressed();
          }
        }
        assert all[..i + 1][..i] == all[..i] && fails[..i + 1][..i] == fails[..i];
        i := i + 1;
      }
      assert all[..i] == all && fails[..i] == fails;
    }
  }
}
