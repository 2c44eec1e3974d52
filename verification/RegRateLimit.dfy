/** The per-IP sliding-window counter in front of registration. Times are the monotonic clock, in seconds. */
module RegRateLimit {
  import opened Common

  const WINDOW_SECONDS := 3600.0
  const MAX_REGISTRATIONS := 5

  datatype Attempt = Attempt(ip: string, now: real)

  type Hits = map<string, seq<real>>

  /** The times after `cutoff`, in order. */
  function Recent(times: seq<real>, cutoff: real): seq<real> {
    if times == [] then []
    else
      var init, last := times[..|times| - 1], times[|times| - 1];
      if last > cutoff then Recent(init, cutoff) + [last] else Recent(init, cutoff)
  }

  function Of(hits: Hits, ip: string): seq<real> {
    if ip in hits then hits[ip] else []
  }

  predicate HasRoom(times: seq<real>, now: real) {
    |Recent(times, now - WINDOW_SECONDS)| < MAX_REGISTRATIONS
  }

  /** One address's list after an attempt: pruned, and extended if that leaves room. */
  function Updated(times: seq<real>, now: real): seq<real> {
    var recent := Recent(times, now - WINDOW_SECONDS);
    if HasRoom(times, now) then recent + [now] else recent
  }

  predicate Allowed(hits: Hits, a: Attempt) {
    HasRoom(Of(hits, a.ip), a.now)
  }

  function After(hits: Hits, a: Attempt): Hits {
    hits[a.ip := Updated(Of(hits, a.ip), a.now)]
  }

  /** The counter after a run of attempts. */
  function State(attempts: seq<Attempt>): Hits {
    if attempts == [] then map[]
    else After(State(attempts[..|attempts| - 1]), attempts[|attempts| - 1])
  }

  // ---------------------------------------------------------------------------
  // Addresses do not interfere
  // ---------------------------------------------------------------------------

  /** When attempts from `ip` were made. */
  function TimesOf(attempts: seq<Attempt>, ip: string): seq<real> {
    if attempts == [] then []
    else
      var times, last := TimesOf(attempts[..|attempts| - 1], ip), attempts[|attempts| - 1];
      if last.ip == ip then times + [last.now] else times
  }

  /** One address's list after attempts at `times`. */
  function Kept(times: seq<real>): seq<real> {
    if times == [] then [] else Updated(Kept(times[..|times| - 1]), times[|times| - 1])
  }

  lemma {:induction false} StateIsKept(attempts: seq<Attempt>, ip: string)
    ensures Of(State(attempts), ip) == Kept(TimesOf(attempts, ip))
    decreases |attempts|
  {
    if attempts == [] {
    } else {
      var init, last := attempts[..|attempts| - 1], attempts[|attempts| - 1];
      StateIsKept(init, ip);
      if last.ip == ip {
        var times := TimesOf(init, ip);
        assert (times + [last.now])[..|times|] == times;
      }
    }
  }

  /** What other addresses do changes no answer, whatever the clock does. */
  lemma OtherAddressesInvisible(attempts: seq<Attempt>, others: seq<Attempt>, a: Attempt)
    requires TimesOf(attempts, a.ip) == TimesOf(others, a.ip)
    ensures Allowed(State(attempts), a) <==> Allowed(State(others), a)
  {
    StateIsKept(attempts, a.ip);
    StateIsKept(others, a.ip);
  }

  // ---------------------------------------------------------------------------
  // Reference: the address's log of accepted attempts, never pruned
  // ---------------------------------------------------------------------------

  function Logged(log: seq<real>, now: real): seq<real> {
    if HasRoom(log, now) then log + [now] else log
  }

  /** The accepted ones among attempts at `times`. */
  function Log(times: seq<real>): seq<real> {
    if times == [] then [] else Logged(Log(times[..|times| - 1]), times[|times| - 1])
  }

  ghost predicate Sorted(times: seq<real>) {
    forall i, j :: 0 <= i < j < |times| ==> times[i] <= times[j]
  }

  lemma RecentAppend(times: seq<real>, t: real, cutoff: real)
    ensures Recent(times + [t], cutoff) == if t > cutoff then Recent(times, cutoff) + [t] else Recent(times, cutoff)
  {
  }

  /** Pruning at an earlier cutoff does not change what a later cutoff keeps. */
  lemma {:induction false} RecentOfRecent(times: seq<real>, earlier: real, later: real)
    requires earlier <= later
    ensures Recent(Recent(times, earlier), later) == Recent(times, later)
  {
    if times == [] {
    } else {
      var init, last := times[..|times| - 1], times[|times| - 1];
      RecentOfRecent(init, earlier, later);
      if last > earlier {
        RecentAppend(Recent(init, earlier), last, later);
      }
    }
  }

  ghost predicate AgreeFrom(kept: seq<real>, log: seq<real>, cutoff: real) {
    Recent(kept, cutoff) == Recent(log, cutoff)
  }

  /** A pruned list and a full one that agree from the window on still agree after an attempt. */
  lemma UpdatedAgrees(kept: seq<real>, log: seq<real>, now: real, cutoff: real)
    requires now - WINDOW_SECONDS <= cutoff
    requires AgreeFrom(kept, log, now - WINDOW_SECONDS)
    ensures AgreeFrom(Updated(kept, now), Logged(log, now), cutoff)
  {
    RecentOfRecent(kept, now - WINDOW_SECONDS, cutoff);
    RecentOfRecent(log, now - WINDOW_SECONDS, cutoff);
    RecentAppend(Recent(kept, now - WINDOW_SECONDS), now, cutoff);
    RecentAppend(log, now, cutoff);
  }

  /** The pruned list and the full log agree at every cutoff still to come. */
  lemma {:induction false} KeptAgreesWithLog(times: seq<real>, cutoff: real)
    requires Sorted(times)
    requires times != [] ==> times[|times| - 1] - WINDOW_SECONDS <= cutoff
    ensures AgreeFrom(Kept(times), Log(times), cutoff)
    decreases |times|
  {
    if times == [] {
    } else {
      var init, now := times[..|times| - 1], times[|times| - 1];
      KeptAgreesWithLog(init, now - WINDOW_SECONDS);
      UpdatedAgrees(Kept(init), Log(init), now, cutoff);
    }
  }

  ghost predicate ClockNeverGoesBack(attempts: seq<Attempt>) {
    forall i, j :: 0 <= i < j < |attempts| ==> attempts[i].now <= attempts[j].now
  }

  lemma {:induction false} TimesSorted(attempts: seq<Attempt>, ip: string, now: real)
    requires ClockNeverGoesBack(attempts) && forall i :: 0 <= i < |attempts| ==> attempts[i].now <= now
    ensures Sorted(TimesOf(attempts, ip))
    ensures forall i :: 0 <= i < |TimesOf(attempts, ip)| ==> TimesOf(attempts, ip)[i] <= now
    decreases |attempts|
  {
    if attempts == [] {
    } else {
      TimesSorted(attempts[..|attempts| - 1], ip, attempts[|attempts| - 1].now);
    }
  }

  lemma KeptAnswersAsLog(times: seq<real>, now: real)
    requires Sorted(times) && forall i :: 0 <= i < |times| ==> times[i] <= now
    ensures HasRoom(Kept(times), now) <==> HasRoom(Log(times), now)
  {
    KeptAgreesWithLog(times, now - WINDOW_SECONDS);
  }

  /** With a clock that never goes back, the counter answers every attempt as the full log would. */
  lemma AnswersAsFullLog(attempts: seq<Attempt>, a: Attempt)
    requires ClockNeverGoesBack(attempts) && forall i :: 0 <= i < |attempts| ==> attempts[i].now <= a.now
    ensures Allowed(State(attempts), a) <==> HasRoom(Log(TimesOf(attempts, a.ip)), a.now)
  {
    TimesSorted(attempts, a.ip, a.now);
    StateIsKept(attempts, a.ip);
    KeptAnswersAsLog(TimesOf(attempts, a.ip), a.now);
  }

  /** When attempts from `ip` were accepted, by the counter's own answers. */
  function Accepted(attempts: seq<Attempt>, ip: string): seq<real> {
    if attempts == [] then []
    else
      var init, last := attempts[..|attempts| - 1], attempts[|attempts| - 1];
      if last.ip == ip && Allowed(State(init), last) then Accepted(init, ip) + [last.now] else Accepted(init, ip)
  }

  lemma LogAppend(times: seq<real>, now: real)
    ensures Log(times + [now]) == Logged(Log(times), now)
  {
    assert (times + [now])[..|times|] == times;
  }

  lemma {:induction false} AcceptedIsLog(attempts: seq<Attempt>, ip: string)
    requires ClockNeverGoesBack(attempts)
    ensures Accepted(attempts, ip) == Log(TimesOf(attempts, ip))
    decreases |attempts|
  {
    if attempts == [] {
    } else {
      var init, last := attempts[..|attempts| - 1], attempts[|attempts| - 1];
      AcceptedIsLog(init, ip);
      if last.ip == ip {
        AnswersAsFullLog(init, last);
        LogAppend(TimesOf(init, ip), last.now);
      }
    }
  }

  // ---------------------------------------------------------------------------
  // The rate
  // ---------------------------------------------------------------------------

  /** Every sixth accepted attempt is at least a window after the first of the six. */
  ghost predicate Spaced(log: seq<real>) {
    forall i :: 0 <= i < |log| - MAX_REGISTRATIONS ==> log[i] + WINDOW_SECONDS <= log[i + MAX_REGISTRATIONS]
  }

  ghost predicate SpacedUpTo(log: seq<real>, now: real) {
    Sorted(log) && Spaced(log) && forall i :: 0 <= i < |log| ==> log[i] <= now
  }

  /** Of sorted times, at least the last `k` are kept when the k-th from the end is. */
  lemma {:induction false} RecentKeepsTail(times: seq<real>, cutoff: real, k: nat)
    requires Sorted(times) && 0 < k <= |times| && times[|times| - k] > cutoff
    ensures |Recent(times, cutoff)| >= k
    decreases k
  {
    assert times[|times| - 1] > cutoff;
    if k > 1 {
      RecentKeepsTail(times[..|times| - 1], cutoff, k - 1);
    }
  }

  lemma LoggedSpaced(log: seq<real>, now: real)
    requires SpacedUpTo(log, now)
    ensures SpacedUpTo(Logged(log, now), now)
  {
    if |log| >= MAX_REGISTRATIONS && log[|log| - MAX_REGISTRATIONS] > now - WINDOW_SECONDS {
      RecentKeepsTail(log, now - WINDOW_SECONDS, MAX_REGISTRATIONS);
    }
  }

  lemma {:induction false} LogSpaced(times: seq<real>, now: real)
    requires Sorted(times) && (times != [] ==> times[|times| - 1] <= now)
    ensures SpacedUpTo(Log(times), now)
    decreases |times|
  {
    if times == [] {
    } else {
      var init, last := times[..|times| - 1], times[|times| - 1];
      LogSpaced(init, last);
      LoggedSpaced(Log(init), last);
    }
  }

  /** Indices no two of which are five or more apart are at most five. */
  lemma {:induction false} FewIndices(indices: set<int>, n: nat)
    requires forall i :: i in indices ==> 0 <= i < n
    requires forall i, j :: i in indices && j in indices ==> j - i < MAX_REGISTRATIONS
    ensures |indices| <= MAX_REGISTRATIONS
    decreases n
  {
    if n <= MAX_REGISTRATIONS || n - 1 in indices {
      var block := {n - 5, n - 4, n - 3, n - 2, n - 1};
      assert forall i :: i in indices ==> i in block;
      SubsetSize(indices, block);
    } else {
      FewIndices(indices, n - 1);
    }
  }

  lemma SpacedIndices(log: seq<real>, i: int, j: int)
    requires Sorted(log) && Spaced(log)
    requires 0 <= i < |log| && 0 <= j < |log| && j - i >= MAX_REGISTRATIONS
    ensures log[i] + WINDOW_SECONDS <= log[j]
  {
    assert log[i] + WINDOW_SECONDS <= log[i + MAX_REGISTRATIONS] <= log[j];
  }

  lemma FewPerWindow(log: seq<real>, start: real)
    requires Sorted(log) && Spaced(log)
    ensures |set i | 0 <= i < |log| && start <= log[i] < start + WINDOW_SECONDS| <= MAX_REGISTRATIONS
    ensures |set i | 0 <= i < |log| && start < log[i] <= start + WINDOW_SECONDS| <= MAX_REGISTRATIONS
  {
    forall i, j | 0 <= i < |log| && 0 <= j < |log| && j - i >= MAX_REGISTRATIONS
      ensures log[i] + WINDOW_SECONDS <= log[j]
    {
      SpacedIndices(log, i, j);
    }
    FewIndices(set i | 0 <= i < |log| && start <= log[i] < start + WINDOW_SECONDS, |log|);
    FewIndices(set i | 0 <= i < |log| && start < log[i] <= start + WINDOW_SECONDS, |log|);
  }

  /**
   No window of 3600 seconds, open at either end, holds more than five attempts from one address that were accepted.
   */
  lemma AtMostFivePerWindow(attempts: seq<Attempt>, ip: string, start: real)
    requires ClockNeverGoesBack(attempts)
    ensures var times := Accepted(attempts, ip);
            && |set i | 0 <= i < |times| && start <= times[i] < start + WINDOW_SECONDS| <= MAX_REGISTRATIONS
            && |set i | 0 <= i < |times| && start < times[i] <= start + WINDOW_SECONDS| <= MAX_REGISTRATIONS
  {
    var times := TimesOf(attempts, ip);
    TimesSorted(attempts, ip, if attempts == [] then 0.0 else attempts[|attempts| - 1].now);
    LogSpaced(times, if times == [] then 0.0 else times[|times| - 1]);
    AcceptedIsLog(attempts, ip);
    FewPerWindow(Accepted(attempts, ip), start);
  }

  ghost function Later(times: seq<real>, cutoff: real): set<int> {
    set i | 0 <= i < |times| && times[i] > cutoff
  }

  lemma {:induction false} RecentCount(times: seq<real>, cutoff: real)
    ensures |Recent(times, cutoff)| == |Later(times, cutoff)|
  {
    if times == [] {
    } else {
      var n := |times| - 1;
      RecentCount(times[..n], cutoff);
      assert Later(times, cutoff) == Later(times[..n], cutoff) + if times[n] > cutoff then {n} else {};
    }
  }

  /** Fewer than five of the times lie in the last 3600 seconds. */
  ghost predicate RoomAmong(times: seq<real>, now: real) {
    |Later(times, now - 3600.0)| < 5
  }

  lemma HasRoomIff(times: seq<real>, now: real)
    ensures HasRoom(times, now) <==> RoomAmong(times, now)
  {
    RecentCount(times, now - 3600.0);
  }

  lemma {:induction false} AnswersAsAccepted(attempts: seq<Attempt>, a: Attempt)
    requires ClockNeverGoesBack(attempts) && forall i :: 0 <= i < |attempts| ==> attempts[i].now <= a.now
    ensures Allowed(State(attempts), a) <==> HasRoom(Accepted(attempts, a.ip), a.now)
  {
    AnswersAsFullLog(attempts, a);
    AcceptedIsLog(attempts, a.ip);
  }

  /**
   With a clock that never goes back, an attempt is accepted if and only if fewer than five attempts from its address
   were accepted in the last 3600 seconds.
   */
  lemma {:induction false} AcceptedIffRoom(attempts: seq<Attempt>, a: Attempt)
    requires ClockNeverGoesBack(attempts) && forall i :: 0 <= i < |attempts| ==> attempts[i].now <= a.now
    ensures Allowed(State(attempts), a) <==> RoomAmong(Accepted(attempts, a.ip), a.now)
  {
    AnswersAsAccepted(attempts, a);
    HasRoomIff(Accepted(attempts, a.ip), a.now);
  }

  // ---------------------------------------------------------------------------
  // The counter
  // ---------------------------------------------------------------------------

  class RegCounter {
    var hits: Hits

    constructor ()
      ensures hits == State([])
    {
      hits := map[];
    }

    method CheckAndRecord(ip: string, now: real) returns (ok: bool)
      modifies this
      ensures ok <==> Allowed(old(hits), Attempt(ip, now))
      ensures hits == After(old(hits), Attempt(ip, now))
    {
      var cutoff := now - WINDOW_SECONDS;
      var times := if ip in hits then hits[ip] else [];
      var kept := [];
      for i := 0 to |times|
        invariant kept == Recent(times[..i], cutoff)
      {
        assert times[..i + 1][..i] == times[..i];
        if times[i] > cutoff {
          kept := kept + [times[i]];
        }
      }
      assert times[..|times|] == times;
      hits := hits[ip := kept];
      if |kept| >= MAX_REGISTRATIONS {
        return false;
      }
      hits := hits[ip := kept + [now]];
      ok := true;
    }
  }
}
