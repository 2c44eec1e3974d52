/** The cached JWKS response of one worker and the key list behind it. */
module JwksCache {
  import opened Common
  import opened SigningKeys

  /** A served key and the monotonic time it was appended to the list. */
  datatype Published = Published(jwk: Jwk, since: real)

  /** `loadedAt` is history: when the cached document was built (`ts` is zeroed by an invalidation). */
  datatype State = State(live: seq<Published>, cached: Option<seq<Jwk>>, ts: real, loadedAt: real, now: real)

  const TTL := 30.0

  datatype Step = Wait(elapsed: real) | Rotate(jwk: Jwk) | Fetch

  function Document(live: seq<Published>): (doc: seq<Jwk>)
    ensures |doc| == |live|
    ensures forall i :: 0 <= i < |live| ==> doc[i] == live[i].jwk
  {
    seq(|live|, i requires 0 <= i < |live| => live[i].jwk)
  }

  predicate Stale(s: State) {
    s.cached.None? || s.now - s.ts > TTL
  }

  function Refreshed(s: State): State {
    if Stale(s) then s.(cached := Some(Document(s.live)), ts := s.now, loadedAt := s.now) else s
  }

  /** What the endpoint returns now. */
  function Response(s: State): seq<Jwk> {
    if Stale(s) then Document(s.live) else s.cached.value
  }

  predicate Enabled(step: Step) {
    step.Wait? ==> step.elapsed >= 0.0
  }

  /** Rotation appends the new key and then invalidates the cache, both in one synchronous stretch. */
  function Apply(s: State, step: Step): State
    requires Enabled(step)
  {
    match step
    case Wait(d) => s.(now := s.now + d)
    case Rotate(jwk) => s.(live := s.live + [Published(jwk, s.now)], ts := 0.0)
    case Fetch => Refreshed(s)
  }

  function Run(s: State, steps: seq<Step>): State
    requires forall i :: 0 <= i < |steps| ==> Enabled(steps[i])
    decreases |steps|
  {
    if steps == [] then s else Run(Apply(s, steps[0]), steps[1..])
  }

  ghost predicate Initial(s: State) {
    s.cached.None? && s.ts == 0.0 && s.loadedAt == 0.0 && s.now >= 0.0
    && forall i :: 0 <= i < |s.live| ==> s.live[i].since <= s.now
  }

  /** The cached document is the list as it was when loaded: a prefix holding every key published before that. */
  ghost predicate Inv(s: State) {
    && 0.0 <= s.loadedAt <= s.now
    && (s.ts == s.loadedAt || s.ts == 0.0)
    && (forall i :: 0 <= i < |s.live| ==> s.live[i].since <= s.now)
    && (s.cached.Some? ==>
          && s.cached.value <= Document(s.live)
          && forall i :: |s.cached.value| <= i < |s.live| ==> s.loadedAt <= s.live[i].since)
  }

  lemma InvStep(s: State, step: Step)
    requires Inv(s) && Enabled(step)
    ensures Inv(Apply(s, step))
  {
  }

  lemma {:induction false} InvRun(s: State, steps: seq<Step>)
    requires Inv(s) && forall i :: 0 <= i < |steps| ==> Enabled(steps[i])
    ensures Inv(Run(s, steps))
    decreases |steps|
  {
    if steps == [] {
    } else {
      InvStep(s, steps[0]);
      InvRun(Apply(s, steps[0]), steps[1..]);
    }
  }

  /**
   At every moment of every run the response is the key list as it stood at most thirty seconds ago: it leaves
   out nothing published earlier than that and adds nothing.
   */
  lemma ResponseAtMostThirtySecondsOld(s: State, steps: seq<Step>)
    requires Initial(s) && forall i :: 0 <= i < |steps| ==> Enabled(steps[i])
    ensures var t := Run(s, steps);
            && Response(t) <= Document(t.live)
            && forall i :: 0 <= i < |t.live| && t.live[i].since < t.now - TTL ==> i < |Response(t)|
  {
    InvRun(s, steps);
  }

  /**
   The first response after a rotation lists the new key if and only if nothing was cached or the monotonic
   clock exceeds thirty: invalidation writes zero where the load time was, so in the first thirty seconds of the
   clock it has no effect.
   */
  lemma FirstResponseAfterRotation(s: State, steps: seq<Step>, jwk: Jwk, wait: real)
    requires Initial(s) && forall i :: 0 <= i < |steps| ==> Enabled(steps[i])
    requires wait >= 0.0
    ensures var before := Run(s, steps);
            var t := Apply(Apply(before, Rotate(jwk)), Wait(wait));
            |Response(t)| == |t.live| <==> before.cached.None? || t.now > TTL
    ensures var t := Apply(Apply(Run(s, steps), Rotate(jwk)), Wait(wait));
            |Response(t)| == |t.live| ==> Response(t)[|t.live| - 1] == jwk
  {
    InvRun(s, steps);
  }

  /** A document once built is the answer for thirty seconds and no longer. */
  lemma KeptForThirtySeconds(s: State, wait: real)
    requires s.cached.None? && wait >= 0.0
    ensures var t := Apply(Apply(s, Fetch), Wait(wait));
            && Response(Apply(s, Fetch)) == Document(s.live)
            && (Apply(t, Fetch).loadedAt == s.now <==> wait <= 30.0)
  {
  }

  /** The module's globals and the functions on them. */
  class Endpoint {
    var cache: Option<seq<Jwk>>
    var cacheTs: real

    constructor ()
      ensures cache == None && cacheTs == 0.0
    {
      cache, cacheTs := None, 0.0;
    }

    method JwksResponse(now: real, live: seq<Published>) returns (content: seq<Jwk>)
      modifies this
      ensures var before := State(live, old(cache), old(cacheTs), 0.0, now);
              content == Response(before) && cache == Refreshed(before).cached && cacheTs == Refreshed(before).ts
    {
      if cache.None? || now - cacheTs > TTL {
        cache := Some(Document(live));
        cacheTs := now;
      }
      content := cache.value;
    }

    /**
     Afterwards, and until the next response, a response shows the key list as it then is if and only if nothing was
     cached, or the clock exceeds thirty, or the cached document happens to be that list.
     */
    method Invalidate()
      modifies this`cacheTs
      ensures cacheTs == 0.0
      ensures forall live, loadedAt, now ::
                Response(State(live, cache, cacheTs, loadedAt, now)) == Document(live) <==>
                  cache.None? || now > TTL || cache.value == Document(live)
    {
      cacheTs := 0.0;
    }
  }
}
