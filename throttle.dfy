/** The request throttle of rate_limiter.py: a per-user sliding window over the times of
    recent requests, with a per-minute and a per-hour ceiling. Times are whole seconds. */
module Throttle {
  import opened Common
  import opened Text

  type UserId = string

  const HourSeconds: int := 3600
  const MinuteSeconds: int := 60

  /** The constructor's defaults. */
  const DefaultPerMinute: int := 60
  const DefaultPerHour: int := 1000

  /** The ceilings the service is configured with (app.py). */
  const ConfiguredPerMinute: int := 40
  const ConfiguredPerHour: int := 1000

  /** Why a request is refused. */
  datatype Denial = NoUser | PerMinute(limit: int) | PerHour(limit: int)

  datatype Verdict = Allowed | Denied(reason: Denial)

  /** The error message `check_rate_limit` returns with a refusal. */
  function Message(d: Denial): string {
    match d
    case NoUser => "User ID is required"
    case PerMinute(limit) => "Rate limit exceeded. Maximum " + IntToString(limit) + " requests per minute allowed."
    case PerHour(limit) => "Rate limit exceeded. Maximum " + IntToString(limit) + " requests per hour allowed."
  }

  /** `_clean_old_requests`: the entries less than an hour older than `now`, in their order. */
  function Prune(ts: seq<int>, now: int): (r: seq<int>)
    ensures |r| == CountAfter(ts, now - HourSeconds)
    ensures forall i :: 0 <= i < |r| ==> now - r[i] < HourSeconds
    ensures forall t :: t in r <==> t in ts && now - t < HourSeconds
  {
    if ts == [] then []
    else
      var init := ts[..|ts| - 1];
      var last := ts[|ts| - 1];
      assert ts == init + [last];
      assert forall t :: t in ts <==> t in init || t == last;
      if now - last < HourSeconds then Prune(init, now) + [last] else Prune(init, now)
  }

  /** Pruning keeps every recent entry as often as it occurs and drops every other one. */
  lemma {:induction false} PruneMultiset(ts: seq<int>, now: int)
    ensures forall t :: multiset(Prune(ts, now))[t] == if now - t < HourSeconds then multiset(ts)[t] else 0
  {
    if ts != [] {
      var init := ts[..|ts| - 1];
      var last := ts[|ts| - 1];
      assert ts == init + [last];
      PruneMultiset(init, now);
    }
  }

  /** The number of entries later than `cutoff`. */
  function CountAfter(ts: seq<int>, cutoff: int): (n: nat)
    ensures n <= |ts|
    ensures n == |ts| <==> forall i :: 0 <= i < |ts| ==> ts[i] > cutoff
    ensures n == 0 <==> forall i :: 0 <= i < |ts| ==> ts[i] <= cutoff
  {
    if ts == [] then 0
    else
      var init := ts[..|ts| - 1];
      assert forall i :: 0 <= i < |init| ==> init[i] == ts[i];
      CountAfter(init, cutoff) + (if ts[|ts| - 1] > cutoff then 1 else 0)
  }

  /** One admission by `check_rate_limit` for a non-empty user id at time `now`: the verdict and
      the user's new list. */
  function Admit(hist: seq<int>, now: int, perMinute: int, perHour: int): (Verdict, seq<int>) {
    var kept := Prune(hist, now) + [now];
    if CountAfter(kept, now - MinuteSeconds) > perMinute then (Denied(PerMinute(perMinute)), kept)
    else if |kept| > perHour then (Denied(PerHour(perHour)), kept)
    else (Allowed, kept)
  }

  /** The verdicts of successive calls for one user at the given times. */
  function Run(hist: seq<int>, times: seq<int>, perMinute: int, perHour: int): (vs: seq<Verdict>)
    ensures |vs| == |times|
    decreases |times|
  {
    if times == [] then []
    else
      var step := Admit(hist, times[0], perMinute, perHour);
      [step.0] + Run(step.1, times[1..], perMinute, perHour)
  }

  lemma {:induction false} CountAfterAppend(a: seq<int>, b: seq<int>, cutoff: int)
    ensures CountAfter(a + b, cutoff) == CountAfter(a, cutoff) + CountAfter(b, cutoff)
    decreases |b|
  {
    if b == [] {
      assert a + b == a;
    } else {
      var b' := b[..|b| - 1];
      assert (a + b)[..|a + b| - 1] == a + b';
      assert (a + b)[|a + b| - 1] == b[|b| - 1];
      CountAfterAppend(a, b', cutoff);
    }
  }

  /** Pruning an hour never drops an entry of the last minute. */
  lemma {:induction false} PruneKeepsMinute(ts: seq<int>, now: int)
    ensures CountAfter(Prune(ts, now), now - MinuteSeconds) == CountAfter(ts, now - MinuteSeconds)
  {
    if ts != [] {
      var init := ts[..|ts| - 1];
      var last := ts[|ts| - 1];
      PruneKeepsMinute(init, now);
      if now - last < HourSeconds {
        CountAfterAppend(Prune(init, now), [last], now - MinuteSeconds);
      }
    }
  }

  /** Entries all less than an hour old survive pruning as they are. */
  lemma {:induction false} PruneKeepsRecent(ts: seq<int>, now: int)
    requires forall i :: 0 <= i < |ts| ==> now - ts[i] < HourSeconds
    ensures Prune(ts, now) == ts
  {
    if ts != [] {
      PruneKeepsRecent(ts[..|ts| - 1], now);
      assert ts[..|ts| - 1] + [ts[|ts| - 1]] == ts;
    }
  }

  /** What one admission does: the kept entries are the ones less than an hour old plus the current
      request (recorded even when refused), so their number is one more than the requests of the
      last hour; the call is allowed exactly when the requests of the last minute and of the last
      hour, this one included, are within their ceilings, the minute ceiling being checked first. */
  lemma AdmitOutcome(hist: seq<int>, now: int, perMinute: int, perHour: int)
    ensures var (v, kept) := Admit(hist, now, perMinute, perHour);
      && |kept| >= 1 && kept[|kept| - 1] == now
      && (forall i :: 0 <= i < |kept| ==> now - kept[i] < HourSeconds)
      && (forall t :: t in kept <==> t == now || (t in hist && now - t < HourSeconds))
      && |kept| == CountAfter(hist, now - HourSeconds) + 1
      && var inMinute := CountAfter(hist, now - MinuteSeconds) + 1;
      && (v.Allowed? <==> inMinute <= perMinute && |kept| <= perHour)
      && (inMinute > perMinute ==> v == Denied(PerMinute(perMinute)))
      && (inMinute <= perMinute && |kept| > perHour ==> v == Denied(PerHour(perHour)))
  {
    var kept := Prune(hist, now) + [now];
    PruneKeepsMinute(hist, now);
    CountAfterAppend(Prune(hist, now), [now], now - MinuteSeconds);
  }

  /** The verdict a burst earns for a request that is number n of the minute. */
  function BurstVerdict(n: int, perMinute: int, perHour: int): Verdict {
    if n > perMinute then Denied(PerMinute(perMinute))
    else if n > perHour then Denied(PerHour(perHour))
    else Allowed
  }

  /** One call of a burst: nothing is pruned, every kept request is in the last minute. */
  lemma BurstStep(hist: seq<int>, now: int, start: int, perMinute: int, perHour: int)
    requires forall i :: 0 <= i < |hist| ==> start <= hist[i] < start + MinuteSeconds
    requires start <= now < start + MinuteSeconds
    ensures Admit(hist, now, perMinute, perHour) == (BurstVerdict(|hist| + 1, perMinute, perHour), hist + [now])
  {
    PruneKeepsRecent(hist, now);
    var kept := hist + [now];
    assert forall i :: 0 <= i < |kept| ==> kept[i] > now - MinuteSeconds;
    assert CountAfter(kept, now - MinuteSeconds) == |kept|;
  }

  /** The first verdict of a run comes from one admission, the rest from the list it leaves. */
  lemma RunStep(hist: seq<int>, times: seq<int>, perMinute: int, perHour: int, i: int)
    requires 1 <= i < |times|
    ensures Run(hist, times, perMinute, perHour)[i]
         == Run(Admit(hist, times[0], perMinute, perHour).1, times[1..], perMinute, perHour)[i - 1]
  {
    var step := Admit(hist, times[0], perMinute, perHour);
    var rest := Run(step.1, times[1..], perMinute, perHour);
    assert Run(hist, times, perMinute, perHour) == [step.0] + rest;
    assert ([step.0] + rest)[i] == rest[i - 1];
  }

  /** A burst: when the history and every call lie within one minute, call i is refused by the
      minute ceiling exactly when it is request number perMinute + 1 or later, counting the history
      and the refused calls, and otherwise by the hour ceiling when that is exceeded. */
  lemma {:induction false} Burst(hist: seq<int>, times: seq<int>, start: int, perMinute: int, perHour: int)
    requires forall i :: 0 <= i < |hist| ==> start <= hist[i] < start + MinuteSeconds
    requires forall i :: 0 <= i < |times| ==> start <= times[i] < start + MinuteSeconds
    ensures forall i :: 0 <= i < |times| ==>
      Run(hist, times, perMinute, perHour)[i] == BurstVerdict(|hist| + i + 1, perMinute, perHour)
    decreases |times|
  {
    if times != [] {
      var now := times[0];
      BurstStep(hist, now, start, perMinute, perHour);
      var kept := hist + [now];
      assert forall i :: 0 <= i < |kept| ==> start <= kept[i] < start + MinuteSeconds;
      Burst(kept, times[1..], start, perMinute, perHour);
      forall i | 1 <= i < |times|
        ensures Run(hist, times, perMinute, perHour)[i] == BurstVerdict(|hist| + i + 1, perMinute, perHour)
      {
        RunStep(hist, times, perMinute, perHour, i);
      }
    }
  }

  /** With the configured ceilings and no history, 40 calls within one minute are allowed and the
      41st is refused with the per-minute message. */
  lemma ConfiguredBurst(times: seq<int>, start: int)
    requires |times| == 41
    requires forall i :: 0 <= i < |times| ==> start <= times[i] < start + MinuteSeconds
    ensures forall i :: 0 <= i < 40 ==> Run([], times, ConfiguredPerMinute, ConfiguredPerHour)[i] == Allowed
    ensures Run([], times, ConfiguredPerMinute, ConfiguredPerHour)[40] == Denied(PerMinute(40))
  {
    Burst([], times, start, ConfiguredPerMinute, ConfiguredPerHour);
  }

  /** Requests older than a minute stop counting: once every earlier request is at least 60 s old,
      only the per-hour ceiling can refuse the call (given a per-minute ceiling of at least 1). */
  lemma WindowSlides(hist: seq<int>, now: int, perMinute: int, perHour: int)
    requires perMinute >= 1
    requires forall i :: 0 <= i < |hist| ==> hist[i] <= now - MinuteSeconds
    ensures var (v, kept) := Admit(hist, now, perMinute, perHour);
      v.Allowed? <==> |kept| <= perHour
  {
    AdmitOutcome(hist, now, perMinute, perHour);
  }

  /** When both ceilings are exceeded the per-minute refusal is the one reported. */
  lemma MinuteCheckedFirst(hist: seq<int>, now: int, perMinute: int, perHour: int)
    requires CountAfter(hist, now - MinuteSeconds) + 1 > perMinute
    requires |Prune(hist, now)| + 1 > perHour
    ensures Admit(hist, now, perMinute, perHour).0 == Denied(PerMinute(perMinute))
    ensures Message(Admit(hist, now, perMinute, perHour).0.reason)
      == "Rate limit exceeded. Maximum " + IntToString(perMinute) + " requests per minute allowed."
  {
    AdmitOutcome(hist, now, perMinute, perHour);
  }

  /** `RateLimiter`: the ceilings and one list of request times per user. */
  class RateLimiter {
    const requestsPerMinute: int
    const requestsPerHour: int
    var requests: map<UserId, seq<int>>

    /** `self.requests[user_id]`, a defaultdict: a user never seen has an empty list. */
    function History(user: UserId): seq<int>
      reads this
    {
      if user in requests then requests[user] else []
    }

    constructor (perMinute: int, perHour: int)
      ensures requestsPerMinute == perMinute && requestsPerHour == perHour
      ensures requests == map[]
    {
      requestsPerMinute := perMinute;
      requestsPerHour := perHour;
      requests := map[];
    }

    /** `RateLimiter()` with no arguments: the default ceilings. */
    constructor Default()
      ensures requestsPerMinute == DefaultPerMinute && requestsPerHour == DefaultPerHour
      ensures requests == map[]
    {
      requestsPerMinute := DefaultPerMinute;
      requestsPerHour := DefaultPerHour;
      requests := map[];
    }

    /** `_clean_old_requests`: keeps the user's entries less than an hour old; the defaultdict
        access creates an empty list for a new user. */
    method CleanOldRequests(user: UserId, now: int)
      modifies this
      ensures requests == old(requests)[user := Prune(old(History(user)), now)]
    {
      var hist := History(user);
      var kept := [];
      var i := 0;
      while i < |hist|
        invariant 0 <= i <= |hist|
        invariant kept == Prune(hist[..i], now)
      {
        assert hist[..i + 1][..i] == hist[..i];
        if now - hist[i] < HourSeconds {
          kept := kept + [hist[i]];
        }
        i := i + 1;
      }
      assert hist[..i] == hist;
      requests := requests[user := kept];
    }

    /** `check_rate_limit` at time `now`: refuses an empty user id without touching any list;
        otherwise prunes and appends to the caller's list only, and answers as `Admit` does. */
    method CheckRateLimit(user: UserId, now: int) returns (allowed: bool, message: string)
      modifies this
      ensures user == [] ==> !allowed && message == Message(NoUser) && requests == old(requests)
      ensures user != [] ==>
        var (v, kept) := Admit(old(History(user)), now, requestsPerMinute, requestsPerHour);
        && requests == old(requests)[user := kept]
        && allowed == v.Allowed?
        && message == (if v.Allowed? then "" else Message(v.reason))
    {
      if user == [] {
        return false, Message(NoUser);
      }
      ghost var step := Admit(old(History(user)), now, requestsPerMinute, requestsPerHour);
      CleanOldRequests(user, now);
      requests := requests[user := requests[user] + [now]];
      assert requests[user] == step.1;
      var inMinute := CountAfter(requests[user], now - MinuteSeconds);
      var v := Allowed;
      if inMinute > requestsPerMinute {
        v := Denied(PerMinute(requestsPerMinute));
      } else if |requests[user]| > requestsPerHour {
        v := Denied(PerHour(requestsPerHour));
      }
      assert v == step.0;
      if v.Allowed? {
        return true, "";
      }
      return false, Message(v.reason);
    }
  }

  /** `request.args.get('user_id') or request.form.get('user_id')`: the first non-empty value. */
  function RequestUser(args: Option<string>, form: Option<string>): (r: Option<UserId>)
    ensures r.Some? ==> r.value != []
    ensures r.None? <==> (args.None? || args.value == []) && (form.None? || form.value == [])
  {
    if args.Some? && args.value != [] then args
    else if form.Some? && form.value != [] then form
    else None
  }

  /** What the `rate_limit` wrapper does with a request. */
  datatype Admission = MissingUser | TooManyRequests(message: string) | Proceed(user: UserId)

  /** The HTTP status of a refusal; `Proceed` hands the request to the wrapped handler. */
  function Status(a: Admission): int
    requires !a.Proceed?
  {
    if a.MissingUser? then 401 else 429
  }

  /** The `rate_limit` wrapper: 401 without consulting the limiter when no user id is given, 429
      when the limiter refuses, and otherwise the wrapped handler runs for that user. */
  method RateLimitGate(limiter: RateLimiter, args: Option<string>, form: Option<string>, now: int)
    returns (a: Admission)
    modifies limiter
    ensures RequestUser(args, form).None? ==> a == MissingUser && limiter.requests == old(limiter.requests)
    ensures RequestUser(args, form).None? ==> Status(a) == 401
    ensures a.TooManyRequests? ==> Status(a) == 429
    ensures RequestUser(args, form).Some? ==>
      var user := RequestUser(args, form).value;
      var (v, kept) := Admit(old(limiter.History(user)), now, limiter.requestsPerMinute, limiter.requestsPerHour);
      && limiter.requests == old(limiter.requests)[user := kept]
      && a == (if v.Allowed? then Proceed(user) else TooManyRequests(Message(v.reason)))
  {
    var user := RequestUser(args, form);
    if user.None? {
      return MissingUser;
    }
    var allowed, message := limiter.CheckRateLimit(user.value, now);
    if !allowed {
      return TooManyRequests(message);
    }
    return Proceed(user.value);
  }
}
