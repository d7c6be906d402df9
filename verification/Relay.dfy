/** The limits of the fetch relay (relay/relay.py): the token bucket of a host, the replay guard over signatures and the
    limit on failed authentications. Clock readings are real numbers that do not go back in lock order. */
module Relay {
  import opened Wrappers

  const TS_WINDOW := 60.0
  const AUTH_FAIL_PER_MIN := 10

  // ---- the token bucket ----

  function Min(a: real, b: real): real {
    if a < b then a else b
  }

  /** burst + rate * time */
  function Budget(rate: real, burst: real, from: real, to: real): real {
    burst + rate * (to - from)
  }

  /** Any grants i..j are within the budget of the time between them. */
  predicate Polite(rate: real, burst: real, grants: seq<real>) {
    forall i, j :: 0 <= i <= j < |grants| ==> (j - i + 1) as real <= Budget(rate, burst, grants[i], grants[j])
  }

  /** What the tokens left allow: after any grant i, the grants since and the tokens left fit into burst + rate * time. */
  predicate Slack(rate: real, burst: real, grants: seq<real>, tokens: real, t: real) {
    forall i :: 0 <= i < |grants| ==> grants[i] <= t && tokens + (|grants| - i) as real <= Budget(rate, burst, grants[i], t)
  }

  function Refilled(rate: real, burst: real, tokens: real, t: real, now: real): real {
    Min(burst, tokens + (now - t) * rate)
  }

  lemma RefillRange(rate: real, burst: real, tokens: real, t: real, now: real)
    requires rate >= 0.0 && t <= now && 0.0 <= tokens <= burst
    ensures 0.0 <= Refilled(rate, burst, tokens, t, now) <= burst
  {
    assert (now - t) * rate >= 0.0;
  }

  /** A token is there exactly when the bucket can hold one and had it or was given it since. */
  lemma TokenThere(rate: real, burst: real, tokens: real, t: real, now: real)
    ensures Refilled(rate, burst, tokens, t, now) >= 1.0 <==> burst >= 1.0 && tokens + (now - t) * rate >= 1.0
  {
  }

  /** After 1 / rate seconds it was. */
  lemma TokenReturns(rate: real, burst: real, tokens: real, t: real, now: real)
    requires rate > 0.0 && 0.0 <= tokens && burst >= 1.0 && now - t >= 1.0 / rate
    ensures Refilled(rate, burst, tokens, t, now) >= 1.0
  {
    hide Refilled;
    TokenThere(rate, burst, tokens, t, now);
    Scaled(now - t, rate);
  }

  lemma Scaled(x: real, r: real)
    requires r > 0.0 && x >= 1.0 / r
    ensures x * r >= 1.0
  {
    var y := 1.0 / r;
    assert (x - y) * r >= 0.0;
    assert y * r == 1.0;
  }

  lemma BudgetGrows(rate: real, burst: real, from: real, tokens: real, t: real, now: real)
    requires rate >= 0.0 && t <= now
    ensures Refilled(rate, burst, tokens, t, now) - tokens <= Budget(rate, burst, from, now) - Budget(rate, burst, from, t)
    ensures Budget(rate, burst, now, now) == burst
  {
    assert (now - t) * rate == rate * (now - from) - rate * (t - from);
  }

  lemma RefillKeeps(rate: real, burst: real, grants: seq<real>, tokens: real, t: real, now: real)
    requires rate >= 0.0 && t <= now && Slack(rate, burst, grants, tokens, t)
    ensures Slack(rate, burst, grants, Refilled(rate, burst, tokens, t, now), now)
  {
    hide Budget, Refilled;
    forall i | 0 <= i < |grants|
      ensures Refilled(rate, burst, tokens, t, now) + (|grants| - i) as real <= Budget(rate, burst, grants[i], now)
    {
      BudgetGrows(rate, burst, grants[i], tokens, t, now);
    }
  }

  lemma GrantKeeps(rate: real, burst: real, grants: seq<real>, tokens: real, now: real)
    requires rate >= 0.0 && 1.0 <= tokens <= burst && Slack(rate, burst, grants, tokens, now) && Polite(rate, burst, grants)
    ensures Slack(rate, burst, grants + [now], tokens - 1.0, now) && Polite(rate, burst, grants + [now])
  {
    BudgetGrows(rate, burst, now, tokens, now, now);
    hide Budget, Refilled;
    var g := grants + [now];
    forall i | 0 <= i < |g|
      ensures g[i] <= now && tokens - 1.0 + (|g| - i) as real <= Budget(rate, burst, g[i], now)
    {
    }
    forall i, j | 0 <= i <= j < |g|
      ensures (j - i + 1) as real <= Budget(rate, burst, g[i], g[j])
    {
      if j == |grants| {
        assert tokens - 1.0 + (|g| - i) as real <= Budget(rate, burst, g[i], now);
      }
    }
  }

  class HostGate {
    const rate: real
    const burst: real
    var tokens: real
    var t: real
    /** The times of the grants, oldest first. */
    ghost var grants: seq<real>

    ghost predicate Valid()
      reads this
    {
      rate >= 0.0 && 0.0 <= tokens <= burst && Polite(rate, burst, grants) && Slack(rate, burst, grants, tokens, t)
    }

    constructor (rate: real, burst: real, now: real)
      requires rate >= 0.0 && burst >= 0.0
      ensures Valid() && grants == [] && this.rate == rate && this.burst == burst && t == now && tokens == burst
    {
      this.rate, this.burst, tokens, t, grants := rate, burst, burst, now, [];
    }

    /** The part of take under the lock: refill, then one token if there is one. */
    method Try(now: real) returns (ok: bool)
      requires Valid() && now >= t
      modifies this
      ensures Valid() && t == now
      ensures ok <==> burst >= 1.0 && old(tokens) + (now - old(t)) * rate >= 1.0
      ensures rate > 0.0 && burst >= 1.0 && now - old(t) >= 1.0 / rate ==> ok
      ensures tokens == Refilled(rate, burst, old(tokens), old(t), now) - if ok then 1.0 else 0.0
      ensures grants == if ok then old(grants) + [now] else old(grants)
    {
      hide Polite, Slack, Refilled;
      RefillKeeps(rate, burst, grants, tokens, t, now);
      RefillRange(rate, burst, tokens, t, now);
      TokenThere(rate, burst, tokens, t, now);
      if rate > 0.0 && burst >= 1.0 && now - t >= 1.0 / rate {
        TokenReturns(rate, burst, tokens, t, now);
      }
      tokens := Refilled(rate, burst, tokens, t, now);
      t := now;
      ok := tokens >= 1.0;
      if ok {
        GrantKeeps(rate, burst, grants, tokens, now);
        tokens := tokens - 1.0;
        grants := grants + [now];
      }
    }

    /** Other threads ask in between. */
    method Others(start: real) returns (now: real)
      requires Valid() && start >= t
      modifies this
      ensures Valid() && now >= start && now >= t && old(grants) <= grants
    {
      var calls: int := *;
      now := start;
      for i := 0 to if calls > 0 then calls else 0
        invariant Valid() && now >= start && now >= t && old(grants) <= grants
      {
        var passed: real := *;
        now := now + if passed > 0.0 then passed else 0.0;
        var ok := Try(now);
      }
    }

    /** take: asks every tenth of a second until it is granted or the wait is over. */
    method Take(wait: real, start: real) returns (ok: bool, now: real)
      requires Valid() && start >= t
      modifies this
      ensures Valid() && now >= start && now >= t && old(grants) <= grants
      ensures ok ==> grants != [] && |grants| > |old(grants)| && grants[|grants| - 1] == now == t
      ensures !ok ==> now >= start + wait
    {
      now := start;
      while true
        invariant Valid() && start <= now && t <= now && old(grants) <= grants
        decreases 10.0 * (start + wait + 0.1 - now)
      {
        ok := Try(now);
        if ok {
          return;
        }
        now := Others(now);
        if now >= start + wait {
          return;
        }
        now := now + 0.1;
      }
    }
  }

  /** For one gate, n grants from the first to the last take at least (n - burst) / rate seconds. */
  lemma GrantsTakeTime(rate: real, burst: real, grants: seq<real>, i: nat, j: nat)
    requires Polite(rate, burst, grants) && i <= j < |grants|
    ensures rate > 0.0 ==> grants[j] - grants[i] >= ((j - i + 1) as real - burst) / rate
  {
    assert (j - i + 1) as real <= Budget(rate, burst, grants[i], grants[j]);
  }

  // ---- authentication ----

  /** The text that is signed. */
  function Message(ts: string, url: string): string {
    ts + "\n" + url
  }

  /** Joining is injective for time stamps on one line, as header values are. */
  lemma MessageInjective(a: string, u: string, b: string, v: string)
    requires '\n' !in a && '\n' !in b && Message(a, u) == Message(b, v)
    ensures a == b && u == v
  {
    var m := Message(a, u);
    assert m[|a|] == '\n' && m[|b|] == '\n';
    assert forall i :: 0 <= i < |a| ==> m[i] == a[i] != '\n';
    assert forall i :: 0 <= i < |b| ==> m[i] == b[i] != '\n';
    assert a == m[..|a|] && b == m[..|b|] && u == m[|a| + 1..] && v == m[|b| + 1..];
  }

  /** The signature under the shared secret, and the reading of a time stamp as a whole number. */
  datatype Keys = Keys(mac: string -> string, readInt: string -> Option<int>)

  datatype Request = Request(ts: string, sig: string, url: string, src: string)

  predicate WellSigned(k: Keys, r: Request, now: real) {
    r.sig != "" && InTime(k, r, now) && r.sig == k.mac(Message(r.ts, r.url))
  }

  predicate InTime(k: Keys, r: Request, now: real) {
    && k.readInt(r.ts).Some?
    && now - k.readInt(r.ts).value as real <= TS_WINDOW && k.readInt(r.ts).value as real - now <= TS_WINDOW
  }

  /** The least whole number whose conversion to a float overflows: 2^1024 - 2^970. */
  const FLOAT_LIMIT := 0xFFFFFFFFFFFFFC00000000000000000000000000000000000000000000000000000000000000000000000000000000000000000000000000000000000000000000000000000000000000000000000000000000000000000000000000000000000000000000000000000000000000000000000000000000000000000000000000

  predicate TooLarge(k: Keys, ts: string) {
    k.readInt(ts).Some? && (k.readInt(ts).value >= FLOAT_LIMIT || k.readInt(ts).value <= -FLOAT_LIMIT)
  }

  /** The exceptions that are not caught: subtracting a time stamp that no float can hold, whatever the signature; and the
      constant-time comparison, for a signature in time that is not ASCII. */
  predicate Raises(k: Keys, r: Request, now: real) {
    && r.sig != ""
    && (TooLarge(k, r.ts) || (InTime(k, r, now) && exists i :: 0 <= i < |r.sig| && r.sig[i] as int > 127))
  }

  datatype Verdict = Admitted | RateLimited | BadSignature | Raised

  datatype Failure = Failure(src: string, at: real)

  datatype Grant = Grant(request: Request, at: real)

  function Recent(times: seq<real>, now: real): seq<real> {
    if times == [] then []
    else Recent(times[..|times| - 1], now) + if now - times[|times| - 1] < 60.0 then [times[|times| - 1]] else []
  }

  /** The failures of a source later than since. */
  function FailsOf(failed: seq<Failure>, src: string, now: real): seq<real> {
    if failed == [] then []
    else
      var last := failed[|failed| - 1];
      FailsOf(failed[..|failed| - 1], src, now) + if last.src == src && now - last.at < 60.0 then [last.at] else []
  }

  /** They are as many as the failures recorded for the source in the last minute. */
  lemma {:induction false} FailsCount(failed: seq<Failure>, src: string, now: real)
    ensures |FailsOf(failed, src, now)| == |set i | 0 <= i < |failed| && failed[i].src == src && now - failed[i].at < 60.0|
  {
    if failed != [] {
      var n := |failed| - 1;
      FailsCount(failed[..n], src, now);
      OneMoreFailure(failed, src, now);
    }
  }

  lemma OneMoreFailure(failed: seq<Failure>, src: string, now: real)
    requires failed != []
    ensures var n := |failed| - 1;
            |set i | 0 <= i < |failed| && failed[i].src == src && now - failed[i].at < 60.0|
            == |set i | 0 <= i < n && failed[..n][i].src == src && now - failed[..n][i].at < 60.0|
               + if failed[n].src == src && now - failed[n].at < 60.0 then 1 else 0
  {
    var n := |failed| - 1;
    var all := set i | 0 <= i < |failed| && failed[i].src == src && now - failed[i].at < 60.0;
    assert all - {n} == set i | 0 <= i < n && failed[..n][i].src == src && now - failed[..n][i].at < 60.0;
  }

  lemma {:induction false} RecentAgain(times: seq<real>, t: real, now: real)
    requires t <= now
    ensures Recent(Recent(times, t), now) == Recent(times, now)
  {
    if times != [] {
      var n := |times| - 1;
      RecentAgain(times[..n], t, now);
      var r := Recent(times[..n], t);
      if t - times[n] < 60.0 {
        var s := r + [times[n]];
        assert Recent(times, t) == s && s[..|s| - 1] == r && s[|s| - 1] == times[n];
      } else {
        assert Recent(times, t) == r;
      }
    }
  }

  /** The failures of a source in the half-open minute (end - 60, end]. */
  function MinuteFails(failed: seq<Failure>, src: string, end: real): nat {
    if failed == [] then 0
    else
      var last := failed[|failed| - 1];
      MinuteFails(failed[..|failed| - 1], src, end) + if last.src == src && end - 60.0 < last.at <= end then 1 else 0
  }

  /** Failures are recorded in order, each below the limit of its source. */
  ghost predicate Limited(failed: seq<Failure>) {
    && (forall i, j :: 0 <= i <= j < |failed| ==> failed[i].at <= failed[j].at)
    && (forall i :: 0 <= i < |failed| ==> |FailsOf(failed[..i], failed[i].src, failed[i].at)| < AUTH_FAIL_PER_MIN)
  }

  lemma {:induction false} MinuteCounted(failed: seq<Failure>, src: string, end: real, now: real)
    requires now <= end
    ensures MinuteFails(failed, src, end) <= |FailsOf(failed, src, now)|
  {
    if failed != [] {
      MinuteCounted(failed[..|failed| - 1], src, end, now);
    }
  }

  lemma LimitedPrefix(failed: seq<Failure>)
    requires Limited(failed) && failed != []
    ensures Limited(failed[..|failed| - 1])
  {
    var f := failed[..|failed| - 1];
    forall i | 0 <= i < |f|
      ensures |FailsOf(f[..i], f[i].src, f[i].at)| < AUTH_FAIL_PER_MIN
    {
      assert f[..i] == failed[..i];
    }
  }

  /** In every minute at most ten failures of a source are recorded, one request at a time. */
  lemma {:induction false} TenPerMinute(failed: seq<Failure>, src: string, end: real)
    requires Limited(failed)
    ensures MinuteFails(failed, src, end) <= AUTH_FAIL_PER_MIN
  {
    if failed != [] {
      var n := |failed| - 1;
      LimitedPrefix(failed);
      TenPerMinute(failed[..n], src, end);
      if failed[n].src == src && failed[n].at <= end {
        MinuteCounted(failed[..n], src, end, failed[n].at);
      }
    }
  }

  lemma FailureRecorded(failed: seq<Failure>, f: Failure)
    requires Limited(failed) && (failed != [] ==> failed[|failed| - 1].at <= f.at)
    requires |FailsOf(failed, f.src, f.at)| < AUTH_FAIL_PER_MIN
    ensures Limited(failed + [f])
  {
    var l := failed + [f];
    forall i | 0 <= i < |l|
      ensures |FailsOf(l[..i], l[i].src, l[i].at)| < AUTH_FAIL_PER_MIN
    {
      assert l[..i] == failed[..i];
      assert failed[..|failed|] == failed;
    }
  }

  function ListOf(fails: map<string, seq<real>>, src: string): seq<real> {
    if src in fails then fails[src] else []
  }

  /** The lists kept by source give, at any later time, the failures of the last minute. */
  ghost predicate Kept(fails: map<string, seq<real>>, failed: seq<Failure>, clock: real) {
    forall src, now :: now >= clock ==> Recent(ListOf(fails, src), now) == FailsOf(failed, src, now)
  }

  lemma KeptPruned(fails: map<string, seq<real>>, failed: seq<Failure>, clock: real, src: string, now: real)
    requires Kept(fails, failed, clock) && now >= clock
    ensures Kept(fails[src := Recent(ListOf(fails, src), now)], failed, now)
  {
    var f := fails[src := Recent(ListOf(fails, src), now)];
    forall s, t | t >= now
      ensures Recent(ListOf(f, s), t) == FailsOf(failed, s, t)
    {
      assert Recent(ListOf(fails, s), t) == FailsOf(failed, s, t);
      RecentAgain(ListOf(fails, src), now, t);
    }
  }

  lemma KeptFailed(fails: map<string, seq<real>>, failed: seq<Failure>, src: string, now: real)
    requires Kept(fails, failed, now) && src in fails
    ensures Kept(fails[src := fails[src] + [now]], failed + [Failure(src, now)], now)
  {
    var f, l := fails[src := fails[src] + [now]], failed + [Failure(src, now)];
    forall s, t | t >= now
      ensures Recent(ListOf(f, s), t) == FailsOf(l, s, t)
    {
      assert Recent(ListOf(fails, s), t) == FailsOf(failed, s, t);
      assert l[..|l| - 1] == failed && f[src][..|f[src]| - 1] == fails[src];
    }
  }

  /** No signature is granted twice. */
  ghost predicate NoReplay(granted: seq<Grant>) {
    forall i, j :: 0 <= i < j < |granted| ==> granted[i].request.sig != granted[j].request.sig
  }

  /** Every signature granted is in the table for as long as its time stamp can pass. */
  ghost predicate Guarded(k: Keys, seen: map<string, real>, granted: seq<Grant>, clock: real) {
    && (forall g :: g in granted ==> g.at <= clock && '\n' !in g.request.ts && WellSigned(k, g.request, g.at))
    && (forall g :: g in granted && g.at + 2.0 * TS_WINDOW >= clock ==> g.request.sig in seen)
    && (forall sig :: sig in seen ==> exists g :: g in granted && g.request.sig == sig && seen[sig] == g.at + 2.0 * TS_WINDOW)
  }

  /** No granted request has the same signature for another text. */
  ghost predicate NoClash(granted: seq<Grant>, r: Request) {
    forall g :: g in granted && g.request.sig == r.sig ==> Message(g.request.ts, g.request.url) == Message(r.ts, r.url)
  }

  /** A well-signed request whose signature was ever granted is still in the table. */
  lemma StillSeen(k: Keys, seen: map<string, real>, granted: seq<Grant>, clock: real, r: Request, g: Grant)
    requires NoClash(granted, r) && Guarded(k, seen, granted, clock) && WellSigned(k, r, clock) && '\n' !in r.ts
    requires g in granted && g.request.sig == r.sig
    ensures r.sig in seen && g.at + 2.0 * TS_WINDOW >= clock
  {
    MessageInjective(g.request.ts, g.request.url, r.ts, r.url);
  }

  lemma Pruned(k: Keys, seen: map<string, real>, granted: seq<Grant>, clock: real, now: real)
    requires Guarded(k, seen, granted, clock) && NoReplay(granted) && now >= clock
    ensures Guarded(k, map s | s in seen && !(seen[s] < now) :: seen[s], granted, now)
  {
    hide WellSigned;
    forall g | g in granted && g.at + 2.0 * TS_WINDOW >= now
      ensures g.request.sig in seen && seen[g.request.sig] >= now
    {
      var h :| h in granted && h.request.sig == g.request.sig && seen[g.request.sig] == h.at + 2.0 * TS_WINDOW;
    }
  }

  lemma SeenGranted(k: Keys, seen: map<string, real>, granted: seq<Grant>, clock: real)
    requires Guarded(k, seen, granted, clock)
    ensures forall sig :: sig in seen ==> exists g :: g in granted && g.request.sig == sig
  {
  }

  lemma Remembered(k: Keys, seen: map<string, real>, granted: seq<Grant>, r: Request, now: real)
    requires Guarded(k, seen, granted, now) && WellSigned(k, r, now) && '\n' !in r.ts && r.sig !in seen
    ensures Guarded(k, seen[r.sig := now + 2.0 * TS_WINDOW], granted + [Grant(r, now)], now)
  {
    hide WellSigned;
    var s, l := seen[r.sig := now + 2.0 * TS_WINDOW], granted + [Grant(r, now)];
    assert Grant(r, now) in l;
    forall sig | sig in s
      ensures exists g :: g in l && g.request.sig == sig && s[sig] == g.at + 2.0 * TS_WINDOW
    {
      if sig != r.sig {
        var g :| g in granted && g.request.sig == sig && seen[sig] == g.at + 2.0 * TS_WINDOW;
        assert g in l;
      }
    }
  }

  class Front {
    const keys: Keys
    var seen: map<string, real>
    var fails: map<string, seq<real>>
    ghost var clock: real
    ghost var granted: seq<Grant>
    ghost var failed: seq<Failure>

    ghost predicate Valid()
      reads this
    {
      && NoReplay(granted) && Guarded(keys, seen, granted, clock)
      && Limited(failed) && Kept(fails, failed, clock) && (failed != [] ==> failed[|failed| - 1].at <= clock)
    }

    constructor (keys: Keys, now: real)
      ensures Valid() && granted == [] && failed == [] && clock == now
    {
      this.keys, seen, fails, clock, granted, failed := keys, map[], map[], now, [], [];
    }

    /** The part of check_auth under the second lock: prune, look up, remember. */
    method Admit(r: Request, now: real) returns (novel: bool)
      requires Valid() && now >= clock && WellSigned(keys, r, now) && '\n' !in r.ts && NoClash(granted, r)
      modifies this`seen, this`granted, this`clock
      ensures Valid() && clock == now
      ensures novel <==> forall g :: g in old(granted) ==> g.request.sig != r.sig
      ensures granted == if novel then old(granted) + [Grant(r, now)] else old(granted)
    {
      hide Limited, Kept, WellSigned, Guarded;
      Pruned(keys, seen, granted, clock, now);
      KeptLater(fails, failed, clock, now);
      seen := map s | s in seen && !(seen[s] < now) :: seen[s];
      clock := now;
      forall g | g in granted && g.request.sig == r.sig
        ensures r.sig in seen
      {
        StillSeen(keys, seen, granted, now, r, g);
      }
      SeenGranted(keys, seen, granted, now);
      novel := r.sig !in seen;
      if novel {
        Remembered(keys, seen, granted, r, now);
        seen := seen[r.sig := now + 2.0 * TS_WINDOW];
        granted := granted + [Grant(r, now)];
      }
    }

    /** check_auth, one request at a time. */
    method CheckAuth(r: Request, now: real) returns (v: Verdict)
      requires Valid() && now >= clock && '\n' !in r.ts && NoClash(granted, r)
      modifies this
      ensures Valid() && clock == now
      ensures v == RateLimited <==>
                |set i | 0 <= i < |old(failed)| && old(failed)[i].src == r.src && now - old(failed)[i].at < 60.0| >= 10
      ensures v == Raised <==>
                && v != RateLimited && r.sig != "" && keys.readInt(r.ts).Some?
                && var ts := keys.readInt(r.ts).value;
                   || ts >= FLOAT_LIMIT || ts <= -FLOAT_LIMIT
                   || (-60.0 <= now - ts as real <= 60.0 && exists i :: 0 <= i < |r.sig| && r.sig[i] as int > 127)
      ensures v == Admitted <==>
                && v != RateLimited && v != Raised
                && r.sig != "" && r.sig == keys.mac(r.ts + "\n" + r.url)
                && keys.readInt(r.ts).Some? && -60.0 <= now - keys.readInt(r.ts).value as real <= 60.0
                && forall g :: g in old(granted) ==> g.request.sig != r.sig
      ensures r.sig != keys.mac(r.ts + "\n" + r.url) ==> v in {BadSignature, RateLimited, Raised}
      ensures v == Raised ==> granted == old(granted) && failed == old(failed)
      ensures granted == if v == Admitted then old(granted) + [Grant(r, now)] else old(granted)
      ensures failed == if v == BadSignature then old(failed) + [Failure(r.src, now)] else old(failed)
    {
      hide Limited, Kept, Guarded, NoReplay;
      KeptPruned(fails, failed, clock, r.src, now);
      KeptNow(fails, failed, clock, r.src, now);
      FailsCount(failed, r.src, now);
      ghost var before := clock;
      fails := fails[r.src := Recent(ListOf(fails, r.src), now)];
      if |fails[r.src]| >= AUTH_FAIL_PER_MIN {
        GuardedLater(keys, seen, granted, clock, now);
        clock := now;
        return RateLimited;
      }
      GuardedLater(keys, seen, granted, clock, now);
      clock := now;
      if Raises(keys, r, now) {
        return Raised;
      }
      var ok := WellSigned(keys, r, now);
      if ok {
        ok := Admit(r, now);
      }
      if ok {
        return Admitted;
      }
      FailureRecorded(failed, Failure(r.src, now));
      KeptFailed(fails, failed, r.src, now);
      fails := fails[r.src := fails[r.src] + [now]];
      failed := failed + [Failure(r.src, now)];
      return BadSignature;
    }
  }

  lemma KeptNow(fails: map<string, seq<real>>, failed: seq<Failure>, clock: real, src: string, now: real)
    requires Kept(fails, failed, clock) && now >= clock
    ensures Recent(ListOf(fails, src), now) == FailsOf(failed, src, now)
  {
  }

  lemma KeptLater(fails: map<string, seq<real>>, failed: seq<Failure>, clock: real, now: real)
    requires Kept(fails, failed, clock) && now >= clock
    ensures Kept(fails, failed, now)
  {
  }

  lemma GuardedLater(k: Keys, seen: map<string, real>, granted: seq<Grant>, clock: real, now: real)
    requires Guarded(k, seen, granted, clock) && now >= clock
    ensures Guarded(k, seen, granted, now)
  {
  }
}
