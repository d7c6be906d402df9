/** The throttle in front of the credential check (portal/gateway/gw/people.py): a limit per address and a doubling delay
    per account over the failures of the last 900 seconds. */
module Throttle {

  const FAIL_WINDOW := 900.0
  const ACCOUNT_FREE_FAILS := 3
  const IP_FAIL_LIMIT := 20
  const ENROL_FAIL_LIMIT := 10

  /** A row of login_attempts. check tells the credential checks from the failed enrolments that share the table under the
      account "enrol"; it is history, not stored. */
  datatype Attempt = Attempt(ts: real, ip: string, account: string, ok: bool, check: bool)

  datatype Gate = Pass | TooManyFromAddress(retryAfter: int) | AccountDelay(retryAfter: int)

  /** _fails for an account: the times of its failures after since, oldest first. */
  function AccountFails(log: seq<Attempt>, account: string, since: real): seq<real> {
    if log == [] then []
    else
      var rest, last := AccountFails(log[..|log| - 1], account, since), log[|log| - 1];
      if !last.ok && last.account == account && last.ts > since then rest + [last.ts] else rest
  }

  /** _fails for an address. */
  function AddressFails(log: seq<Attempt>, ip: string, since: real): seq<real> {
    if log == [] then []
    else
      var rest, last := AddressFails(log[..|log| - 1], ip, since), log[|log| - 1];
      if !last.ok && last.ip == ip && last.ts > since then rest + [last.ts] else rest
  }

  function PowerOfTwo(n: nat): real {
    if n == 0 then 1.0 else 2.0 * PowerOfTwo(n - 1)
  }

  /** The delay after n failures of an account. */
  function Wait(n: nat): real {
    if n <= ACCOUNT_FREE_FAILS then 0.0
    else if PowerOfTwo(n - ACCOUNT_FREE_FAILS) < 900.0 then PowerOfTwo(n - ACCOUNT_FREE_FAILS)
    else 900.0
  }

  /** The part of _throttle that is about the address. */
  function AddressGate(log: seq<Attempt>, ip: string, now: real): Gate {
    var f := AddressFails(log, ip, now - FAIL_WINDOW);
    if |f| >= IP_FAIL_LIMIT then TooManyFromAddress((f[0] + FAIL_WINDOW - now).Floor + 1) else Pass
  }

  /** _throttle */
  function Throttled(log: seq<Attempt>, account: string, ip: string, now: real): Gate {
    if AddressGate(log, ip, now) != Pass then AddressGate(log, ip, now)
    else
      var fa := AccountFails(log, account, now - FAIL_WINDOW);
      if |fa| > ACCOUNT_FREE_FAILS && now < fa[|fa| - 1] + Wait(|fa|)
      then AccountDelay((fa[|fa| - 1] + Wait(|fa|) - now).Floor + 1)
      else Pass
  }

  // ---- what the throttle counts ----

  /** The places of an account's failures after since. */
  ghost function AccountRows(log: seq<Attempt>, account: string, since: real): set<int> {
    set i | 0 <= i < |log| && !log[i].ok && log[i].account == account && log[i].ts > since
  }

  ghost function AddressRows(log: seq<Attempt>, ip: string, since: real): set<int> {
    set i | 0 <= i < |log| && !log[i].ok && log[i].ip == ip && log[i].ts > since
  }

  ghost function EnrolRows(log: seq<Attempt>, ip: string, since: real): set<int> {
    set i | 0 <= i < |log| && !log[i].ok && log[i].account == "enrol" && log[i].ip == ip && log[i].ts > since
  }

  lemma {:induction false} AccountCounted(log: seq<Attempt>, account: string, since: real)
    ensures |AccountFails(log, account, since)| == |AccountRows(log, account, since)|
  {
    if log != [] {
      var n := |log| - 1;
      AccountCounted(log[..n], account, since);
      assert AccountRows(log, account, since) - {n} == AccountRows(log[..n], account, since);
    }
  }

  lemma {:induction false} AddressCounts(log: seq<Attempt>, ip: string, since: real)
    ensures |AddressFails(log, ip, since)| == |AddressRows(log, ip, since)|
  {
    if log != [] {
      var n := |log| - 1;
      AddressCounts(log[..n], ip, since);
      assert AddressRows(log, ip, since) - {n} == AddressRows(log[..n], ip, since);
    }
  }

  lemma {:induction false} EnrolCounts(log: seq<Attempt>, ip: string, since: real)
    ensures EnrolFails(log, ip, since) == |EnrolRows(log, ip, since)|
  {
    if log != [] {
      var n := |log| - 1;
      EnrolCounts(log[..n], ip, since);
      assert EnrolRows(log, ip, since) - {n} == EnrolRows(log[..n], ip, since);
    }
  }

  /** The throttle lets a check through exactly when fewer than 20 failures of the address are younger than 900 seconds, and
      at most three of the account are, or the newest of its n lies 2^(n - 3) seconds back, or 900 if that is less. */
  lemma ThrottledExactly(log: seq<Attempt>, account: string, ip: string, now: real)
    ensures var n := |set i | 0 <= i < |log| && !log[i].ok && log[i].account == account && log[i].ts > now - 900.0|;
            Throttled(log, account, ip, now) == Pass <==>
              && |set i | 0 <= i < |log| && !log[i].ok && log[i].ip == ip && log[i].ts > now - 900.0| < 20
              && (n <= 3
                  || forall i :: NewestFailure(log, account, now - 900.0, i) ==>
                       now >= log[i].ts + if PowerOfTwo(n - 3) < 900.0 then PowerOfTwo(n - 3) else 900.0)
  {
    hide AccountFails, AddressFails, PowerOfTwo, AddressRows, AccountRows, NewestFailure, Wait;
    var since := now - FAIL_WINDOW;
    AddressCounts(log, ip, since);
    AccountReady(log, account, since, now);
    assert AccountRows(log, account, since) == set i | 0 <= i < |log| && !log[i].ok && log[i].account == account && log[i].ts > now - 900.0 by {
      RowsAre(log, account, ip, since);
    }
    assert AddressRows(log, ip, since) == set i | 0 <= i < |log| && !log[i].ok && log[i].ip == ip && log[i].ts > now - 900.0 by {
      RowsAre(log, account, ip, since);
    }
  }

  lemma RowsAre(log: seq<Attempt>, account: string, ip: string, since: real)
    ensures AccountRows(log, account, since) == set i | 0 <= i < |log| && !log[i].ok && log[i].account == account && log[i].ts > since
    ensures AddressRows(log, ip, since) == set i | 0 <= i < |log| && !log[i].ok && log[i].ip == ip && log[i].ts > since
  {
  }

  /** Row i is the last of the account's failures after since. */
  ghost predicate NewestFailure(log: seq<Attempt>, account: string, since: real, i: int) {
    && 0 <= i < |log| && !log[i].ok && log[i].account == account && log[i].ts > since
    && forall j :: i < j < |log| ==> log[j].ok || log[j].account != account || log[j].ts <= since
  }

  lemma {:induction false} Newest(log: seq<Attempt>, account: string, since: real) returns (i: int)
    requires AccountFails(log, account, since) != []
    ensures NewestFailure(log, account, since, i)
    ensures var f := AccountFails(log, account, since); f[|f| - 1] == log[i].ts
  {
    i := |log| - 1;
    if log[i].ok || log[i].account != account || log[i].ts <= since {
      i := Newest(log[..i], account, since);
    }
  }

  /** The newest of the failures, and the delay counted from it. */
  lemma AccountReady(log: seq<Attempt>, account: string, since: real, now: real)
    ensures var f, n := AccountFails(log, account, since), |AccountRows(log, account, since)|;
            && |f| == n
            && (n <= 3 || now >= f[|f| - 1] + Wait(|f|) <==>
                  n <= 3 || forall i :: NewestFailure(log, account, since, i) ==>
                              now >= log[i].ts + if PowerOfTwo(n - 3) < 900.0 then PowerOfTwo(n - 3) else 900.0)
  {
    hide AccountFails, PowerOfTwo, AccountRows;
    AccountCounted(log, account, since);
    if |AccountRows(log, account, since)| > 3 {
      var i := Newest(log, account, since);
      assert forall j :: NewestFailure(log, account, since, j) ==> j == i;
    }
  }

  // ---- the windows ----

  /** Times are recorded in order, and every recorded credential check had passed the throttle at some earlier reading of
      the clock, not before the previous row. */
  ghost predicate Guarded(log: seq<Attempt>) {
    && (forall i, j :: 0 <= i <= j < |log| ==> log[i].ts <= log[j].ts)
    && (forall i :: 0 <= i < |log| && log[i].check ==> exists t :: PassedAt(log, i, t))
  }

  ghost predicate PassedAt(log: seq<Attempt>, i: nat, t: real)
    requires i < |log|
  {
    t <= log[i].ts && Throttled(log[..i], log[i].account, log[i].ip, t) == Pass
  }

  /** The failed credential checks of one account in the half-open window (end - 900, end]. */
  function WindowFails(log: seq<Attempt>, account: string, end: real): seq<real> {
    if log == [] then []
    else
      var rest, last := WindowFails(log[..|log| - 1], account, end), log[|log| - 1];
      if last.check && !last.ok && last.account == account && end - FAIL_WINDOW < last.ts <= end then rest + [last.ts] else rest
  }

  lemma {:induction false} PowerMonotone(m: nat, n: nat)
    requires m <= n
    ensures 1.0 <= PowerOfTwo(m) <= PowerOfTwo(n)
    decreases n
  {
    if m < n {
      PowerMonotone(m, n - 1);
    } else if m > 0 {
      PowerMonotone(m - 1, n - 1);
    }
  }

  lemma WaitMonotone(m: nat, n: nat)
    requires m <= n
    ensures 0.0 <= Wait(m) <= Wait(n) <= 900.0
  {
    if m > ACCOUNT_FREE_FAILS {
      PowerMonotone(m - ACCOUNT_FREE_FAILS, n - ACCOUNT_FREE_FAILS);
    } else if n > ACCOUNT_FREE_FAILS {
      PowerMonotone(0, n - ACCOUNT_FREE_FAILS);
    }
  }

  /** Everything in a window is among the failures the throttle counts at any reading of the clock inside the window, and
      the newest counted failure is not older than the newest one in the window. */
  lemma {:induction false} WindowCounted(log: seq<Attempt>, account: string, end: real, t: real)
    requires forall i, j :: 0 <= i <= j < |log| ==> log[i].ts <= log[j].ts
    requires t <= end
    ensures var w, f := WindowFails(log, account, end), AccountFails(log, account, t - FAIL_WINDOW);
            |w| <= |f| && (w != [] ==> w[|w| - 1] <= f[|f| - 1])
    ensures var w, f := WindowFails(log, account, end), AccountFails(log, account, t - FAIL_WINDOW);
            f != [] ==> log != [] && f[|f| - 1] <= log[|log| - 1].ts
  {
    if log != [] {
      WindowCounted(log[..|log| - 1], account, end, t);
    }
  }

  /** The gaps the delay forces between consecutive failures of one window. */
  ghost predicate Spaced(w: seq<real>, end: real) {
    && (forall k :: 0 <= k < |w| ==> end - FAIL_WINDOW < w[k] <= end)
    && Gaps(w)
  }

  ghost predicate Gaps(w: seq<real>) {
    forall k :: 1 <= k < |w| ==> w[k - 1] + Wait(k) <= w[k]
  }

  lemma {:induction false} WindowSpaced(log: seq<Attempt>, account: string, end: real)
    requires Guarded(log)
    ensures Spaced(WindowFails(log, account, end), end)
  {
    if log != [] {
      var n := |log| - 1;
      GuardedPrefix(log, n);
      WindowSpaced(log[..n], account, end);
      hide Guarded, Spaced;
      if log[n].check && !log[n].ok && log[n].account == account && end - FAIL_WINDOW < log[n].ts <= end {
        NextFailure(log, account, end);
        SpacedStep(WindowFails(log[..n], account, end), log[n].ts, end);
      }
    }
  }

  /** A failure in the window comes at least the delay after the one before it. */
  lemma NextFailure(log: seq<Attempt>, account: string, end: real)
    requires Guarded(log) && log != [] && log[|log| - 1].check && log[|log| - 1].account == account && log[|log| - 1].ts <= end
    ensures var w := WindowFails(log[..|log| - 1], account, end);
            w != [] ==> w[|w| - 1] + Wait(|w|) <= log[|log| - 1].ts
  {
    var n := |log| - 1;
    var before := log[..n];
    var w := WindowFails(before, account, end);
    if w != [] {
      var t :| PassedAt(log, n, t);
      WindowCounted(before, account, end, t);
      var f := AccountFails(before, account, t - FAIL_WINDOW);
      hide AccountFails, WindowFails, AddressFails, Wait, Guarded;
      WaitMonotone(|w|, |f|);
      NoDelay(before, account, log[n].ip, t);
      SmallWait(|f|);
      assert before[|before| - 1] == log[n - 1];
      assert log[n - 1].ts <= log[n].ts by { InOrder(log, n); }
    }
  }

  lemma NoDelay(log: seq<Attempt>, account: string, ip: string, t: real)
    requires Throttled(log, account, ip, t) == Pass
    ensures var f := AccountFails(log, account, t - FAIL_WINDOW); |f| > ACCOUNT_FREE_FAILS ==> f[|f| - 1] + Wait(|f|) <= t
  {
  }

  lemma SmallWait(n: nat)
    ensures n <= ACCOUNT_FREE_FAILS ==> Wait(n) == 0.0
  {
  }

  lemma InOrder(log: seq<Attempt>, n: nat)
    requires Guarded(log) && 0 < n < |log|
    ensures log[n - 1].ts <= log[n].ts
  {
  }

  lemma SpacedStep(w: seq<real>, x: real, end: real)
    requires Spaced(w, end) && end - FAIL_WINDOW < x <= end
    requires w != [] ==> w[|w| - 1] + Wait(|w|) <= x
    ensures Spaced(w + [x], end)
  {
    hide Wait;
  }

  lemma GuardedPrefix(log: seq<Attempt>, n: nat)
    requires Guarded(log) && n <= |log|
    ensures Guarded(log[..n])
  {
    forall i | 0 <= i < n && log[..n][i].check
      ensures exists t :: PassedAt(log[..n], i, t)
    {
      var t :| PassedAt(log, i, t);
      assert log[..n][..i] == log[..i];
      assert PassedAt(log[..n], i, t);
    }
  }

  /** At most 12 failed credential checks of one account fall into any window of 900 seconds: the thirteenth would come
      2 + 4 + ... + 512 = 1022 seconds after the fourth. */
  lemma TwelvePerWindow(log: seq<Attempt>, account: string, end: real)
    requires Guarded(log)
    ensures |WindowFails(log, account, end)| <= 12
  {
    var w := WindowFails(log, account, end);
    WindowSpaced(log, account, end);
    if |w| > 12 {
      GapsSum(w);
    }
  }

  lemma GapsSum(w: seq<real>)
    requires Gaps(w) && |w| > 12
    ensures w[3] + 1022.0 <= w[12]
  {
    Waits();
    assert w[3] + Wait(4) <= w[4] && w[4] + Wait(5) <= w[5] && w[5] + Wait(6) <= w[6];
    assert w[6] + Wait(7) <= w[7] && w[7] + Wait(8) <= w[8] && w[8] + Wait(9) <= w[9];
    assert w[9] + Wait(10) <= w[10] && w[10] + Wait(11) <= w[11] && w[11] + Wait(12) <= w[12];
  }

  lemma Waits()
    ensures Wait(4) == 2.0 && Wait(5) == 4.0 && Wait(6) == 8.0 && Wait(7) == 16.0 && Wait(8) == 32.0
    ensures Wait(9) == 64.0 && Wait(10) == 128.0 && Wait(11) == 256.0 && Wait(12) == 512.0
  {
    assert PowerOfTwo(1) == 2.0 && PowerOfTwo(2) == 4.0 && PowerOfTwo(3) == 8.0;
    assert PowerOfTwo(4) == 16.0 && PowerOfTwo(5) == 32.0 && PowerOfTwo(6) == 64.0;
    assert PowerOfTwo(7) == 128.0 && PowerOfTwo(8) == 256.0 && PowerOfTwo(9) == 512.0;
  }

  // ---- the limits by address ----

  /** The failed credential checks, or the failed enrolments, from one address in the window (end - 900, end]. */
  function AddressWindow(log: seq<Attempt>, ip: string, check: bool, end: real): nat {
    if log == [] then 0
    else
      var last := log[|log| - 1];
      AddressWindow(log[..|log| - 1], ip, check, end)
      + if last.check == check && !last.ok && last.ip == ip && end - FAIL_WINDOW < last.ts <= end then 1 else 0
  }

  lemma {:induction false} AddressCounted(log: seq<Attempt>, ip: string, end: real, t: real)
    requires t <= end
    ensures AddressWindow(log, ip, true, end) <= |AddressFails(log, ip, t - FAIL_WINDOW)|
  {
    if log != [] {
      AddressCounted(log[..|log| - 1], ip, end, t);
    }
  }

  /** At most 20 failed credential checks from one address fall into any window of 900 seconds. */
  lemma {:induction false} TwentyPerAddress(log: seq<Attempt>, ip: string, end: real)
    requires Guarded(log)
    ensures AddressWindow(log, ip, true, end) <= IP_FAIL_LIMIT
  {
    if log != [] {
      var n := |log| - 1;
      GuardedPrefix(log, n);
      TwentyPerAddress(log[..n], ip, end);
      if log[n].check && log[n].ip == ip && log[n].ts <= end {
        var t :| PassedAt(log, n, t);
        AddressCounted(log[..n], ip, end, t);
      }
    }
  }

  /** The rows that the enrolment limit counts: whatever failed under the account "enrol". */
  function EnrolFails(log: seq<Attempt>, ip: string, since: real): nat {
    if log == [] then 0
    else
      var last := log[|log| - 1];
      EnrolFails(log[..|log| - 1], ip, since) + if !last.ok && last.account == "enrol" && last.ip == ip && last.ts > since then 1 else 0
  }

  /** Every failed enrolment was recorded below its limit. */
  ghost predicate EnrolGuarded(log: seq<Attempt>) {
    forall i :: 0 <= i < |log| && !log[i].check ==>
      log[i].account == "enrol" && EnrolFails(log[..i], log[i].ip, log[i].ts - FAIL_WINDOW) < ENROL_FAIL_LIMIT
  }

  lemma {:induction false} EnrolCounted(log: seq<Attempt>, ip: string, end: real, t: real)
    requires t <= end && forall i :: 0 <= i < |log| && !log[i].check ==> log[i].account == "enrol"
    ensures AddressWindow(log, ip, false, end) <= EnrolFails(log, ip, t - FAIL_WINDOW)
  {
    if log != [] {
      EnrolCounted(log[..|log| - 1], ip, end, t);
    }
  }

  /** At most 10 failed enrolments from one address fall into any window of 900 seconds. */
  lemma {:induction false} TenEnrolments(log: seq<Attempt>, ip: string, end: real)
    requires EnrolGuarded(log)
    ensures AddressWindow(log, ip, false, end) <= ENROL_FAIL_LIMIT
  {
    if log != [] {
      var n := |log| - 1;
      EnrolGuardedPrefix(log, n);
      TenEnrolments(log[..n], ip, end);
      if !log[n].check && log[n].ip == ip && log[n].ts <= end {
        EnrolCounted(log[..n], ip, end, log[n].ts);
      }
    }
  }

  lemma EnrolGuardedPrefix(log: seq<Attempt>, n: nat)
    requires EnrolGuarded(log) && n <= |log|
    ensures EnrolGuarded(log[..n])
  {
    hide EnrolFails;
    forall i | 0 <= i < n && !log[i].check
      ensures log[i].account == "enrol" && EnrolFails(log[..n][..i], log[i].ip, log[i].ts - FAIL_WINDOW) < ENROL_FAIL_LIMIT
    {
      assert log[..n][..i] == log[..i];
    }
  }

  lemma EnrolGuardedNext(log: seq<Attempt>, a: Attempt)
    requires EnrolGuarded(log)
    requires !a.check ==> a.account == "enrol" && EnrolFails(log, a.ip, a.ts - FAIL_WINDOW) < ENROL_FAIL_LIMIT
    ensures EnrolGuarded(log + [a])
  {
    hide EnrolFails;
    var l := log + [a];
    forall i | 0 <= i < |l| && !l[i].check
      ensures l[i].account == "enrol" && EnrolFails(l[..i], l[i].ip, l[i].ts - FAIL_WINDOW) < ENROL_FAIL_LIMIT
    {
      assert l[..i] == log[..i];
      assert log[..|log|] == log;
    }
  }

  // ---- the waiting time that is told ----

  /** Later, an account has no more counted failures, and the newest of them is the same. */
  lemma {:induction false} FailsLater(log: seq<Attempt>, account: string, t: real, now: real)
    requires t <= now
    ensures var f, later := AccountFails(log, account, t - FAIL_WINDOW), AccountFails(log, account, now - FAIL_WINDOW);
            |later| <= |f| && (later != [] ==> later[|later| - 1] == f[|f| - 1] || Unordered(log))
  {
    if log != [] {
      var n := |log| - 1;
      FailsLater(log[..n], account, t, now);
      if !Unordered(log) {
        OrderedPrefix(log, n);
        var last := log[n];
        if !last.ok && last.account == account && t - FAIL_WINDOW < last.ts <= now - FAIL_WINDOW {
          NoneLater(log[..n], account, now - FAIL_WINDOW);
        }
      }
    }
  }

  ghost predicate Unordered(log: seq<Attempt>) {
    exists i, j :: 0 <= i < j < |log| && log[i].ts > log[j].ts
  }

  lemma OrderedPrefix(log: seq<Attempt>, n: nat)
    requires n < |log| && !Unordered(log)
    ensures !Unordered(log[..n]) && forall i :: 0 <= i < n ==> log[i].ts <= log[n].ts
  {
    forall i, j | 0 <= i < j < |log|
      ensures log[i].ts <= log[j].ts
    {
      assert !(log[i].ts > log[j].ts);
    }
    assert forall i, j :: 0 <= i < j < n ==> log[..n][i].ts <= log[..n][j].ts;
  }

  lemma {:induction false} NoneLater(log: seq<Attempt>, account: string, since: real)
    requires forall i :: 0 <= i < |log| ==> log[i].ts <= since
    ensures AccountFails(log, account, since) == []
  {
    if log != [] {
      NoneLater(log[..|log| - 1], account, since);
    }
  }

  /** When the delay of the failures counted at t is over. */
  function ReadyAt(log: seq<Attempt>, account: string, t: real): real {
    var f := AccountFails(log, account, t - FAIL_WINDOW);
    if f == [] then t else f[|f| - 1] + Wait(|f|)
  }

  /** The waiting time told with an account delay is enough: that long after, without a further failure, the account is
      not delayed. It is at most a second too long: while the same failures are counted, no earlier check is let through. */
  lemma RetryAfterEnough(log: seq<Attempt>, account: string, ip: string, t: real, now: real)
    requires !Unordered(log) && Throttled(log, account, ip, t).AccountDelay? && now >= t + Throttled(log, account, ip, t).retryAfter as real
    ensures !Throttled(log, account, ip, now).AccountDelay?
    ensures t + Throttled(log, account, ip, t).retryAfter as real - 1.0 <= ReadyAt(log, account, t)
    ensures forall early :: t <= early < ReadyAt(log, account, t) && |AccountFails(log, account, early - FAIL_WINDOW)| == |AccountFails(log, account, t - FAIL_WINDOW)|
              ==> Throttled(log, account, ip, early) != Pass
  {
    forall early | t <= early < ReadyAt(log, account, t) && |AccountFails(log, account, early - FAIL_WINDOW)| == |AccountFails(log, account, t - FAIL_WINDOW)|
      ensures Throttled(log, account, ip, early) != Pass
    {
      FailsLater(log, account, t, early);
    }
    var f, later := AccountFails(log, account, t - FAIL_WINDOW), AccountFails(log, account, now - FAIL_WINDOW);
    assert now >= f[|f| - 1] + Wait(|f|);
    FailsLater(log, account, t, now);
    WaitMonotone(|later|, |f|);
  }

  /** Later, an ordered log counts the newest part of what an address had: what the window has not passed. */
  lemma {:induction false} AddressLater(log: seq<Attempt>, ip: string, t: real, now: real)
    requires t <= now && !Unordered(log)
    ensures var f, later := AddressFails(log, ip, t - FAIL_WINDOW), AddressFails(log, ip, now - FAIL_WINDOW);
            && |later| <= |f| && later == f[|f| - |later|..]
            && forall k :: 0 <= k < |f| ==> (f[k] > now - FAIL_WINDOW <==> k >= |f| - |later|)
  {
    if log != [] {
      var n := |log| - 1;
      OrderedPrefix(log, n);
      AddressLater(log[..n], ip, t, now);
      if log[n].ts <= now - FAIL_WINDOW {
        NoneLaterAt(log[..n], ip, now - FAIL_WINDOW);
      }
    }
  }

  lemma {:induction false} NoneLaterAt(log: seq<Attempt>, ip: string, since: real)
    requires forall i :: 0 <= i < |log| ==> log[i].ts <= since
    ensures AddressFails(log, ip, since) == []
  {
    if log != [] {
      NoneLaterAt(log[..|log| - 1], ip, since);
    }
  }

  /** Without a further failure, a refused address is let through exactly when the twentieth newest row that was counted
      has left the window; the waiting time told is counted from the oldest one, so it is enough for twenty rows. */
  lemma AddressOpens(log: seq<Attempt>, ip: string, t: real, now: real)
    requires !Unordered(log) && AddressGate(log, ip, t).TooManyFromAddress? && now >= t
    ensures var f := AddressFails(log, ip, t - FAIL_WINDOW);
            && |f| >= IP_FAIL_LIMIT
            && (AddressGate(log, ip, now) == Pass <==> f[|f| - IP_FAIL_LIMIT] <= now - FAIL_WINDOW)
            && (|f| == IP_FAIL_LIMIT && now >= t + AddressGate(log, ip, t).retryAfter as real ==> AddressGate(log, ip, now) == Pass)
  {
    AddressLater(log, ip, t, now);
  }

  /** One failed check at 0, ten more at 800 for other accounts, then ten failed enrolments, all from one address. */
  function BusyRow(n: nat): Attempt {
    Attempt(if n == 0 then 0.0 else 800.0, "192.168.1.9", if n <= 10 then seq(n + 1, _ => 'x') else "enrol", false, n <= 10)
  }

  function BusyLog(n: nat): (r: seq<Attempt>)
    ensures |r| == n && forall i :: 0 <= i < n ==> r[i] == BusyRow(i)
  {
    seq(n, i requires 0 <= i < n => BusyRow(i))
  }

  lemma {:induction false} BusyAddress(n: nat, since: real)
    requires since < 800.0
    ensures var f := AddressFails(BusyLog(n), "192.168.1.9", since);
            && |f| == (if n > 0 && since >= 0.0 then n - 1 else n)
            && (n > 0 && since < 0.0 ==> f[0] == 0.0) && (n > 1 && since >= 0.0 ==> f[0] == 800.0)
  {
    if n > 0 {
      BusyAddress(n - 1, since);
      assert BusyLog(n)[..n - 1] == BusyLog(n - 1);
    }
  }

  lemma {:induction false} BusyAccounts(n: nat, account: string, since: real)
    ensures n <= 11 && |account| > n ==> AccountFails(BusyLog(n), account, since) == []
    ensures EnrolFails(BusyLog(n), "192.168.1.9", since) <= if n <= 11 then 0 else n - 11
  {
    if n > 0 {
      BusyAccounts(n - 1, account, since);
      assert BusyLog(n)[..n - 1] == BusyLog(n - 1);
      assert n <= 11 ==> BusyRow(n - 1).account[0] == 'x';
    }
  }

  lemma BusyAllowed()
    ensures Guarded(BusyLog(21)) && EnrolGuarded(BusyLog(21))
  {
    hide AddressFails, AccountFails, EnrolFails;
    var log := BusyLog(21);
    forall i | 0 <= i < 21
      ensures log[i].check ==> PassedAt(log, i, log[i].ts)
      ensures !log[i].check ==> log[i].account == "enrol" && EnrolFails(log[..i], log[i].ip, log[i].ts - FAIL_WINDOW) < ENROL_FAIL_LIMIT
    {
      assert log[..i] == BusyLog(i);
      BusyAddress(i, BusyRow(i).ts - FAIL_WINDOW);
      BusyAccounts(i, BusyRow(i).account, BusyRow(i).ts - FAIL_WINDOW);
    }
  }

  /** A log that the throttle and the enrolment limit allow, and whose address is told at 800 to wait 101 seconds, and then
      800 more. */
  lemma ToldTooLittle()
    ensures Guarded(BusyLog(21)) && EnrolGuarded(BusyLog(21))
    ensures AddressGate(BusyLog(21), "192.168.1.9", 800.0) == TooManyFromAddress(101)
    ensures AddressGate(BusyLog(21), "192.168.1.9", 901.0) == TooManyFromAddress(800)
  {
    hide AddressFails;
    BusyAllowed();
    BusyAddress(21, -100.0);
    BusyAddress(21, 1.0);
  }
}
