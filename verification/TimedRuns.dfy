/** Timed runs of one device (portal/gateway/gw/core.py): switch a plug on for some minutes, with the switch-off armed
    first. The schedule service, Home Assistant and the clock are the environment: their answers are arbitrary, any call may
    fail, and the gateway may stop at any await. The log records what was exchanged, and when the gateway took the plug for
    off. One request runs at a time. */
module TimedRuns {
  import opened Wrappers

  const DEBOUNCE := 1.5
  const ARM_WAIT := 60.0
  const ARM_POLL := 1.0
  const CONFIRM := 6.0
  const READ_POLL := 0.15

  datatype Event =
    | Accepted(id: string)                     // the service accepted a run
    | Asked(id: string)                        // the gateway asks whether the run is armed
    | Armed(id: string)                        // the service reported the run armed
    | TurnedOn(id: string, answered: bool)     // turn_on for a run was carried out; its answer arrived, or was lost
    | PlainOn                                  // turn_on without a run was carried out
    | TurnedOff                                // turn_off was carried out
    | Reported(state: Plug)                    // Home Assistant reported the state of the plug
    | SawOff                                   // the gateway read the state reported last, and it was off
    | Listed(active: Option<string>)           // the service listed the device's run, or its last answer was used
    | Deleting(id: string)                     // the gateway asks the service to delete the run

  type Log = seq<Event>

  datatype Plug = On | Off | Gone

  datatype Mode = Timed | Plain

  datatype RunRow = RunRow(id: string, ends: real)

  datatype Error = NotAllowed | TimedOnly | Stale | Unavailable | AlreadyOn | TooFast | Service | NotArmed | HaFailed | NoRun

  datatype Outcome = Confirmed | Unconfirmed | Refused(error: Error) | Stopped

  // ---- the property ----

  /** The plug was reported off between i and k. */
  ghost predicate OffBetween(log: Log, i: int, k: int) {
    exists m :: 0 <= i < m < k && m < |log| && log[m] == Reported(Off)
  }

  /** Any state of the plug was reported. */
  ghost predicate HeardBetween(log: Log, i: int, k: int) {
    exists m :: 0 <= i < m < k && m < |log| && log[m].Reported?
  }

  ghost predicate ReadBetween(log: Log, i: int, k: int) {
    exists m :: 0 <= i < m < k && m < |log| && log[m] == SawOff
  }

  /** An off was read between i and k that was reported before i: nothing had been reported since. */
  ghost predicate BlindRead(log: Log, i: int, k: int) {
    exists m :: 0 <= i < m < k && m < |log| && log[m] == SawOff && !HeardBetween(log, i, m)
  }

  ghost predicate SwitchOn(log: Log, i: int) {
    0 <= i < |log| && log[i].TurnedOn?
  }

  /** The answer of the switch-on at i was lost, and the plug was not taken for off between i and k. */
  ghost predicate Lost(log: Log, i: int, k: int) {
    SwitchOn(log, i) && !log[i].answered && !ReadBetween(log, i, k)
  }

  ghost predicate ArmedBefore(log: Log, i: int) {
    SwitchOn(log, i) && Armed(log[i].id) in log[..i]
  }

  /** k deletes the run that was switched on at i. */
  ghost predicate Deletes(log: Log, i: int, k: int) {
    SwitchOn(log, i) && 0 <= k < |log| && log[k] == Deleting(log[i].id)
  }

  /** The run behind the switch-on at i was reported armed before, was not deleted before, and is deleted after only when
      the plug has been reported off in between. */
  ghost predicate Covered(log: Log, i: int) {
    ArmedBefore(log, i) && forall k :: Deletes(log, i, k) ==> i < k && OffBetween(log, i, k)
  }

  /** Every switch-on is covered. */
  ghost predicate AllSafe(log: Log) {
    forall i :: SwitchOn(log, i) ==> Covered(log, i)
  }

  /** A run is deleted, and the plug was not reported off since it was switched on. */
  ghost predicate Bare(log: Log, i: int, k: int) {
    Deletes(log, i, k) && i < k && !OffBetween(log, i, k)
  }

  ghost predicate NoneBare(log: Log) {
    forall i, k :: !Bare(log, i, k)
  }

  /** The run is withdrawn because the answer of its switch-on was lost. */
  ghost predicate Withdrawn(log: Log, i: int, k: int) {
    Bare(log, i, k) && Lost(log, i, k)
  }

  ghost predicate NoneWithdrawn(log: Log) {
    forall i, k :: !Withdrawn(log, i, k)
  }

  /** The run is ended on the strength of an off that is older than its switch-on. */
  ghost predicate Blind(log: Log, i: int, k: int) {
    Bare(log, i, k) && BlindRead(log, i, k)
  }

  ghost predicate NoneBlind(log: Log) {
    forall i, k :: !Blind(log, i, k)
  }

  ghost predicate Excused(log: Log, i: int, k: int) {
    OffBetween(log, i, k) || BlindRead(log, i, k) || Lost(log, i, k)
  }

  /** What every log of the gateway meets: each switch-on is armed and not deleted before, and every deletion after it comes
      with the plug reported off, or is of one of the two kinds. */
  ghost predicate Safe(log: Log) {
    forall i :: SwitchOn(log, i) ==> ArmedBefore(log, i) && forall k :: Deletes(log, i, k) ==> i < k && Excused(log, i, k)
  }

  /** Every switch-on is covered if and only if none was withdrawn after its answer was lost and none was ended on the
      strength of an older off. */
  lemma AllSafeExactly(log: Log)
    requires Safe(log)
    ensures AllSafe(log) <==> NoneBare(log)
    ensures AllSafe(log) <==> NoneWithdrawn(log) && NoneBlind(log)
  {
    hide OffBetween, BlindRead, Lost, ArmedBefore, SwitchOn, Deletes;
    if AllSafe(log) {
      forall i, k
        ensures !Bare(log, i, k)
      {
        if Deletes(log, i, k) {
          DeletesOn(log, i, k);
        }
      }
    }
    if NoneWithdrawn(log) && NoneBlind(log) {
      forall i, k
        ensures !Bare(log, i, k)
      {
        assert !Withdrawn(log, i, k) && !Blind(log, i, k);
        if Bare(log, i, k) {
          DeletesOn(log, i, k);
        }
      }
    }
    if NoneBare(log) {
      forall i | SwitchOn(log, i)
        ensures Covered(log, i)
      {
        forall k | Deletes(log, i, k)
          ensures i < k && OffBetween(log, i, k)
        {
          assert !Bare(log, i, k);
        }
      }
    }
  }

  lemma DeletesOn(log: Log, i: int, k: int)
    requires Deletes(log, i, k)
    ensures SwitchOn(log, i)
  {
  }

  /** No run of that id was switched on or deleted. */
  predicate Unused(log: Log, id: string) {
    NotOn(log, id) && Deleting(id) !in log
  }

  predicate NotOn(log: Log, id: string) {
    TurnedOn(id, true) !in log && TurnedOn(id, false) !in log
  }

  /** An off was read after every switch-on: one reported since, or an older one with nothing reported since. */
  ghost predicate OffSinceOn(log: Log) {
    forall i :: SwitchOn(log, i) ==> OffBetween(log, i, |log|) || BlindRead(log, i, |log|)
  }

  /** The plug was reported off after every switch-on. */
  ghost predicate OffHeard(log: Log) {
    forall i :: SwitchOn(log, i) ==> OffBetween(log, i, |log|)
  }

  /** Something was reported after every switch-on. */
  ghost predicate Heard(log: Log) {
    forall i :: SwitchOn(log, i) ==> HeardBetween(log, i, |log|)
  }

  ghost predicate OnlyLost(log: Log, id: string) {
    forall i :: SwitchOn(log, i) && log[i].id == id ==> Lost(log, i, |log|)
  }

  /** An off kept in memory was reported after each switch-on, or nothing was. */
  ghost predicate Kept(log: Log, seen: Plug) {
    seen == Off ==> forall i :: SwitchOn(log, i) ==> OffBetween(log, i, |log|) || !HeardBetween(log, i, |log|)
  }

  /** An off kept in memory was reported after every switch-on. */
  ghost predicate Sure(log: Log, seen: Plug) {
    seen == Off ==> OffHeard(log)
  }

  lemma HeardSure(log: Log, seen: Plug)
    requires Kept(log, seen) && Heard(log)
    ensures Sure(log, seen)
  {
    hide OffBetween, HeardBetween, SwitchOn;
  }

  /** Among the events of one request, a deletion comes only after the plug was taken for off. */
  ghost predicate OnlyAfterOff(added: Log) {
    forall k :: 0 <= k < |added| && added[k].Deleting? ==> SawOff in added[..k]
  }

  ghost predicate NoDeletion(added: Log) {
    forall e :: e in added ==> !e.Deleting?
  }

  ghost predicate NoSwitchOn(added: Log) {
    forall e :: e in added ==> !e.TurnedOn?
  }

  ghost predicate OnlyReports(added: Log) {
    forall e :: e in added ==> e.Reported?
  }

  /** What an event needs: a deletion that an off was read, or that nothing but lost switch-ons is behind the run; a
      switch-on that the run is armed and not deleted. */
  ghost predicate Ready(log: Log, e: Event) {
    match e
    case Deleting(id) => OffSinceOn(log) || OnlyLost(log, id)
    case TurnedOn(id, _) => Armed(id) in log && Deleting(id) !in log
    case _ => true
  }

  // ---- more events ----

  /** Later events change nothing about earlier ones. */
  lemma Earlier(log: Log, added: Log, i: int, k: int)
    requires k <= |log|
    ensures OffBetween(log + added, i, k) == OffBetween(log, i, k)
    ensures HeardBetween(log + added, i, k) == HeardBetween(log, i, k)
    ensures ReadBetween(log + added, i, k) == ReadBetween(log, i, k)
  {
    var l := log + added;
    assert forall m :: 0 <= m < |log| ==> l[m] == log[m];
    assert forall m :: 0 <= i < m < k && m < |log| && log[m] == Reported(Off) ==> l[m] == Reported(Off);
    assert forall m :: 0 <= i < m < k && m < |log| && log[m].Reported? ==> l[m].Reported?;
    assert forall m :: 0 <= i < m < k && m < |log| && log[m] == SawOff ==> l[m] == SawOff;
  }

  lemma EarlierBlind(log: Log, added: Log, i: int, k: int)
    requires k <= |log|
    ensures BlindRead(log + added, i, k) == BlindRead(log, i, k)
  {
    hide HeardBetween;
    var l := log + added;
    forall m | 0 <= m < k
      ensures l[m] == log[m] && HeardBetween(l, i, m) == HeardBetween(log, i, m)
    {
      Earlier(log, added, i, m);
    }
    if m :| 0 <= i < m < k && m < |log| && log[m] == SawOff && !HeardBetween(log, i, m) {
      assert l[m] == SawOff && !HeardBetween(l, i, m);
    }
  }

  /** What was between stays between. */
  lemma Longer(log: Log, i: int, k: int, n: int)
    requires k <= n
    ensures OffBetween(log, i, k) ==> OffBetween(log, i, n)
    ensures HeardBetween(log, i, k) ==> HeardBetween(log, i, n)
    ensures BlindRead(log, i, k) ==> BlindRead(log, i, n)
  {
    hide HeardBetween;
    if HeardBetween(log, i, k) {
      HeardLonger(log, i, k, n);
    }
  }

  lemma HeardLonger(log: Log, i: int, k: int, n: int)
    requires k <= n && HeardBetween(log, i, k)
    ensures HeardBetween(log, i, n)
  {
  }

  lemma OldSwitchOn(log: Log, added: Log, i: int)
    requires SwitchOn(log + added, i) && NoSwitchOn(added)
    ensures SwitchOn(log, i) && (log + added)[i] == log[i]
  {
    forall j | 0 <= j < |added|
      ensures !added[j].TurnedOn?
    {
      assert added[j] in added;
    }
  }

  /** Events that switch nothing on keep what was known. */
  lemma Later(log: Log, added: Log)
    requires NoSwitchOn(added)
    ensures OffSinceOn(log) ==> OffSinceOn(log + added)
    ensures OffHeard(log) ==> OffHeard(log + added)
  {
    hide OffBetween, BlindRead, SwitchOn, NoSwitchOn;
    var l := log + added;
    forall i | SwitchOn(l, i)
      ensures SwitchOn(log, i)
      ensures OffBetween(log, i, |log|) ==> OffBetween(l, i, |l|)
      ensures BlindRead(log, i, |log|) ==> BlindRead(l, i, |l|)
    {
      OldSwitchOn(log, added, i);
      Earlier(log, added, i, |log|);
      EarlierBlind(log, added, i, |log|);
      Longer(l, i, |log|, |l|);
    }
  }

  lemma LostStays(log: Log, added: Log, id: string)
    requires OnlyLost(log, id) && OnlyReports(added)
    ensures OnlyLost(log + added, id)
  {
    var l := log + added;
    forall i | SwitchOn(l, i) && l[i].id == id
      ensures Lost(l, i, |l|)
    {
      OldSwitchOn(log, added, i);
      assert Lost(log, i, |log|);
      forall m | i < m < |l|
        ensures l[m] != SawOff
      {
        assert m < |log| ==> l[m] == log[m];
        assert m >= |log| ==> l[m] in added;
      }
    }
  }

  lemma NotOnAt(log: Log, id: string)
    requires NotOn(log, id)
    ensures forall i :: SwitchOn(log, i) ==> log[i].id != id
  {
    forall i | SwitchOn(log, i)
      ensures log[i].id != id
    {
      assert log[i] in log;
      assert log[i] == TurnedOn(log[i].id, log[i].answered);
    }
  }

  lemma LostNow(log: Log, id: string)
    requires NotOn(log, id)
    ensures OnlyLost(log, id) && OnlyLost(log + [TurnedOn(id, false)], id)
  {
    NotOnAt(log, id);
    var l := log + [TurnedOn(id, false)];
    forall i | SwitchOn(l, i) && l[i].id == id
      ensures i == |log|
    {
      assert i < |log| ==> SwitchOn(log, i);
    }
  }

  /** One more event keeps the log safe. */
  lemma SafeExtends(log: Log, e: Event)
    requires Safe(log) && Ready(log, e)
    ensures Safe(log + [e])
  {
    hide Excused, ArmedBefore;
    var l := log + [e];
    forall i | SwitchOn(l, i)
      ensures ArmedBefore(l, i)
    {
      ArmedStays(log, e, i);
    }
    forall k | 0 <= k < |log|
      ensures e.TurnedOn? ==> log[k] != Deleting(e.id)
    {
      assert log[k] in log;
    }
    forall i, k | Deletes(l, i, k)
      ensures i < k && Excused(l, i, k)
    {
      if i < |log| {
        assert SwitchOn(log, i);
        if k < |log| {
          assert Deletes(log, i, k);
        } else {
          ExcusedNow(log, e.id, i);
        }
        ExcusedStays(log, e, i, k);
      }
    }
  }

  lemma ArmedStays(log: Log, e: Event, i: int)
    requires SwitchOn(log + [e], i) && Ready(log, e) && (i < |log| ==> ArmedBefore(log, i))
    ensures ArmedBefore(log + [e], i)
  {
    var l := log + [e];
    assert l[..i] == if i < |log| then log[..i] else log;
  }

  lemma ExcusedStays(log: Log, e: Event, i: int, k: int)
    requires i < |log| && k <= |log| && Excused(log, i, k)
    ensures Excused(log + [e], i, k)
  {
    hide OffBetween, BlindRead, ReadBetween;
    Earlier(log, [e], i, k);
    EarlierBlind(log, [e], i, k);
  }

  lemma ExcusedNow(log: Log, id: string, i: int)
    requires Ready(log, Deleting(id)) && SwitchOn(log, i) && log[i].id == id
    ensures Excused(log, i, |log|)
  {
    hide OffBetween, BlindRead, Lost;
  }

  /** Reading the state kept in memory as off. */
  lemma ReadOff(log: Log)
    requires Kept(log, Off)
    ensures OffSinceOn(log + [SawOff]) && (OffHeard(log) ==> OffHeard(log + [SawOff]))
  {
    hide OffBetween, HeardBetween;
    var l := log + [SawOff];
    Later(log, [SawOff]);
    forall i | SwitchOn(l, i)
      ensures OffBetween(l, i, |l|) || BlindRead(l, i, |l|)
    {
      OldSwitchOn(log, [SawOff], i);
      Earlier(log, [SawOff], i, |log|);
      Longer(l, i, |log|, |l|);
      assert l[|log|] == SawOff;
    }
  }

  /** Any other event keeps what is known about the state in memory. */
  lemma KeptStays(log: Log, e: Event, seen: Plug)
    requires Kept(log, seen) && !e.Reported?
    ensures Kept(log + [e], seen) && (Sure(log, seen) && !e.TurnedOn? ==> Sure(log + [e], seen))
  {
    hide OffBetween, OffHeard;
    var l := log + [e];
    if !e.TurnedOn? {
      Later(log, [e]);
    }
    forall i | SwitchOn(l, i)
      ensures i < |log| ==> SwitchOn(log, i)
      ensures i < |log| && OffBetween(log, i, |log|) ==> OffBetween(l, i, |l|)
      ensures HeardBetween(l, i, |l|) ==> i < |log| && HeardBetween(log, i, |log|)
    {
      Earlier(log, [e], i, |log|);
      Longer(l, i, |log|, |l|);
    }
  }

  /** A report replaces it. */
  lemma KeptReport(log: Log, p: Plug)
    ensures Kept(log + [Reported(p)], p) && Sure(log + [Reported(p)], p)
  {
    hide HeardBetween;
    var l := log + [Reported(p)];
    if p == Off {
      forall i | SwitchOn(l, i)
        ensures OffBetween(l, i, |l|)
      {
        assert l[|log|] == Reported(Off) && i < |log|;
      }
    }
  }

  // ---- the switch-ons of one request ----

  /** Whether a request keeps every switch-on covered is decided by its own messages when it deletes no run that was
      switched on before. */
  lemma OneRequest(log: Log, added: Log)
    requires Safe(log + added) && forall e :: e in added && e.Deleting? ==> NotOn(log, e.id)
    ensures AllSafe(log) ==> (AllSafe(log + added) <==> NoneBare(added))
  {
    hide Safe, AllSafe, OffBetween;
    var l := log + added;
    AllSafeExactly(l);
    if AllSafe(log) {
      forall i, j | SwitchOn(log, i) && 0 <= j < |added|
        ensures added[j] != Deleting(log[i].id)
      {
        assert added[j] in added;
        if added[j].Deleting? {
          NotOnAt(log, added[j].id);
        }
      }
      forall i, k | Bare(l, i, k)
        ensures Bare(added, i - |log|, k - |log|)
      {
        if k < |log| {
          Earlier(log, added, i, k);
          CoveredAt(log, i, k);
        } else {
          assert i < |log| ==> SwitchOn(log, i);
          assert l[k] == added[k - |log|];
          OffShift(log, added, i - |log|, k - |log|);
        }
      }
      forall i, k | Bare(added, i, k)
        ensures Bare(l, i + |log|, k + |log|)
      {
        OffShift(log, added, i, k);
      }
    }
  }

  lemma CoveredAt(log: Log, i: int, k: int)
    requires AllSafe(log) && Deletes(log, i, k)
    ensures OffBetween(log, i, k)
  {
    assert Covered(log, i);
  }

  lemma OffShift(log: Log, added: Log, i: int, k: int)
    requires 0 <= i
    ensures OffBetween(log + added, i + |log|, k + |log|) == OffBetween(added, i, k)
  {
    var l := log + added;
    if OffBetween(l, i + |log|, k + |log|) {
      var m :| 0 <= i + |log| < m < k + |log| && m < |l| && l[m] == Reported(Off);
      assert added[m - |log|] == Reported(Off);
    }
    if OffBetween(added, i, k) {
      var m :| 0 <= i < m < k && m < |added| && added[m] == Reported(Off);
      assert l[m + |log|] == Reported(Off);
    }
  }

  /** A request without deletions keeps every switch-on covered. */
  lemma QuietRequest(log: Log, added: Log)
    requires Safe(log + added) && NoDeletion(added)
    ensures NoneBare(added) && (AllSafe(log) ==> AllSafe(log + added))
  {
    hide Safe, AllSafe;
    assert forall e :: e in added && e.Deleting? ==> NotOn(log, e.id);
    OneRequest(log, added);
  }

  /** So does a deletion with the plug reported off since the last switch-on. */
  lemma HeardDeletion(log: Log, id: string)
    requires Safe(log + [Deleting(id)]) && OffHeard(log)
    ensures AllSafe(log) ==> AllSafe(log + [Deleting(id)])
  {
    hide Safe, AllSafe, OffBetween, BlindRead, Lost;
    var l := log + [Deleting(id)];
    AllSafeExactly(l);
    if AllSafe(log) {
      forall i, k
        ensures !Bare(l, i, k)
      {
        if Bare(l, i, k) {
          Earlier(log, [Deleting(id)], i, k);
          assert SwitchOn(log, i);
          if k < |log| {
            CoveredAt(log, i, k);
          }
        }
      }
    }
  }

  /** A request that switches nothing on and deletes only after an off was read withdraws nothing. */
  lemma NothingWithdrawn(log: Log, added: Log)
    requires Safe(log + added) && NoSwitchOn(added) && OnlyAfterOff(added)
    ensures AllSafe(log) ==> (AllSafe(log + added) <==> NoneBlind(log + added))
  {
    hide Safe, AllSafe, OffBetween, BlindRead;
    var l := log + added;
    AllSafeExactly(l);
    forall i, k | 0 <= i < |log| <= k < |l| && l[k].Deleting?
      ensures ReadBetween(l, i, k)
    {
      var m :| 0 <= m < k - |log| && added[m] == SawOff;
      assert l[m + |log|] == SawOff;
    }
    if AllSafe(log) {
      forall i, k
        ensures !Withdrawn(l, i, k)
      {
        if SwitchOn(l, i) && k < |log| && Deletes(l, i, k) {
          OldSwitchOn(log, added, i);
          Earlier(log, added, i, k);
          CoveredAt(log, i, k);
        } else if SwitchOn(l, i) {
          OldSwitchOn(log, added, i);
        }
      }
    }
  }

  // ---- the gateway ----

  /** How often the service was asked. */
  ghost function Asks(log: Log): nat {
    if log == [] then 0 else Asks(log[..|log| - 1]) + if log[|log| - 1].Asked? then 1 else 0
  }

  lemma {:induction false} NoAsk(log: Log, added: Log)
    requires OnlyReports(added)
    ensures Asks(log + added) == Asks(log)
  {
    if added == [] {
      assert log + added == log;
    } else {
      var n := |added| - 1;
      assert added[n] in added;
      assert (log + added)[..|log| + n] == log + added[..n];
      NoAsk(log, added[..n]);
    }
  }

  class Gateway {
    const mode: Mode
    const maySwitch: bool
    var now: real
    // what Home Assistant reported last, kept in memory
    var seen: Plug
    var stale: bool
    var lastSwitch: Option<real>
    var cache: Option<RunRow>
    var log: Log

    ghost predicate Valid()
      reads this
    {
      Safe(log) && Kept(log, seen)
    }

    constructor (mode: Mode, maySwitch: bool, now: real)
      ensures Valid() && log == [] && this.mode == mode && this.maySwitch == maySwitch
    {
      this.mode, this.maySwitch, this.now, seen, stale, lastSwitch, cache, log := mode, maySwitch, now, Gone, true, None, None, [];
    }

    /** One event that is not a report. */
    method Note(e: Event)
      requires Valid() && Ready(log, e) && !e.Reported?
      modifies this`log
      ensures Valid() && log == old(log) + [e]
      ensures old(Sure(log, seen)) && !e.TurnedOn? ==> Sure(log, seen)
    {
      hide Safe, Kept, Sure, Ready;
      SafeExtends(log, e);
      KeptStays(log, e, seen);
      log := log + [e];
    }

    /** Time passes, Home Assistant reports states, or the gateway stops. */
    method Await(least: real) returns (stop: bool, ghost added: Log)
      requires Valid() && least >= 0.0
      modifies this`now, this`seen, this`stale, this`log
      ensures Valid() && now >= old(now) + least
      ensures log == old(log) + added && OnlyReports(added)
      ensures old(Sure(log, seen)) ==> Sure(log, seen)
    {
      hide Safe, Kept, Sure;
      var passed: real := *;
      var reports: int := *;
      stale, stop := *, *;
      now := now + least + if passed > 0.0 then passed else 0.0;
      added := [];
      while reports > 0
        invariant now >= old(now) + least
        invariant Valid() && log == old(log) + added && OnlyReports(added)
        invariant old(Sure(log, seen)) ==> Sure(log, seen)
      {
        var state: Plug := *;
        SafeExtends(log, Reported(state));
        KeptReport(log, state);
        log, seen, added := log + [Reported(state)], state, added + [Reported(state)];
        reports := reports - 1;
      }
    }

    /** ha.state: the state reported last. */
    method See() returns (s: Plug, ghost added: Log)
      requires Valid()
      modifies this`log
      ensures Valid() && log == old(log) + added && s == seen && added == if s == Off then [SawOff] else []
      ensures s == Off ==> OffSinceOn(log) && (old(Sure(log, seen)) ==> OffHeard(log))
      ensures old(Sure(log, seen)) ==> Sure(log, seen)
    {
      hide Safe, Kept, OffSinceOn, OffHeard;
      s, added := seen, [];
      if s == Off {
        ReadOff(log);
        Note(SawOff);
        added := [SawOff];
      }
    }

    /** wait_state: the last state read, within the time allowed; asking Home Assistant now and then. */
    method WaitState(want: Plug) returns (s: Plug, stop: bool, ghost added: Log)
      requires Valid()
      modifies this`now, this`seen, this`stale, this`log
      ensures Valid() && log == old(log) + added && OnlyReading(added)
      ensures !stop ==> s == seen
      ensures s == Off && !stop ==> OffSinceOn(log) && SawOff in added && (old(Sure(log, seen)) ==> OffHeard(log))
      ensures old(Sure(log, seen)) ==> Sure(log, seen)
    {
      hide Safe, Kept, Sure, OffSinceOn, OffHeard, OnlyReading, OnlyReports;
      NothingYet("");
      var t0 := now;
      added := [];
      while true
        invariant Valid() && log == old(log) + added && OnlyReading(added)
        invariant old(Sure(log, seen)) ==> Sure(log, seen)
        invariant now >= t0
        decreases (t0 + CONFIRM - now) / READ_POLL
      {
        ghost var one;
        s, one := See();
        Joined(old(log), added, one);
        ReadingMore(added, one);
        added := added + one;
        if s == want || now - t0 >= CONFIRM {
          return s, false, added;
        }
        var ask: bool := *;
        if ask {
          stop, one := Await(0.0);
          Joined(old(log), added, one);
          ReadingMore(added, one);
          added := added + one;
          if stop {
            return;
          }
          s, one := See();
          Joined(old(log), added, one);
          ReadingMore(added, one);
          added := added + one;
          if s == want {
            return s, false, added;
          }
        }
        stop, one := Await(READ_POLL);
        Joined(old(log), added, one);
        ReadingMore(added, one);
        added := added + one;
        if stop {
          return;
        }
      }
    }

    /** active_runs: on an error of the service the cached answer is returned. */
    method ActiveRun() returns (run: Option<RunRow>, stop: bool, ghost added: Log)
      requires Valid()
      modifies this`now, this`seen, this`stale, this`cache, this`log
      ensures Valid() && log == old(log) + added && NoDeletion(added) && NoSwitchOn(added)
      ensures !stop ==> added != [] && added[|added| - 1] == Listed(Lasting(run, now))
      ensures old(Sure(log, seen)) ==> Sure(log, seen)
    {
      hide Safe, Kept, Sure;
      stop, added := Await(0.0);
      if stop {
        return None, true, added;
      }
      var reached: bool := *;
      if reached {
        cache := *;
      }
      run := cache;
      Note(Listed(Lasting(run, now)));
      Joined(old(log), added, [Listed(Lasting(run, now))]);
      added := added + [Listed(Lasting(run, now))];
    }

    /** DELETE of a run: any answer, the error being ignored by every caller. */
    method Delete(id: string) returns (stop: bool, ghost added: Log)
      requires Valid() && Ready(log, Deleting(id))
      modifies this`now, this`seen, this`stale, this`log, this`cache
      ensures Valid() && log == old(log) + added && |added| > 0 && added[0] == Deleting(id) && OnlyReports(added[1..])
      ensures old(Sure(log, seen)) ==> Sure(log, seen)
      ensures old(AllSafe(log) && OffHeard(log)) ==> AllSafe(log)
    {
      hide Safe, Kept, Sure, AllSafe, OffHeard, Ready;
      ghost var before := log;
      Note(Deleting(id));
      if OffHeard(before) {
        HeardDeletion(before, id);
      }
      ghost var more;
      stop, more := Await(0.0);
      added := [Deleting(id)] + more;
      QuietRequest(before + [Deleting(id)], more);
      assert added[1..] == more;
      var reached: bool := *;
      if reached {
        cache := None;
      }
    }

    /** _close_active_run: a run that is listed, with at least a second left, is deleted. */
    method CloseActiveRun() returns (stop: bool, ghost added: Log)
      requires Valid() && OffSinceOn(log)
      modifies this`now, this`seen, this`stale, this`log, this`cache
      ensures Valid() && OffSinceOn(log) && log == old(log) + added && NoSwitchOn(added)
      ensures !stop ==> Closes(added)
      ensures old(OffHeard(log)) ==> OffHeard(log)
      ensures old(AllSafe(log) && OffHeard(log)) ==> AllSafe(log)
      ensures old(Sure(log, seen)) ==> Sure(log, seen)
    {
      hide Safe, Kept, Sure, AllSafe, OffHeard, OffSinceOn;
      var run: Option<RunRow>;
      run, stop, added := ActiveRun();
      Later(old(log), added);
      assert log == old(log) + added;
      QuietRequest(old(log), added);
      assert !stop ==> Listed(Lasting(run, now)) in added;
      if !stop && run.Some? && run.value.ends - now >= 1.0 {
        ghost var more, before := [], log;
        stop, more := Delete(run.value.id);
        assert NoSwitchOn(more) by { DeletionOnly(more, run.value.id); }
        Later(before, more);
        added := added + more;
        assert more[0] in added;
      }
    }

    /** The call of turn_on or turn_off without a run, and the reading back. */
    method Flip(on: bool) returns (r: Outcome, ghost added: Log)
      requires Valid()
      modifies this`now, this`seen, this`stale, this`log
      ensures Valid() && log == old(log) + added && NoSwitchOn(added) && NoDeletion(added)
      ensures (r == Confirmed ==> seen == if on then On else Off) && (r == Unconfirmed ==> seen != if on then On else Off)
      ensures r.Refused? ==> r.error == HaFailed
      ensures !on && r == Confirmed ==> OffSinceOn(log) && SawOff in added && (old(Sure(log, seen)) ==> OffHeard(log))
      ensures old(Sure(log, seen)) ==> Sure(log, seen)
    {
      hide Safe, Kept, Sure, OffHeard, OffSinceOn;
      var done, answered: bool := *, *;
      var e := if on then PlainOn else TurnedOff;
      added := [];
      if done {
        Note(e);
        added := [e];
      }
      var stop;
      ghost var more;
      stop, more := Await(0.0);
      added := added + more;
      if stop {
        return Stopped, added;
      }
      if !answered {
        return Refused(HaFailed), added;
      }
      var obs: Plug;
      obs, stop, more := WaitState(if on then On else Off);
      added := added + more;
      return if stop then Stopped else if obs == if on then On else Off then Confirmed else Unconfirmed, added;
    }

    /** switch. A deletion here always follows a report of off that is newer than the switch-on: the early return for a
        plug that is off already deletes nothing. */
    method Switch(on: bool) returns (r: Outcome, ghost added: Log)
      requires Valid()
      modifies this`now, this`seen, this`stale, this`log, this`cache, this`lastSwitch
      ensures Valid() && log == old(log) + added && NoSwitchOn(added) && OnlyAfterOff(added)
      ensures var e := if !maySwitch then Some(NotAllowed) else if on && mode == Timed then Some(TimedOnly)
                       else if old(seen) == Gone then Some(Unavailable)
                       else if old(seen) != (if on then On else Off) && old(lastSwitch).Some? && old(now) - old(lastSwitch).value < 1.5
                       then Some(TooFast) else None;
              if e.Some? then r == Refused(e.value) && forall x :: x in added ==> x == SawOff else r.Refused? ==> r.error == HaFailed
      ensures maySwitch && !(on && mode == Timed) && old(seen) == (if on then On else Off) ==> r == Confirmed
      ensures on && mode == Timed ==> added == [] && r.Refused?
      ensures r == Confirmed && !on ==> OffSinceOn(log) && SawOff in added && (old(Sure(log, seen)) ==> OffHeard(log))
      ensures (r == Confirmed && on ==> seen == On) && (r == Unconfirmed ==> seen != if on then On else Off)
      ensures r != Confirmed && r != Stopped ==> NoDeletion(added)
      ensures r == Confirmed && !on && old(seen) != Off ==> Closes(added)
      ensures old(AllSafe(log)) ==> AllSafe(log)
    {
      hide Safe, Kept, OffSinceOn, OffHeard, AllSafe, NoDeletion, NoSwitchOn, OnlyAfterOff, Closes;
      added := [];
      Quiet(added);
      if !maySwitch {
        return Refused(NotAllowed), added;
      }
      if on && mode == Timed {
        return Refused(TimedOnly), added;
      }
      var cur;
      cur, added := See();
      Quiet(added);
      assert log == old(log) + added;
      QuietRequest(old(log), added);
      if cur == Gone {
        return Refused(Unavailable), added;
      }
      if cur == if on then On else Off {
        return Confirmed, added;
      }
      if lastSwitch.Some? && now - lastSwitch.value < DEBOUNCE {
        return Refused(TooFast), added;
      }
      lastSwitch := Some(now);
      ghost var more;
      r, more := Flip(on);
      Both(added, more);
      added := added + more;
      assert log == old(log) + added;
      QuietRequest(old(log), added);
      if r == Confirmed && !on {
        var stop: bool;
        stop, more := CloseActiveRun();
        AfterOff(added, more);
        if !stop {
          ClosesLater(added, more);
        }
        added := added + more;
        if stop {
          return Stopped, added;
        }
      }
    }

    /** _wait_armed: asks until the service reports the run armed, or over, or the time is up; an error of the service ends it. */
    method WaitArmed(id: string) returns (r: Result<bool, Error>, stop: bool, ghost added: Log)
      requires Valid()
      modifies this`now, this`seen, this`stale, this`log
      ensures Valid() && log == old(log) + added && (Asking(added, id) || EndsArmed(added, id))
      ensures if !stop && r == Ok(true) then EndsArmed(added, id) else Asking(added, id)
      ensures Asks(added) <= 61
    {
      hide Safe, Kept, Sure, Asks, Asking, OnlyReports, EndsArmed, OffSinceOn, OnlyLost;
      NothingYet(id);
      var t0 := now;
      r, stop, added := Ok(false), false, [];
      while true
        invariant Valid() && log == old(log) + added && Asking(added, id)
        invariant Asks(added) as real <= now - t0 && (Asks(added) > 0 ==> (Asks(added) - 1) as real < ARM_WAIT)
        decreases t0 + ARM_WAIT + 1.0 - now
      {
        ghost var more;
        Note(Asked(id));
        AskMore(added, Asked(id));
        Joined(old(log), added, [Asked(id)]);
        AskingMore(added, [Asked(id)], id);
        added := added + [Asked(id)];
        stop, more := Await(0.0);
        NoAsk(added, more);
        Joined(old(log), added, more);
        AskingMore(added, more, id);
        added := added + more;
        var reached, active, armed: bool := *, *, *;
        if stop || !reached {
          return Err(Service), stop, added;
        }
        if armed {
          Note(Armed(id));
          Joined(old(log), added, [Armed(id)]);
          AskMore(added, Armed(id));
          ArmedEnd(added, id);
          return Ok(true), false, added + [Armed(id)];
        }
        if !active || now - t0 >= ARM_WAIT {
          return Ok(false), false, added;
        }
        stop, more := Await(ARM_POLL);
        NoAsk(added, more);
        Joined(old(log), added, more);
        AskingMore(added, more, id);
        added := added + more;
        if stop {
          return;
        }
      }
    }

    /** POST of a run. The service gives every run an id of its own. */
    method Post() returns (run: Option<RunRow>, stop: bool, ghost added: Log)
      requires Valid()
      modifies this`now, this`seen, this`stale, this`log, this`cache
      ensures Valid() && log == old(log) + added
      ensures forall e :: e in added ==> e.Accepted? || e.Reported?
      ensures run.Some? ==> Unused(log, run.value.id) && Accepted(run.value.id) in added
    {
      hide Safe, Kept, Sure;
      var row: RunRow := *;
      var taken: bool := *;
      run, added := None, [];
      if taken && Unused(log, row.id) {
        Note(Accepted(row.id));
        run, added := Some(row), [Accepted(row.id)];
        cache := None;
      }
      ghost var more;
      stop, more := Await(0.0);
      added := added + more;
    }

    /** turn_on for an armed run, and the reading back; when the call fails the run is withdrawn. */
    method TurnOn(id: string) returns (r: Outcome, ghost added: Log)
      requires Valid() && Armed(id) in log && Unused(log, id)
      modifies this`now, this`seen, this`stale, this`log, this`cache
      ensures Valid() && log == old(log) + added && OnlyOf(added, id)
      ensures r == Confirmed || r == Unconfirmed ==> TurnedOn(id, true) in added && NoDeletion(added)
      ensures r.Refused? ==> r.error == HaFailed && TurnedOn(id, true) !in added && Deleting(id) in added
      ensures (r == Confirmed ==> seen == On) && (r == Unconfirmed ==> seen != On)
      ensures LostOnly(added, id)
      ensures old(AllSafe(log)) ==> (AllSafe(log) <==> NoneBare(added))
    {
      hide Safe, Kept, Sure, Ready, OnlyLost, NoneBare, AllSafe, OffSinceOn, NotOn;
      ghost var before, more := log, [];
      LostNow(before, id);
      var done, answered: bool := *, *;
      added := [];
      if done || answered {
        MayTurnOn(log, id, answered);
        Note(TurnedOn(id, answered));
        added := [TurnedOn(id, answered)];
      }
      var stop;
      stop, more := Await(0.0);
      if !stop && !answered {
        assert before + [] == before;
        assert log == before + added + more;
        LostStays(before + added, more, id);
        MayWithdraw(log, id);
        added := added + more;
        stop, more := Delete(id);
        added := added + more;
        DeletionOnly(more, id);
        LostShape(added, id, done);
        assert log == before + added;
        OneRequest(before, added);
        return if stop then Stopped else Refused(HaFailed), added;
      }
      added := added + more;
      assert log == before + added;
      QuietRequest(before, added);
      if stop {
        return Stopped, added;
      }
      var obs: Plug;
      obs, stop, more := WaitState(On);
      added := added + more;
      assert log == before + added;
      QuietRequest(before, added);
      return if stop then Stopped else if obs == On then Confirmed else Unconfirmed, added;
    }

    /** start_run once the service has accepted the run: wait until it is armed, then switch on. */
    method Launch(id: string) returns (r: Outcome, ghost added: Log)
      requires Valid() && Unused(log, id)
      modifies this`now, this`seen, this`stale, this`log, this`cache
      ensures Valid() && log == old(log) + added && OnlyOf(added, id)
      ensures r == Confirmed || r == Unconfirmed ==> Armed(id) in added && TurnedOn(id, true) in added && Deleting(id) !in added
      ensures r.Refused? ==> r.error in {Service, NotArmed, HaFailed} && (r.error != HaFailed ==> Armed(id) !in added)
      ensures r.Refused? && r.error != HaFailed ==> NoSwitchOn(added)
      ensures r == Refused(NotArmed) || r == Refused(HaFailed) ==> Deleting(id) in added && TurnedOn(id, true) !in added
      ensures (r == Confirmed ==> seen == On) && (r == Unconfirmed ==> seen != On)
      ensures LostOnly(added, id)
      ensures old(AllSafe(log)) ==> (AllSafe(log) <==> NoneBare(added))
    {
      hide Safe, Kept, Sure, Ready, OnlyLost, NoneBare, AllSafe, Unused, OffSinceOn, Asking, EndsArmed, Asks;
      ghost var before, asked, more := log, [], [];
      var armed: Result<bool, Error>;
      var stop: bool;
      armed, stop, asked := WaitArmed(id);
      AskingQuiet(asked, id);
      added := asked;
      UnusedStays(before, id, asked);
      assert log == before + asked;
      QuietRequest(before, asked);
      if stop || armed.Err? {
        return if stop then Stopped else Refused(Service), added;
      }
      if !armed.value {
        LostNow(log, id);
        MayWithdraw(log, id);
        stop, more := Delete(id);
        DeletionOnly(more, id);
        BareTail([], more);
        r := if stop then Stopped else Refused(NotArmed);
      } else {
        r, more := TurnOn(id);
      }
      BareTail(asked, more);
      added := asked + more;
      assert log == before + added;
      UnusedNotOn(before, id);
      OneRequest(before, added);
    }

    /** start_run */
    method StartRun() returns (r: Outcome, ghost id: string, ghost added: Log)
      requires Valid()
      modifies this`now, this`seen, this`stale, this`log, this`cache, this`lastSwitch
      ensures Valid() && log == old(log) + added && OnlyOf(added, id)
      ensures var e := if !maySwitch then Some(NotAllowed) else if old(stale) then Some(Stale)
                       else if old(seen) == Gone then Some(Unavailable) else if old(seen) == On then Some(AlreadyOn)
                       else if old(lastSwitch).Some? && old(now) - old(lastSwitch).value < 1.5 then Some(TooFast) else None;
              if e.Some? then r == Refused(e.value) && Accepted(id) !in added
              else r.Refused? ==> r.error in {Service, NotArmed, HaFailed}
      ensures r == Refused(Service) || r == Refused(NotArmed) ==> Armed(id) !in added
      ensures r == Confirmed || r == Unconfirmed ==> Armed(id) in added && TurnedOn(id, true) in added && Deleting(id) !in log
      ensures r.Refused? && r.error != HaFailed ==> NoSwitchOn(added)
      ensures r == Refused(NotArmed) || r == Refused(HaFailed) ==> Deleting(id) in added && TurnedOn(id, true) !in log
      ensures (r == Confirmed ==> seen == On) && (r == Unconfirmed ==> seen != On)
      ensures LostOnly(added, id)
      ensures old(AllSafe(log)) ==> (AllSafe(log) <==> NoneBare(added))
    {
      hide Safe, Kept, Sure, NoneBare, AllSafe, Unused, OffSinceOn, OffHeard, LostOnly;
      id, added := "", [];
      assert log + added == log;
      QuietRequest(log, added);
      QuietLost(added, id);
      if !maySwitch {
        return Refused(NotAllowed), id, added;
      }
      if stale {
        return Refused(Stale), id, added;
      }
      var cur;
      cur, added := See();
      assert log == old(log) + added;
      QuietRequest(old(log), added);
      QuietLost(added, id);
      if cur == Gone {
        return Refused(Unavailable), id, added;
      }
      if cur != Off {
        return Refused(AlreadyOn), id, added;
      }
      if lastSwitch.Some? && now - lastSwitch.value < DEBOUNCE {
        return Refused(TooFast), id, added;
      }
      var run: Option<RunRow>;
      var stop: bool;
      ghost var asked, more;
      run, stop, more := Post();
      Joined(old(log), added, more);
      asked := added + more;
      added := asked;
      id := if run.Some? then run.value.id else id;
      assert log == old(log) + asked;
      QuietRequest(old(log), asked);
      QuietLost(asked, id);
      if stop || run.None? {
        return if stop then Stopped else Refused(Service), id, added;
      }
      lastSwitch := Some(now);
      assert log == old(log) + asked;
      UnusedBefore(old(log), asked, id);
      r, more := Launch(run.value.id);
      LostTail(asked, more, id);
      Joined(old(log), asked, more);
      added := asked + more;
      assert log == old(log) + added;
      OneRequest(old(log), added);
      if r == Confirmed || r == Unconfirmed {
        cache := None;
      }
    }

    /** end_run. Its deletion may rest on an off that is older than the switch-on: switch returns early for a plug that it
        takes for off already. */
    method EndRun() returns (r: Outcome, ghost added: Log)
      requires Valid()
      modifies this`now, this`seen, this`stale, this`log, this`cache, this`lastSwitch
      ensures Valid() && log == old(log) + added && NoSwitchOn(added) && OnlyAfterOff(added)
      ensures r == Refused(NoRun) ==> maySwitch && Listed(None) in added
      ensures r == Refused(NotAllowed) <==> !maySwitch
      ensures r == Confirmed ==> SawOff in added
      ensures r != Confirmed && r != Stopped ==> NoDeletion(added)
      ensures r == Confirmed ==> Closes(added)
      ensures old(AllSafe(log)) ==> (AllSafe(log) <==> NoneBlind(log))
      ensures old(AllSafe(log) && Sure(log, seen)) ==> AllSafe(log)
    {
      hide Safe, Kept, Sure, OffSinceOn, OffHeard, AllSafe, NoneBlind, Closes;
      added := [];
      assert log == old(log) + added;
      NothingWithdrawn(old(log), added);
      if !maySwitch {
        return Refused(NotAllowed), added;
      }
      var run: Option<RunRow>;
      var stop: bool;
      ghost var more;
      run, stop, added := ActiveRun();
      assert log == old(log) + added;
      QuietRequest(old(log), added);
      assert log == old(log) + added;
      NothingWithdrawn(old(log), added);
      if stop {
        return Stopped, added;
      }
      if run.None? || run.value.ends - now < 1.0 {
        return Refused(NoRun), added;
      }
      r, more := Switch(false);
      AfterListing(added, more);
      added := added + more;
      if r == Confirmed {
        stop, more := CloseActiveRun();
        AfterOff(added, more);
        if !stop {
          ClosesLater(added, more);
        }
        added := added + more;
        if stop {
          assert log == old(log) + added;
          NothingWithdrawn(old(log), added);
          return Stopped, added;
        }
      }
      assert log == old(log) + added;
      NothingWithdrawn(old(log), added);
      if r != Stopped {
        cache := None;
      }
    }

    /** The gateway starts again: what it kept in memory is gone. */
    method Restart()
      requires Valid()
      modifies this`seen, this`stale, this`lastSwitch, this`cache
      ensures Valid()
    {
      seen, stale, lastSwitch, cache := Gone, true, None, None;
    }

    /** Any number of requests, one at a time, with the gateway stopping anywhere. */
    method Serve(requests: nat)
      requires Valid()
      modifies this
      ensures Valid() && old(log) <= log
      ensures AllSafe(log) <==> NoneWithdrawn(log) && NoneBlind(log)
    {
      hide Safe, Kept, Sure, AllSafe, NoneWithdrawn, NoneBlind, NoneBare, OffSinceOn, OffHeard;
      for i := 0 to requests
        invariant Valid() && old(log) <= log
      {
        var which: int := *;
        var stop: bool := false;
        var r: Outcome := Confirmed;
        ghost var added, id;
        if which == 0 {
          r, id, added := StartRun();
        } else if which == 1 {
          r, added := EndRun();
        } else if which == 2 {
          r, added := Switch(true);
        } else if which == 3 {
          r, added := Switch(false);
        } else {
          stop, added := Await(0.0);
        }
        if stop || r == Stopped {
          Restart();
        }
      }
      AllSafeExactly(log);
    }
  }

  lemma {:induction false} AskMore(log: Log, e: Event)
    ensures Asks(log + [e]) == Asks(log) + if e.Asked? then 1 else 0
  {
    assert (log + [e])[..|log|] == log;
  }

  /** Asking for a run, and what is reported meanwhile. */
  ghost predicate Asking(added: Log, id: string) {
    forall e :: e in added ==> e == Asked(id) || e.Reported?
  }

  ghost predicate EndsArmed(added: Log, id: string) {
    |added| > 0 && added[|added| - 1] == Armed(id) && Asking(added[..|added| - 1], id)
  }

  lemma Joined(a: Log, b: Log, c: Log)
    ensures a + b + c == a + (b + c)
  {
  }

  lemma NothingYet(id: string)
    ensures OnlyReading([]) && Asking([], id) && Asks([]) == 0
  {
  }

  lemma UnusedNotOn(log: Log, id: string)
    requires Unused(log, id)
    ensures NotOn(log, id)
  {
  }

  lemma AskingMore(a: Log, b: Log, id: string)
    requires a == [] || Asking(a, id)
    requires b == [] || b == [Asked(id)] || OnlyReports(b)
    ensures Asking(a + b, id)
  {
  }

  lemma ArmedEnd(added: Log, id: string)
    requires Asking(added, id)
    ensures EndsArmed(added + [Armed(id)], id)
  {
    assert (added + [Armed(id)])[..|added|] == added;
  }

  lemma AskingQuiet(added: Log, id: string)
    requires Asking(added, id) || EndsArmed(added, id)
    ensures NoSwitchOn(added) && NoDeletion(added) && OnlyOf(added, id)
    ensures EndsArmed(added, id) ==> Armed(id) in added
    ensures Asking(added, id) ==> Armed(id) !in added
  {
    if EndsArmed(added, id) {
      assert added == added[..|added| - 1] + [Armed(id)];
    }
  }

  lemma ReadingMore(a: Log, b: Log)
    requires a == [] || OnlyReading(a)
    requires b == [] || b == [SawOff] || OnlyReports(b)
    ensures OnlyReading(a + b)
  {
  }

  /** The id of a run that has at least a second left. */
  function Lasting(run: Option<RunRow>, now: real): Option<string> {
    if run.Some? && run.value.ends - now >= 1.0 then Some(run.value.id) else None
  }

  /** The device's run was listed, and if there was one, it was deleted. */
  ghost predicate Closes(added: Log) {
    exists active :: Listed(active) in added && (active.Some? ==> Deleting(active.value) in added)
  }

  lemma ClosesLater(a: Log, b: Log)
    requires Closes(b)
    ensures Closes(a + b)
  {
    var active :| Listed(active) in b && (active.Some? ==> Deleting(active.value) in b);
    assert Listed(active) in a + b;
  }

  ghost predicate OnlyReading(added: Log) {
    forall e :: e in added ==> e == SawOff || e.Reported?
  }

  /** A request that switches on or deletes no other run. */
  ghost predicate OnlyOf(added: Log, id: string) {
    forall e :: e in added && (e.TurnedOn? || e.Deleting?) ==> e.id == id
  }

  /** Only a request that lost an answer and withdrew its run leaves a bare deletion, and it does so when the plug was not
      reported off on the way. */
  ghost predicate LostOnly(added: Log, id: string) {
    && (!NoneBare(added) ==> TurnedOn(id, false) in added && Deleting(id) in added)
    && (TurnedOn(id, false) in added && Deleting(id) in added && Reported(Off) !in added ==> !NoneBare(added))
  }

  lemma MayTurnOn(log: Log, id: string, answered: bool)
    requires Armed(id) in log && Unused(log, id)
    ensures Ready(log, TurnedOn(id, answered))
  {
  }

  lemma MayWithdraw(log: Log, id: string)
    requires OnlyLost(log, id)
    ensures Ready(log, Deleting(id))
  {
  }

  lemma DeletionOnly(added: Log, id: string)
    requires |added| > 0 && added[0] == Deleting(id) && OnlyReports(added[1..])
    ensures NoSwitchOn(added) && OnlyOf(added, id) && Deleting(id) in added && Armed(id) !in added
  {
    assert forall e :: e in added ==> e == added[0] || e in added[1..];
  }

  lemma NoSwitchOnAt(added: Log)
    requires NoSwitchOn(added)
    ensures forall i :: !SwitchOn(added, i)
  {
    forall i | 0 <= i < |added|
      ensures !added[i].TurnedOn?
    {
      assert added[i] in added;
    }
  }

  /** Events before the first switch-on leave nothing bare. */
  lemma BareTail(a: Log, b: Log)
    requires NoSwitchOn(a)
    ensures NoneBare(a + b) <==> NoneBare(b)
    ensures NoSwitchOn(b) ==> NoneBare(b)
  {
    hide OffBetween;
    NoSwitchOnAt(a);
    var l := a + b;
    forall i, k
      ensures 0 <= i ==> Bare(l, i + |a|, k + |a|) == Bare(b, i, k)
    {
      if 0 <= i {
        OffShift(a, b, i, k);
      }
    }
    if NoneBare(b) {
      forall i, k
        ensures !Bare(l, i, k)
      {
        assert SwitchOn(l, i) && i < |a| ==> SwitchOn(a, i);
        assert i >= |a| ==> Bare(l, i, k) == Bare(b, i - |a|, k - |a|);
      }
    }
    if NoneBare(l) {
      forall i, k
        ensures !Bare(b, i, k)
      {
        assert !Bare(l, i + |a|, k + |a|);
      }
    }
    if NoSwitchOn(b) {
      NoSwitchOnAt(b);
    }
  }

  /** The messages of a turn_on without an answer, and of the withdrawal. */
  lemma LostShape(added: Log, id: string, done: bool)
    requires |added| > 0 && OnlyOf(added, id) && Deleting(id) in added && TurnedOn(id, true) !in added
    requires if done then added[0] == TurnedOn(id, false) else NoSwitchOn(added)
    ensures LostOnly(added, id)
  {
    if done {
      var k :| 0 <= k < |added| && added[k] == Deleting(id);
      if Reported(Off) !in added {
        assert Bare(added, 0, k);
      }
    } else {
      BareTail([], added);
    }
  }

  lemma QuietLost(added: Log, id: string)
    requires NoSwitchOn(added) && NoDeletion(added)
    ensures LostOnly(added, id)
  {
    BareTail([], added);
    assert [] + added == added;
  }

  lemma LostTail(a: Log, b: Log, id: string)
    requires NoSwitchOn(a) && NoDeletion(a) && LostOnly(b, id)
    ensures LostOnly(a + b, id)
  {
    BareTail(a, b);
  }

  lemma UnusedStays(log: Log, id: string, added: Log)
    requires Unused(log, id) && NoSwitchOn(added) && NoDeletion(added)
    ensures Unused(log + added, id)
  {
  }

  lemma UnusedBefore(log: Log, added: Log, id: string)
    requires Unused(log + added, id)
    ensures Unused(log, id)
  {
  }

  lemma Quiet(added: Log)
    requires added == [] || added == [SawOff]
    ensures NoSwitchOn(added) && NoDeletion(added) && OnlyAfterOff(added)
  {
  }

  lemma Both(a: Log, b: Log)
    requires NoDeletion(a) && NoDeletion(b) && NoSwitchOn(a) && NoSwitchOn(b)
    ensures NoDeletion(a + b) && NoSwitchOn(a + b) && OnlyAfterOff(a + b)
  {
  }

  lemma AfterListing(reports: Log, added: Log)
    requires NoDeletion(reports) && NoSwitchOn(reports) && OnlyAfterOff(added) && NoSwitchOn(added)
    ensures OnlyAfterOff(reports + added) && NoSwitchOn(reports + added)
    ensures NoDeletion(added) ==> NoDeletion(reports + added)
  {
    var l := reports + added;
    forall k | 0 <= k < |reports|
      ensures !reports[k].Deleting?
    {
      assert reports[k] in reports;
    }
    forall k | 0 <= k < |l| && l[k].Deleting?
      ensures SawOff in l[..k]
    {
      assert l[..k] == reports + added[..k - |reports|];
    }
  }

  lemma AfterOff(added: Log, closing: Log)
    requires SawOff in added && OnlyAfterOff(added) && NoSwitchOn(added) && NoSwitchOn(closing)
    ensures OnlyAfterOff(added + closing) && NoSwitchOn(added + closing)
  {
    forall k | 0 <= k < |added + closing| && (added + closing)[k].Deleting?
      ensures SawOff in (added + closing)[..k]
    {
      if k < |added| {
        assert (added + closing)[..k] == added[..k];
      } else {
        assert (added + closing)[..|added|] == added;
        assert (added + closing)[..k] == added + closing[..k - |added|];
      }
    }
  }


  // ---- when all goes well, and when not ----

  /** No off is read that is older than a switch-on. */
  ghost predicate NoOldOff(log: Log) {
    forall i, m :: SwitchOn(log, i) && i < m < |log| && log[m] == SawOff ==> HeardBetween(log, i, m)
  }

  /** With every answer of turn_on received, and reports keeping up, every switch-on is covered. */
  lemma NothingLost(log: Log)
    requires Safe(log) && (forall e :: e in log && e.TurnedOn? ==> e.answered) && NoOldOff(log)
    ensures AllSafe(log)
  {
    hide Safe, AllSafe, OffBetween, HeardBetween, ReadBetween;
    AllSafeExactly(log);
    forall i, k
      ensures !Withdrawn(log, i, k) && !Blind(log, i, k)
    {
      if SwitchOn(log, i) {
        assert log[i] in log;
      }
    }
  }

  /** The state reported last. */
  ghost function LastReport(log: Log): Plug {
    if log == [] then Gone
    else if log[|log| - 1].Reported? then log[|log| - 1].state
    else LastReport(log[..|log| - 1])
  }

  /** Every event is one that the gateway may send or receive at its place. */
  ghost predicate Possible(log: Log) {
    forall n :: 0 <= n < |log| ==> Follows(log[..n], log[n])
  }

  ghost predicate Follows(log: Log, e: Event) {
    Ready(log, e) && (e == SawOff ==> LastReport(log) == Off)
  }

  lemma OneMore(log: Log, e: Event)
    requires Safe(log) && Possible(log) && Follows(log, e)
    ensures Safe(log + [e]) && Possible(log + [e])
    ensures LastReport(log + [e]) == if e.Reported? then e.state else LastReport(log)
  {
    SafeExtends(log, e);
    hide Safe, Ready;
    var l := log + [e];
    assert l[..|log|] == log;
    forall n | 0 <= n < |log|
      ensures l[..n] == log[..n] && l[n] == log[n]
    {
    }
  }

  function Started(id: string): Log {
    [Reported(Off), SawOff, Accepted(id), Asked(id), Armed(id)]
  }

  lemma NothingFine()
    ensures Safe([]) && Possible([])
  {
  }

  lemma StartedFine(id: string)
    ensures Safe(Started(id)) && Possible(Started(id)) && LastReport(Started(id)) == Off
  {
    hide Safe, Possible, LastReport, OnlyLost, OffSinceOn;
    NothingFine();
    OneMore([], Reported(Off));
    OneMore([] + [Reported(Off)], SawOff);
    OneMore([] + [Reported(Off)] + [SawOff], Accepted(id));
    OneMore([] + [Reported(Off)] + [SawOff] + [Accepted(id)], Asked(id));
    OneMore([] + [Reported(Off)] + [SawOff] + [Accepted(id)] + [Asked(id)], Armed(id));
    assert Started(id) == [] + [Reported(Off)] + [SawOff] + [Accepted(id)] + [Asked(id)] + [Armed(id)];
  }

  lemma StartedPossible(id: string, answered: bool)
    ensures var on := Started(id) + [TurnedOn(id, answered)];
            Safe(on) && Possible(on) && LastReport(on) == Off && NotOn(Started(id), id)
  {
    StartedFine(id);
    hide Safe, Possible, LastReport;
    assert Armed(id) == Started(id)[4];
    OneMore(Started(id), TurnedOn(id, answered));
  }

  lemma WithdrawnNext(log: Log, id: string)
    ensures Withdrawn(log + [TurnedOn(id, false), Deleting(id)], |log|, |log| + 1)
  {
  }

  /** A start_run whose turn_on was carried out while its answer was lost: its run is deleted with the plug on. */
  lemma LostAnswer(id: string)
    ensures var l := Started(id) + [TurnedOn(id, false), Deleting(id)];
            Possible(l) && Safe(l) && Withdrawn(l, 5, 6) && !AllSafe(l)
  {
    var on := Started(id) + [TurnedOn(id, false)];
    var l := Started(id) + [TurnedOn(id, false), Deleting(id)];
    assert l == on + [Deleting(id)];
    StartedPossible(id, false);
    LostNow(Started(id), id);
    hide Safe, Possible, AllSafe, OnlyLost, LastReport;
    OneMore(on, Deleting(id));
    AllSafeExactly(l);
    WithdrawnNext(Started(id), id);
  }

  /** A start_run that is unconfirmed because Home Assistant reports nothing after the switch-on, and an end_run that takes
      the plug for off on the strength of what was reported before: its run is deleted with the plug on. */
  lemma StaleOff(id: string)
    ensures var l := Started(id) + [TurnedOn(id, true), SawOff, SawOff, Deleting(id)];
            Possible(l) && Safe(l) && Blind(l, 5, 8) && !AllSafe(l)
  {
    hide Safe, Possible, AllSafe, OffSinceOn, NoneWithdrawn;
    var on := Started(id) + [TurnedOn(id, true)];
    var l := Started(id) + [TurnedOn(id, true), SawOff, SawOff, Deleting(id)];
    assert l == on + [SawOff] + [SawOff] + [Deleting(id)];
    StartedPossible(id, true);
    OneMore(on, SawOff);
    ReadOff(on);
    OneMore(on + [SawOff], SawOff);
    Later(on + [SawOff], [SawOff]);
    OneMore(on + [SawOff] + [SawOff], Deleting(id));
    assert BlindRead(l, 5, 8) by {
      assert l[6] == SawOff && !HeardBetween(l, 5, 6);
    }
    assert Blind(l, 5, 8);
    AllSafeExactly(l);
  }
}
