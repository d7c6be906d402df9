/** The safety net around changes of the DNS filter lists (portal/gateway/gw/filterlists.py): snapshot, apply, probe,
    revert, and recovery of a change that was running when the gateway stopped. AdGuard, the probes and the process
    are the environment: every call may fail, may fail after it took effect, or may be the last thing the process does. */
module FilterChanges {
  import opened Wrappers
  import opened FilterDiff

  datatype StepName = Validate | Apply | Probe | Replica | Parity | Internal | Revert | ProbeAfterRevert | Hold

  datatype Step = Step(name: StepName, ok: bool)

  datatype Status = Running | Applied | Reverted | Failed | OnHold

  datatype Action = AddList | RemoveList | EnableList | DisableList | RenameList | RefreshLists | RevertList

  /** A row of filter_changes. */
  datatype Row = Row(action: Action, listId: Option<int>, result: Status, steps: seq<Step>, snapshot: seq<FList>)

  /** How a call to AdGuard ends: with an answer, with an AdGuard error, with any other exception (a broken answer, a
      malformed DNS reply), or with the process. */
  datatype Outcome = Done | Refused | Raised | Stopped

  /** How a change ends. Busy and Unreachable leave no row behind; Died is the process stopping somewhere on the way;
      Escaped is an exception that the restore does not catch, which leaves the row running and the process up. */
  datatype Ending = Busy | Unreachable | Died | Escaped | Ended(result: Status)

  /** What the environment answered: a measurement before the change, a reading of AdGuard's lists, an operation on them, or
      a check with its verdict. */
  datatype Call =
    | Measured(o: Outcome)
    | Read(o: Outcome)
    | Operated(op: Op, o: Outcome)
    | Checked(what: StepName, o: Outcome, passed: bool)

  predicate Fine(c: Call) {
    c.o == Done && (c.Checked? ==> c.passed)
  }

  predicate AllFine(calls: seq<Call>) {
    forall c :: c in calls ==> Fine(c)
  }

  /** The first call that was not fine is the last one. */
  predicate Spoiled(calls: seq<Call>) {
    calls != [] && AllFine(calls[..|calls| - 1]) && !Fine(calls[|calls| - 1])
  }

  /** AdGuard answered every call, whatever the checks said. */
  predicate Untroubled(calls: seq<Call>) {
    forall c :: c in calls && !c.Checked? ==> c.o == Done
  }

  function AllDone(ops: seq<Op>): (r: seq<Call>)
    ensures |r| == |ops| && forall i :: 0 <= i < |r| ==> r[i] == Operated(ops[i], Done)
  {
    seq(|ops|, i requires 0 <= i < |ops| => Operated(ops[i], Done))
  }

  function GoodChecks(waitParity: bool): seq<Call> {
    [Checked(Probe, Done, true), Checked(Replica, Done, true)] + (if waitParity then [Checked(Parity, Done, true)] else [])
  }

  /** The calls of a pipeline in which nothing goes wrong. */
  function Good(ops: seq<Op>, waitParity: bool): seq<Call> {
    [Measured(Done)] + AllDone(ops) + GoodChecks(waitParity)
  }

  /** What is answered during a change, against how it ends. A change is applied exactly when every call was fine. One that
      comes back says whether AdGuard answered everything after the first call that was not. */
  ghost predicate Answered(made: seq<Call>, ops: seq<Op>, waitParity: bool, e: Ending, steps: seq<Step>) {
    match e
    case Busy => made == []
    case Unreachable => made == [Read(Refused)] || made == [Read(Raised)]
    case Died => made != [] && made[|made| - 1].o == Stopped
    case Escaped => made != [] && made[|made| - 1].o == Raised && exists n :: SpoiledAt(made, n) && n < |made|
    case Ended(result) =>
      && (result == Applied <==> made == [Read(Done)] + Good(ops, waitParity))
      && (result == Reverted ==> exists n :: SpoiledAt(made, n) && (Restored(steps) <==> Untroubled(made[n..])))
  }

  /** The first trouble is in place n - 1. */
  ghost predicate SpoiledAt(made: seq<Call>, n: int) {
    0 <= n <= |made| && Spoiled(made[..n])
  }

  predicate AllOk(steps: seq<Step>) {
    forall i :: 0 <= i < |steps| ==> steps[i].ok
  }

  /** The change came back through a restore whose every operation was accepted. */
  predicate Restored(steps: seq<Step>) {
    Step(Revert, true) in steps
  }

  /** The state outside the process. origin records, for every row begun by a change, the lists at that moment; rows of
      held refreshes are not in it. */
  datatype Store = Store(lists: Lists, rows: seq<Row>, origin: map<nat, Lists>)

  /** The snapshot of a change's row is the state it began in; a held refresh stores an empty snapshot. */
  ghost predicate Sane(s: Store) {
    && (forall i :: i in s.origin ==> i < |s.rows| && Unique(s.rows[i].snapshot) && MapOf(s.rows[i].snapshot) == s.origin[i])
    && (forall i :: 0 <= i < |s.rows| && i !in s.origin ==> s.rows[i].snapshot == [])
  }

  ghost predicate IsRunning(s: Store, i: int) {
    0 <= i < |s.rows| && s.rows[i].result == Running
  }

  /** Nothing but the row cid changed, except that other requests may have added held refreshes. */
  ghost predicate OthersKept(a: Store, b: Store, cid: int, alive: bool) {
    && |a.rows| <= |b.rows|
    && (forall i :: 0 <= i < |a.rows| && i != cid ==> b.rows[i] == a.rows[i])
    && (forall i :: |a.rows| <= i < |b.rows| && i != cid ==> b.rows[i].result == if alive then OnHold else b.rows[i].result)
    && (forall i :: i in b.origin && i != cid ==> i in a.origin && b.origin[i] == a.origin[i])
    && (forall i :: i in a.origin && i != cid ==> i in b.origin)
  }

  /** The steps of a change that is applied: what was validated, then every check of the pipeline, all passed. */
  function Passed(validated: seq<Step>, waitParity: bool): seq<Step> {
    validated + [Step(Apply, true)] + PassedChecks(waitParity)
  }

  function PassedChecks(waitParity: bool): seq<Step> {
    [Step(Probe, true), Step(Replica, true)] + (if waitParity then [Step(Parity, true)] else [])
  }

  /** What a change does to the store; passed is the list of steps that counts as success. */
  ghost predicate ChangeRel(a: Store, b: Store, ops: seq<Op>, passed: seq<Step>, e: Ending, cid: int) {
    match e
    case Busy => b.lists == a.lists && OthersKept(a, b, -1, true)
    case Unreachable => b.lists == a.lists && OthersKept(a, b, -1, true)
    case Died =>
      || (cid == -1 && b.lists == a.lists && OthersKept(a, b, -1, false))
      || (Begun(a, b, cid) && OthersKept(a, b, cid, false) && b.rows[cid].result == Running)
    case Escaped => Begun(a, b, cid) && OthersKept(a, b, cid, true) && b.rows[cid].result == Running
    case Ended(result) =>
      && Begun(a, b, cid)
      && OthersKept(a, b, cid, true)
      && b.rows[cid].result == result
      && (if result == Applied
          then b.rows[cid].steps == passed && AllOk(passed) && RunOps(a.lists, ops) == Some(b.lists)
          else result == Reverted && !AllOk(b.rows[cid].steps) && (Restored(b.rows[cid].steps) ==> b.lists == a.lists))
  }

  ghost predicate Begun(a: Store, b: Store, cid: int) {
    |a.rows| <= cid < |b.rows| && cid in b.origin && b.origin[cid] == a.lists
  }

  /** How often AdGuard, or the way to it, failed. */
  function Troubles(calls: seq<Call>): nat {
    if calls == [] then 0
    else Troubles(calls[..|calls| - 1]) + if calls[|calls| - 1].o in {Refused, Raised} then 1 else 0
  }

  /** How many of the first n rows the recovery ended as failed. */
  function FailedRows(a: Store, b: Store, n: nat): nat
    requires n <= |a.rows| <= |b.rows|
  {
    if n == 0 then 0
    else FailedRows(a, b, n - 1) + if a.rows[n - 1].result == Running && b.rows[n - 1].result == Failed then 1 else 0
  }

  /** What recovery at start-up does to the store: every running row in turn is put back to its snapshot. */
  ghost predicate PutBackRel(a: Store, b: Store, alive: bool) {
    && |b.rows| == |a.rows| && b.origin == a.origin
    && (forall i :: 0 <= i < |a.rows| && !IsRunning(a, i) ==> b.rows[i] == a.rows[i])
    && (forall i :: IsRunning(a, i) ==> b.rows[i].snapshot == a.rows[i].snapshot && b.rows[i].result in {Running, Reverted, Failed})
    && (if alive then forall i :: !IsRunning(b, i) else exists i :: IsRunning(b, i))
    && ((forall i :: !IsRunning(a, i)) ==> b.lists == a.lists)
    && (alive ==> forall k :: LastRunning(a, k) && b.rows[k].result == Reverted ==> b.lists == MapOf(a.rows[k].snapshot))
  }

  /** And a row fails for every trouble with AdGuard. */
  ghost predicate RecoverRel(a: Store, b: Store, made: seq<Call>, alive: bool) {
    && PutBackRel(a, b, alive)
    && FailedRows(a, b, |a.rows|) == Troubles(made) && (!alive ==> made != [] && made[|made| - 1].o == Stopped)
  }

  ghost predicate LastRunning(s: Store, k: int) {
    IsRunning(s, k) && forall i :: k < i < |s.rows| ==> !IsRunning(s, i)
  }

  /** The ids that AdGuard gives its lists, and the least one it has not given yet. */
  datatype Ids = Ids(of: map<string, int>, next: int)

  /** Every list has an id of its own. */
  ghost predicate Known(l: Lists, ids: Ids) {
    && ids.of.Keys == l.Keys
    && (forall u :: u in ids.of ==> ids.of[u] < ids.next)
    && (forall u, v :: u in ids.of && v in ids.of && ids.of[u] == ids.of[v] ==> u == v)
  }

  /** Between two moments every list kept its id or got a new one. */
  ghost predicate Newer(a: Ids, b: Ids) {
    a.next <= b.next && forall u :: u in b.of ==> (u in a.of && b.of[u] == a.of[u]) || b.of[u] >= a.next
  }

  lemma NewerRefl(a: Ids)
    ensures Newer(a, a)
  {
  }

  lemma NewerTrans(a: Ids, b: Ids, c: Ids)
    requires Newer(a, b) && Newer(b, c)
    ensures Newer(a, c)
  {
  }

  /** A list that is added gets the id given; the others keep theirs. */
  function Numbered(ids: Ids, op: Op, id: int): Ids {
    match op
    case AddOp(_, url) => Ids(ids.of[url := id], id + 1)
    case RemoveOp(url) => Ids(ids.of - {url}, ids.next)
    case _ => ids
  }

  lemma NumberedKnown(l: Lists, ids: Ids, op: Op, id: int)
    requires Known(l, ids) && Applicable(l, op) && ids.next <= id
    ensures Known(Effect(l, op), Numbered(ids, op, id)) && Newer(ids, Numbered(ids, op, id))
  {
    assert Numbered(ids, op, id).of.Keys == Effect(l, op).Keys;
  }

  /** The ids in a report of the lists. */
  ghost predicate Reported(l: seq<FList>, ids: Ids) {
    forall f :: f in l ==> f.url in ids.of && ids.of[f.url] == f.id
  }

  ghost predicate HasId(ids: Ids, id: int) {
    exists u :: u in ids.of && ids.of[u] == id
  }

  /** The URL of a list: of the one that has this id, or else of the one that had it in a snapshot. */
  ghost predicate IsListUrl(ids: Ids, snapshot: seq<FList>, id: int, url: string) {
    if HasId(ids, id) then url in ids.of && ids.of[url] == id
    else FindId(snapshot, id).Some? && url == FindId(snapshot, id).value.url
  }

  class FilterLists {
    // AdGuard's lists and the filter_changes table outlive the process; busy does not
    var lists: Lists
    var rows: seq<Row>
    var busy: bool
    // requests are served only after the start-up recovery
    var serving: bool
    var ids: Ids
    ghost var origin: map<nat, Lists>
    ghost var calls: seq<Call>

    ghost function Abs(): Store
      reads this
    {
      Store(lists, rows, origin)
    }

    ghost predicate Valid()
      reads this
    {
      Sane(Abs()) && Known(lists, ids)
    }

    constructor (initial: Lists, ids: Ids)
      requires Known(initial, ids)
      ensures Abs() == Store(initial, [], map[]) && this.ids == ids && !busy && Valid()
    {
      lists, rows, busy, serving, this.ids, origin, calls := initial, [], false, true, ids, map[], [];
    }

    // ---- the environment ----

    /** Other requests that are served while a change waits: refreshes that are held back. */
    method Elsewhere() returns (alive: bool)
      requires Valid()
      modifies this`rows
      ensures Valid() && OthersKept(old(Abs()), Abs(), -1, alive)
      ensures !serving ==> rows == old(rows)
    {
      var n: nat := *;
      alive := *;
      if !serving {
        return;
      }
      alive := true;
      while n > 0 && alive
        invariant Valid() && OthersKept(old(Abs()), Abs(), -1, alive)
      {
        alive := HoldRefresh(None);
        n := n - 1;
      }
    }

    /** The end of refresh for a list that changed too much: the row is begun with an empty snapshot and finished as held. */
    method HoldRefresh(listId: Option<int>) returns (alive: bool)
      requires Valid()
      modifies this`rows
      ensures Valid() && |rows| == |old(rows)| + 1 && rows[..|old(rows)|] == old(rows)
      ensures rows[|old(rows)|].result == if alive then OnHold else Running
      ensures rows[|old(rows)|].snapshot == []
    {
      rows := rows + [Row(RefreshLists, listId, Running, [], [])];
      alive := *;
      if alive {
        var n := |rows| - 1;
        rows := rows[n := rows[n].(result := OnHold, steps := [Step(Validate, true), Step(Hold, true)])];
      }
    }

    /** lists() */
    method ReadLists() returns (o: Outcome, l: seq<FList>)
      requires Valid()
      modifies this`rows, this`calls
      ensures Valid() && OthersKept(old(Abs()), Abs(), -1, o != Stopped) && calls == old(calls) + [Read(o)]
      ensures !serving ==> rows == old(rows)
      ensures o == Done ==> Unique(l) && MapOf(l) == lists && Reported(l, ids)
    {
      l := [];
      var alive := Elsewhere();
      var answered, raised: bool := *, *;
      if !alive {
        o := Stopped;
      } else if !answered {
        o := if raised then Raised else Refused;
      } else {
        l := Report(lists, ids);
        o := Done;
      }
      calls := calls + [Read(o)];
    }

    /** _do: one operation on AdGuard, while no other change can run. An error may be reported after it took effect. */
    method Do(op: Op) returns (o: Outcome)
      requires Valid() && (busy || !serving)
      modifies this`rows, this`lists, this`ids, this`calls
      ensures Valid() && OthersKept(old(Abs()), Abs(), -1, o != Stopped)
      ensures Newer(old(ids), ids)
      ensures !serving ==> rows == old(rows)
      ensures calls == old(calls) + [Operated(op, o)]
      ensures o == Done ==> Applicable(old(lists), op) && lists == Effect(old(lists), op)
    {
      hide Known, Newer, Sane, OthersKept;
      NewerRefl(ids);
      var reached, answered, raised: bool := *, *, *;
      ghost var before := Abs();
      var applicable := Applicable(lists, op);
      if reached && applicable {
        var id: int := *;
        id := if id < ids.next then ids.next else id;
        NumberedKnown(lists, ids, op, id);
        lists, ids := Effect(lists, op), Numbered(ids, op, id);
      }
      ListsFree(before, Abs());
      label moved:
      var alive := Elsewhere();
      OthersKeptTrans(before, old@moved(Abs()), Abs(), alive);
      o := if !alive then Stopped else if reached && applicable && answered then Done else if raised then Raised else Refused;
      calls := calls + [Operated(op, o)];
    }

    /** baseline */
    method Measure() returns (o: Outcome)
      requires Valid()
      modifies this`rows, this`calls
      ensures Valid() && OthersKept(old(Abs()), Abs(), -1, o != Stopped) && calls == old(calls) + [Measured(o)]
    {
      var alive := Elsewhere();
      o := *;
      o := if !alive then Stopped else if o == Stopped then Raised else o;
      calls := calls + [Measured(o)];
    }

    /** Any of the checks: the probes, the replica and parity. Failed calls of theirs count as verdicts, or raise. */
    method Check(what: StepName) returns (o: Outcome, passed: bool)
      requires Valid()
      modifies this`rows, this`calls
      ensures Valid() && OthersKept(old(Abs()), Abs(), -1, o != Stopped) && o != Refused
      ensures calls == old(calls) + [Checked(what, o, passed)]
    {
      var alive := Elsewhere();
      var raised: bool := *;
      passed := *;
      o := if !alive then Stopped else if raised then Raised else Done;
      calls := calls + [Checked(what, o, passed)];
    }

    // ---- the pipeline ----

    /** _apply */
    method ApplyOps(ops: seq<Op>, steps0: seq<Step>) returns (o: Outcome, steps: seq<Step>, ghost made: seq<Call>)
      requires Valid() && (busy || !serving)
      modifies this`rows, this`lists, this`ids, this`calls
      ensures Valid() && OthersKept(old(Abs()), Abs(), -1, o != Stopped)
      ensures Newer(old(ids), ids)
      ensures !serving ==> rows == old(rows)
      ensures o == Done || o == Refused ==> steps == steps0 + [Step(Apply, o == Done)]
      ensures o == Raised ==> steps == steps0
      ensures calls == old(calls) + made
      ensures if o == Done then made == AllDone(ops) else Spoiled(made) && Adguards(made) && made[|made| - 1].o == o
      ensures o == Done ==> RunOps(old(lists), ops) == Some(lists)
    {
      hide Known, Newer, Sane, OthersKept, RunOps, Numbered, Effect, Applicable, Spoiled, Adguards;
      steps, made := steps0, [];
      o := Done;
      OthersKeptRefl(Abs());
      NewerRefl(ids);
      RunNone(lists);
      assert ops[..0] == [];
      for i := 0 to |ops|
        invariant Valid() && OthersKept(old(Abs()), Abs(), -1, true) && (!serving ==> rows == old(rows))
        invariant Newer(old(ids), ids)
        invariant calls == old(calls) + made && made == AllDone(ops[..i])
        invariant RunOps(old(lists), ops[..i]) == Some(lists)
      {
        label before:
        ghost var l := lists;
        o := Do(ops[i]);
        OthersKeptTrans(old(Abs()), old@before(Abs()), Abs(), o != Stopped);
        NewerTrans(old(ids), old@before(ids), ids);
        Joined(old(calls), made, [Operated(ops[i], o)]);
        made := made + [Operated(ops[i], o)];
        if o != Done {
          OpSpoils(ops[..i], ops[i], o);
          steps := steps + if o == Refused then [Step(Apply, false)] else [];
          return;
        }
        RunOne(l, ops[i]);
        RunConcat(old(lists), ops[..i], [ops[i]]);
        assert ops[..i + 1] == ops[..i] + [ops[i]];
      }
      o := Done;
      assert ops[..|ops|] == ops;
      steps := steps + [Step(Apply, true)];
    }

    /** The verdict of _pipeline: baseline, apply, settle, probe, replica, parity, each only after the one before passed. */
    method Try(ops: seq<Op>, steps0: seq<Step>, waitParity: bool)
        returns (alive: bool, ok: bool, steps: seq<Step>, ghost made: seq<Call>)
      requires Valid() && (busy || !serving) && AllOk(steps0)
      modifies this`rows, this`lists, this`ids, this`calls
      ensures Valid() && OthersKept(old(Abs()), Abs(), -1, alive)
      ensures Newer(old(ids), ids)
      ensures calls == old(calls) + made && (alive && ok <==> made == Good(ops, waitParity))
      ensures !(alive && ok) ==> Spoiled(made) && (alive <==> made[|made| - 1].o != Stopped)
      ensures alive ==> (ok <==> AllOk(steps))
      ensures alive && ok ==> RunOps(old(lists), ops) == Some(lists) && steps == Passed(steps0, waitParity)
      ensures !Restored(steps0) && alive ==> !Restored(steps)
    {
      hide Known, Newer, Sane, OthersKept, RunOps, MapOf, Unique, Spoiled, AllFine, Adguards;
      ok, steps := false, steps0;
      GoodFine(ops, waitParity);
      OthersKeptRefl(Abs());
      NewerRefl(ids);
      var o := Measure();
      made := [Measured(o)];
      FineOrSpoiled([], made[0]);
      if o != Done {
        steps := steps + [Step(Internal, false)];
        assert !steps[|steps| - 1].ok;
        return o != Stopped, false, steps, made;
      }
      label applied:
      ghost var more;
      o, steps, more := ApplyOps(ops, steps);
      Joined(old(calls), made, more);
      AfterFine(made, more);
      made := made + more;
      OthersKeptTrans(old(Abs()), old@applied(Abs()), Abs(), o != Stopped);
      if o != Done {
        steps := steps + if o == Raised then [Step(Internal, false)] else [];
        assert o != Stopped ==> !steps[|steps| - 1].ok;
        return o != Stopped, false, steps, made;
      }
      DoneFine(ops);
      FineTogether([Measured(Done)], AllDone(ops));
      label checked:
      alive, ok, steps, more := CheckAll(steps, waitParity);
      Joined(old(calls), made, more);
      AfterFine(made, more);
      made := made + more;
      OthersKeptTrans(old(Abs()), old@checked(Abs()), Abs(), alive);
    }

    /** The checks of _pipeline after the operations. */
    method CheckAll(steps0: seq<Step>, waitParity: bool) returns (alive: bool, ok: bool, steps: seq<Step>, ghost made: seq<Call>)
      requires Valid() && AllOk(steps0)
      modifies this`rows, this`calls
      ensures Valid() && OthersKept(old(Abs()), Abs(), -1, alive)
      ensures calls == old(calls) + made && (alive && ok <==> made == GoodChecks(waitParity))
      ensures !(alive && ok) ==> Spoiled(made) && (alive <==> made[|made| - 1].o != Stopped)
      ensures alive ==> (ok <==> AllOk(steps))
      ensures alive && ok ==> steps == steps0 + PassedChecks(waitParity)
      ensures !Restored(steps0) ==> !Restored(steps)
    {
      hide Sane, OthersKept, MapOf, Unique, Spoiled, AllFine, Known;
      steps, made := steps0, [];
      GoodFine([], waitParity);
      OthersKeptRefl(Abs());
      var names := if waitParity then [Probe, Replica, Parity] else [Probe, Replica];
      ok := true;
      var o, passed;
      for i := 0 to |names|
        invariant Valid() && OthersKept(old(Abs()), Abs(), -1, true)
        invariant calls == old(calls) + made && AllFine(made) && made == GoodChecks(waitParity)[..i]
        invariant ok && AllOk(steps) && steps == steps0 + PassedChecks(waitParity)[..i]
        invariant !Restored(steps0) ==> !Restored(steps)
      {
        label before:
        o, passed := Check(names[i]);
        Joined(old(calls), made, [Checked(names[i], o, passed)]);
        FineOrSpoiled(made, Checked(names[i], o, passed));
        made := made + [Checked(names[i], o, passed)];
        OthersKeptTrans(old(Abs()), old@before(Abs()), Abs(), o != Stopped);
        steps := steps + [Step(if o == Done then names[i] else Internal, passed && o == Done)];
        if o != Done || !passed {
          assert !steps[|steps| - 1].ok;
          return o != Stopped, false, steps, made;
        }
      }
      alive := true;
    }

    /** _restore. An AdGuard error is recorded; any other exception leaves it, from the restore itself or from the probe
        after it. */
    method Restore(snapshot: seq<FList>, steps0: seq<Step>) returns (o: Outcome, steps: seq<Step>, ghost made: seq<Call>)
      requires Valid() && (busy || !serving) && Unique(snapshot) && !Restored(steps0)
      modifies this`rows, this`lists, this`ids, this`calls
      ensures Valid() && OthersKept(old(Abs()), Abs(), -1, o != Stopped) && o != Refused
      ensures Newer(old(ids), ids)
      ensures steps0 <= steps && calls == old(calls) + made
      ensures if o == Done then Restored(steps) <==> Untroubled(made) else made != [] && made[|made| - 1].o == o
      ensures o == Done && Restored(steps) ==> lists == MapOf(snapshot)
      ensures o == Done && Restored(steps) ==>
                && made != [] && steps[|steps| - 1].name == ProbeAfterRevert
                && made[|made| - 1] == Checked(ProbeAfterRevert, Done, steps[|steps| - 1].ok)
    {
      steps := steps0;
      o, made := PutBack(snapshot);
      if o == Stopped || o == Raised {
        return;
      }
      steps := steps + [Step(Revert, o == Done)];
      if o == Refused {
        o := Done;
        return;
      }
      label before:
      var passed;
      o, passed := Check(ProbeAfterRevert);
      Joined(old(calls), made, [Checked(ProbeAfterRevert, o, passed)]);
      made := made + [Checked(ProbeAfterRevert, o, passed)];
      OthersKeptTrans(old(Abs()), old@before(Abs()), Abs(), o != Stopped);
      steps := steps + [Step(ProbeAfterRevert, passed)];
    }

    /** Reading the lists and running the difference to a snapshot: the common part of _restore and recover. */
    method PutBack(snapshot: seq<FList>) returns (o: Outcome, ghost made: seq<Call>)
      requires Valid() && (busy || !serving) && Unique(snapshot)
      modifies this`rows, this`lists, this`ids, this`calls
      ensures Valid() && OthersKept(old(Abs()), Abs(), -1, o != Stopped)
      ensures Newer(old(ids), ids)
      ensures !serving ==> rows == old(rows)
      ensures calls == old(calls) + made && Troubles(made) == (if o in {Refused, Raised} then 1 else 0)
      ensures if o == Done then Untroubled(made) else made != [] && made[|made| - 1].o == o && !Untroubled(made)
      ensures o == Done ==> lists == MapOf(snapshot)
    {
      var cur;
      o, cur := ReadLists();
      made := [Read(o)];
      if o != Done {
        return;
      }
      var ops := DiffOps(cur, snapshot, None);
      DiffReaches(cur, snapshot, None);
      label before:
      var steps: seq<Step>;
      ghost var more;
      o, steps, more := ApplyOps(ops, []);
      Joined(old(calls), made, more);
      made := made + more;
      PutBackCalls(ops, more, o);
      OthersKeptTrans(old(Abs()), old@before(Abs()), Abs(), o != Stopped);
    }

    /** _pipeline. cid is the index of the row, or -1 when none was begun. */
    method Change(action: Action, listId: Option<int>, ops: seq<Op>, steps0: seq<Step>, waitParity: bool)
        returns (e: Ending, cid: int, ghost made: seq<Call>)
      requires Valid() && AllOk(steps0) && !Restored(steps0)
      modifies this
      ensures Valid() && ChangeRel(old(Abs()), Abs(), ops, Passed(steps0, waitParity), e, cid)
      ensures Newer(old(ids), ids)
      ensures calls == old(calls) + made && Answered(made, ops, waitParity, e, StepsOf(Abs(), cid))
      ensures e.Ended? ==> rows[cid].action == action && rows[cid].listId == listId
      ensures e == Busy <==> old(busy)
      ensures e != Died ==> busy == old(busy)
    {
      hide Known, Newer, OthersKept, RunOps, MapOf, Unique, AllOk, Restored, Sane, Begun, Spoiled, Good, Untroubled, Answered, ChangeRel;
      cid, made := -1, [];
      NewerRefl(ids);
      if busy {
        e := Busy;
        OthersKeptRefl(Abs());
        AnsweredNothing(ops, waitParity);
        EndedEarly(old(Abs()), Abs(), ops, Passed(steps0, waitParity), e);
        return;
      }
      busy := true;
      var o, snapshot := ReadLists();
      made := [Read(o)];
      if o != Done {
        e := if o == Stopped then Died else Unreachable;
        EndedEarly(old(Abs()), Abs(), ops, Passed(steps0, waitParity), e);
        AnsweredRead(o, ops, waitParity, e, StepsOf(Abs(), cid));
        busy := o == Stopped;
        return;
      }
      var row := |rows|;
      BeginRow(old(Abs()), Abs(), Row(action, listId, Running, [], snapshot));
      rows := rows + [Row(action, listId, Running, [], snapshot)];
      origin := origin[row := lists];
      cid := row;
      assert Begun(old(Abs()), Abs(), row);
      label begun:
      ghost var more;
      var alive, ok, steps;
      alive, ok, steps, more := Try(ops, steps0, waitParity);
      Joined(old(calls), made, more);
      made := made + more;
      ghost var tried := more;
      if alive && ok {
        AnsweredGood(made, ops, waitParity, steps);
      } else {
        SpoiledLater(tried, made);
      }
      RowKept(old(Abs()), old@begun(Abs()), Abs(), row, alive);
      if !alive {
        e := Died;
        EndedOpen(old(Abs()), Abs(), ops, Passed(steps0, waitParity), e, row);
        AnsweredDied(made, ops, waitParity, StepsOf(Abs(), cid));
        return;
      }
      if !ok {
        label before:
        ghost var failed := steps;
        o, steps, more := Restore(snapshot, steps);
        Joined(old(calls), made, more);
        made := made + more;
        RowKept(old(Abs()), old@before(Abs()), Abs(), row, o != Stopped);
        NewerTrans(old(ids), old@before(ids), ids);
        FailureKept(failed, steps);
        if o != Done {
          e := if o == Stopped then Died else Escaped;
          EndedOpen(old(Abs()), Abs(), ops, Passed(steps0, waitParity), e, row);
          AnsweredBack([Read(Done)] + tried, more, ops, waitParity, e, StepsOf(Abs(), cid));
          busy := o == Stopped;
          return;
        }
        AnsweredBack([Read(Done)] + tried, more, ops, waitParity, Ended(Reverted), steps);
      }
      e := Ended(if ok then Applied else Reverted);
      FinishRow(old(Abs()), Abs(), row, e.result, steps);
      rows := rows[row := rows[row].(result := e.result, steps := steps)];
      busy := false;
      EndedWith(old(Abs()), Abs(), ops, Passed(steps0, waitParity), e.result, row);
    }

    /** recover, run at start-up before any request is served. */
    method Recover() returns (alive: bool, ghost made: seq<Call>)
      requires Valid()
      modifies this
      ensures Valid() && RecoverRel(old(Abs()), Abs(), made, alive) && calls == old(calls) + made
      ensures Newer(old(ids), ids)
      ensures !busy && serving == alive
    {
      hide Known, Newer, Sane, RecoveredUpTo, RecoverRel, MapOf, Unique, OthersKept, IsRunning, Troubles;
      busy, serving := false, false;
      alive, made := true, [];
      ghost var more;
      RecoverBegin(Abs());
      NoTrouble(made);
      NewerRefl(ids);
      for i := 0 to |rows|
        invariant !busy && !serving && |rows| == |old(rows)| && origin == old(origin)
        invariant Newer(old(ids), ids)
        invariant calls == old(calls) + made && FailedRows(old(Abs()), Abs(), i) == Troubles(made)
        invariant Valid() && RecoveredUpTo(old(Abs()), Abs(), i)
      {
        RecoverNext(old(Abs()), Abs(), i);
        if rows[i].result == Running {
          label before:
          ghost var now := Abs();
          var o;
          o, more := PutBack(rows[i].snapshot);
          Joined(old(calls), made, more);
          TroublesTogether(made, more);
          made := made + more;
          NewerTrans(old(ids), old@before(ids), ids);
          if o == Stopped {
            alive := false;
            RecoverCut(old(Abs()), now, i, lists, made);
            return;
          }
          var back := o == Done;
          RecoverStep(old(Abs()), now, i, lists, back);
          rows := rows[i := rows[i].(result := if back then Reverted else Failed, steps := rows[i].steps + [Step(Revert, back)])];
        }
      }
      RecoverEnd(old(Abs()), Abs(), made);
      serving := true;
    }

    /** add, for the URL and name of the request. The lists are read before the change, to tell the new list from the old
        ones, and after it, to store its id in the row; mid is the store when the change ended. */
    method Add(name: string, url: string)
        returns (r: Result<Ending, AddError>, after: Outcome, cid: int, ghost begun: Store, ghost mid: Store)
      requires Valid()
      modifies this
      ensures Valid()
      ensures Newer(old(ids), ids)
      ensures r.Err? ==> lists == old(lists) && OthersKept(old(Abs()), Abs(), -1, r.error != AddDied)
      ensures r.Ok? ==> begun.lists == old(lists) && OthersKept(old(Abs()), begun, -1, true)
      ensures r.Ok? ==> ChangeRel(begun, mid, [AddOp(name, url)], Passed([Step(Validate, true)], true), r.value, cid)
      ensures r.Ok? && r.value != Ended(Applied) ==> Abs() == mid
      ensures r == Ok(Ended(Applied)) ==> lists == mid.lists == old(lists)[url := Entry(name, true)]
      ensures r == Ok(Ended(Applied)) && after == Done ==>
                && AddedAt(Abs(), ids, url, cid, old(lists))
                && OthersKept(mid, Labelled(Abs(), cid, None), -1, true)
      ensures r == Ok(Ended(Applied)) && after != Done ==> OthersKept(mid, Abs(), -1, after != Stopped)
    {
      hide OthersKept, RunOps, MapOf, Known, Newer, Reported, Sane, AllOk, Restored, Applicable, Effect;
      cid, after, begun, mid := -1, Done, Abs(), Abs();
      NewerRefl(ids);
      var o, existing := ReadLists();
      if o != Done {
        return Err(if o == Stopped then AddDied else NotRead), after, cid, begun, mid;
      }
      label read:
      var alive := Elsewhere();
      OthersKeptTrans(old(Abs()), old@read(Abs()), Abs(), alive);
      var accepted: bool := *;
      if !alive || !accepted {
        return Err(if alive then Rejected else AddDied), after, cid, begun, mid;
      }
      begun := Abs();
      ghost var before := ids;
      ValidatedFine();
      var e: Ending;
      ghost var made;
      e, cid, made := Change(AddList, None, [AddOp(name, url)], [Step(Validate, true)], true);
      mid := Abs();
      r := Ok(e);
      if e != Ended(Applied) {
        return;
      }
      label changed:
      AddRuns(begun.lists, name, url, lists);
      var now;
      after, now := ReadLists();
      if after != Done {
        return;
      }
      var id := NewId(now, existing, url);
      NewIdFound(begun.lists, before, existing, lists, ids, now, url);
      SetLabel(begun, mid, Abs(), cid, id.value);
      rows := rows[cid := rows[cid].(listId := id)];
    }

    /** revert: one list back to the state before its last applied change. */
    method RevertLast(listId: int) returns (r: Result<Ending, RevertError>, ghost cid: int, ghost url: string, ghost snap: seq<FList>)
      requires Valid()
      modifies this
      ensures Valid()
      ensures Newer(old(ids), ids)
      ensures (r.Ok? && r.value == Ended(Applied)) ==>
                && (exists i :: IsLastChangeOf(old(Abs()), listId, i) && snap == old(rows)[i].snapshot)
                && Unique(snap) && url != ""
                && lists == Target(old(lists), MapOf(snap), Some(url))
      ensures r.Ok? || r == Err(NoChange) ==> url != "" && IsListUrl(old(ids), snap, listId, url)
      ensures r == Err(NotFound) ==> forall u :: IsListUrl(old(ids), snap, listId, u) ==> u == ""
      ensures r.Ok? && r.value.Ended? ==>
                && 0 <= cid < |rows| && rows[cid].result == r.value.result && r.value.result in {Applied, Reverted}
                && (r.value.result == Reverted && Restored(rows[cid].steps) ==> lists == old(lists))
      ensures r == Err(NotRevertable) <==> forall i :: 0 <= i < |old(rows)| ==> !ChangedList(old(rows)[i], listId)
      ensures r == Err(NoChange) ==> lists == old(lists) && Unique(snap) && Target(lists, MapOf(snap), Some(url)) == lists
      ensures r.Err? && r.error != NotRevertable ==> cid == -1 && OthersKept(old(Abs()), Abs(), -1, r.error != ReadDied)
    {
      hide OthersKept, RunOps, MapOf, Target, Diff, Known, Newer, Reported, IsListUrl, FindId;
      NewerRefl(ids);
      cid, url, snap := -1, "", [];
      var i := |rows|;
      while i > 0 && !ChangedList(rows[i - 1], listId)
        invariant 0 <= i <= |rows|
        invariant forall j :: i <= j < |rows| ==> !ChangedList(rows[j], listId)
      {
        i := i - 1;
      }
      if i == 0 {
        r := Err(NotRevertable);
        return;
      }
      var snapshot := rows[i - 1].snapshot;
      snap := snapshot;
      assert IsLastChangeOf(old(Abs()), listId, i - 1);
      assert Unique(snap) by {
        assert i - 1 in origin || snapshot == [];
      }
      var o, cur := ReadLists();
      if o != Done {
        r := Err(if o == Stopped then ReadDied else ReadFailed);
        return;
      }
      var mine, was := FindId(cur, listId), FindId(snapshot, listId);
      UrlFound(lists, ids, cur, snapshot, listId);
      if mine.None? && was.None? {
        r := Err(NotFound);
        return;
      }
      var u := (if mine.Some? then mine else was).value.url;
      url := u;
      if u == "" {
        r := Err(NotFound);
        return;
      }
      var ops := DiffOps(cur, snapshot, Some(u));
      DiffReaches(cur, snapshot, Some(u));
      DiffEmpty(cur, snapshot, Some(u));
      if ops == [] {
        r := Err(NoChange);
        return;
      }
      label before:
      var e: Ending;
      ghost var made;
      e, cid, made := Change(RevertList, Some(listId), ops, [Step(Validate, true)], true);
      r := Ok(e);
    }
  }

  function StepsOf(s: Store, cid: int): seq<Step> {
    if 0 <= cid < |s.rows| then s.rows[cid].steps else []
  }

  /** Only calls to AdGuard. */
  predicate Adguards(calls: seq<Call>) {
    forall c :: c in calls ==> !c.Checked?
  }

  lemma Joined(a: seq<Call>, b: seq<Call>, c: seq<Call>)
    ensures a + b + c == a + (b + c)
  {
  }

  lemma OpSpoils(ops: seq<Op>, op: Op, o: Outcome)
    requires o != Done
    ensures Spoiled(AllDone(ops) + [Operated(op, o)]) && Adguards(AllDone(ops) + [Operated(op, o)])
  {
    var calls := AllDone(ops) + [Operated(op, o)];
    assert calls[..|calls| - 1] == AllDone(ops);
  }

  lemma FineOrSpoiled(calls: seq<Call>, c: Call)
    requires AllFine(calls)
    ensures if Fine(c) then AllFine(calls + [c]) else Spoiled(calls + [c])
  {
    assert (calls + [c])[..|calls|] == calls;
  }

  lemma AfterFine(calls: seq<Call>, more: seq<Call>)
    requires AllFine(calls)
    ensures Spoiled(more) ==> Spoiled(calls + more) && (calls + more)[|calls + more| - 1] == more[|more| - 1]
  {
    if Spoiled(more) {
      var l := calls + more;
      assert l[..|l| - 1] == calls + more[..|more| - 1];
    }
  }

  lemma FineTogether(a: seq<Call>, b: seq<Call>)
    requires AllFine(a) && AllFine(b)
    ensures AllFine(a + b)
  {
  }

  lemma DoneFine(ops: seq<Op>)
    ensures AllFine(AllDone(ops)) && AllFine([Measured(Done)]) && AllFine([])
  {
  }

  lemma GoodFine(ops: seq<Op>, waitParity: bool)
    ensures AllFine(Good(ops, waitParity)) && AllFine(GoodChecks(waitParity)) && AllFine([]) && AllFine([Read(Done)])
    ensures forall calls :: Spoiled(calls) ==> !AllFine(calls)
  {
    forall calls | Spoiled(calls)
      ensures !AllFine(calls)
    {
      assert calls[|calls| - 1] in calls;
    }
  }

  lemma PutBackCalls(ops: seq<Op>, more: seq<Call>, o: Outcome)
    requires if o == Done then more == AllDone(ops) else Spoiled(more) && Adguards(more) && more[|more| - 1].o == o
    ensures var made := [Read(Done)] + more;
            && Troubles(made) == (if o in {Refused, Raised} then 1 else 0)
            && if o == Done then Untroubled(made) else made[|made| - 1].o == o && !Untroubled(made)
  {
    var made := [Read(Done)] + more;
    if o == Done {
      FineUntroubled(made);
    } else {
      var n := |made| - 1;
      assert made[..n] == [Read(Done)] + more[..|more| - 1];
      FineUntroubled(made[..n]);
      assert made[n] in made && made[n] in more;
    }
  }

  lemma {:induction false} FineUntroubled(calls: seq<Call>)
    requires AllFine(calls)
    ensures Troubles(calls) == 0 && Untroubled(calls)
  {
    if calls != [] {
      FineUntroubled(calls[..|calls| - 1]);
      assert calls[|calls| - 1] in calls;
    }
  }

  lemma {:induction false} TroublesTogether(a: seq<Call>, b: seq<Call>)
    ensures Troubles(a + b) == Troubles(a) + Troubles(b)
  {
    if b == [] {
      assert a + b == a;
    } else {
      TroublesTogether(a, b[..|b| - 1]);
      assert (a + b)[..|a + b| - 1] == a + b[..|b| - 1];
    }
  }

  /** The reading before the pipeline was fine. */
  lemma SpoiledLater(tried: seq<Call>, made: seq<Call>)
    requires Spoiled(tried) && made == [Read(Done)] + tried
    ensures tried != [] && Spoiled(made) && made[|made| - 1] == tried[|tried| - 1]
  {
    AfterFine([Read(Done)], tried);
  }

  lemma EndedEarly(a: Store, b: Store, ops: seq<Op>, passed: seq<Step>, e: Ending)
    requires e in {Busy, Unreachable, Died} && b.lists == a.lists && OthersKept(a, b, -1, e != Died)
    ensures ChangeRel(a, b, ops, passed, e, -1)
  {
  }

  lemma EndedOpen(a: Store, b: Store, ops: seq<Op>, passed: seq<Step>, e: Ending, cid: int)
    requires e in {Escaped, Died} && Begun(a, b, cid) && OthersKept(a, b, cid, e != Died) && b.rows[cid].result == Running
    ensures ChangeRel(a, b, ops, passed, e, cid)
  {
  }

  lemma EndedWith(a: Store, b: Store, ops: seq<Op>, passed: seq<Step>, result: Status, cid: int)
    requires Begun(a, b, cid) && OthersKept(a, b, cid, true) && b.rows[cid].result == result && result in {Applied, Reverted}
    requires if result == Applied then b.rows[cid].steps == passed && AllOk(passed) && RunOps(a.lists, ops) == Some(b.lists)
             else !AllOk(b.rows[cid].steps) && (Restored(b.rows[cid].steps) ==> b.lists == a.lists)
    ensures ChangeRel(a, b, ops, passed, Ended(result), cid)
  {
  }

  lemma AnsweredNothing(ops: seq<Op>, waitParity: bool)
    ensures Answered([], ops, waitParity, Busy, [])
  {
  }

  lemma AnsweredRead(o: Outcome, ops: seq<Op>, waitParity: bool, e: Ending, steps: seq<Step>)
    requires o != Done && e == if o == Stopped then Died else Unreachable
    ensures Answered([Read(o)], ops, waitParity, e, steps)
  {
  }

  lemma AnsweredDied(made: seq<Call>, ops: seq<Op>, waitParity: bool, steps: seq<Step>)
    requires made != [] && made[|made| - 1].o == Stopped
    ensures Answered(made, ops, waitParity, Died, steps)
  {
  }

  lemma AnsweredGood(made: seq<Call>, ops: seq<Op>, waitParity: bool, steps: seq<Step>)
    requires made == [Read(Done)] + Good(ops, waitParity)
    ensures Answered(made, ops, waitParity, Ended(Applied), steps)
  {
  }

  lemma AnsweredBack(tried: seq<Call>, put: seq<Call>, ops: seq<Op>, waitParity: bool, e: Ending, steps: seq<Step>)
    requires Spoiled(tried) && e in {Died, Escaped, Ended(Reverted)}
    requires if e == Ended(Reverted) then Restored(steps) <==> Untroubled(put)
             else put != [] && put[|put| - 1].o == if e == Died then Stopped else Raised
    ensures Answered(tried + put, ops, waitParity, e, steps)
  {
    hide Restored, Untroubled, Good;
    var made := tried + put;
    assert made[..|tried|] == tried && made[|tried|..] == put;
    assert SpoiledAt(made, |tried|);
    GoodFine(ops, waitParity);
    FineTogether([Read(Done)], Good(ops, waitParity));
    assert tried[|tried| - 1] in made;
  }

  datatype AddError = Rejected | NotRead | AddDied

  /** A list is added, and the way back is open: its change is the last one of the list that now has the URL, and began
      with the lists as they were. */
  ghost predicate AddedAt(s: Store, ids: Ids, url: string, cid: int, before: Lists) {
    && url !in before && url in ids.of
    && IsLastChangeOf(s, ids.of[url], cid) && MapOf(s.rows[cid].snapshot) == before
  }

  /** The store with a list id written into the row cid. */
  function Labelled(s: Store, cid: int, id: Option<int>): Store {
    if 0 <= cid < |s.rows| then s.(rows := s.rows[cid := s.rows[cid].(listId := id)]) else s
  }

  predicate IdAmong(l: seq<FList>, id: int) {
    exists f :: f in l && f.id == id
  }

  /** The id of the first list with this URL that was not there before. */
  function NewId(now: seq<FList>, existing: seq<FList>, url: string): Option<int> {
    if now == [] then None
    else if now[0].url == url && !IdAmong(existing, now[0].id) then Some(now[0].id)
    else NewId(now[1..], existing, url)
  }

  lemma {:induction false} NewIdFirst(now: seq<FList>, existing: seq<FList>, url: string, id: int)
    requires !IdAmong(existing, id) && (exists f :: f in now && f.url == url) && forall f :: f in now && f.url == url ==> f.id == id
    ensures NewId(now, existing, url) == Some(id)
  {
    if now[0].url != url {
      var f :| f in now && f.url == url;
      assert f in now[1..];
      NewIdFirst(now[1..], existing, url, id);
    }
  }

  /** An added list has an id that no list had before. */
  lemma NewIdFound(l0: Lists, ids0: Ids, existing: seq<FList>, l1: Lists, ids1: Ids, now: seq<FList>, url: string)
    requires Known(l0, ids0) && Reported(existing, ids0)
    requires Known(l1, ids1) && Reported(now, ids1) && MapOf(now) == l1 && Newer(ids0, ids1)
    requires url !in l0 && url in l1
    ensures url in ids1.of && NewId(now, existing, url) == Some(ids1.of[url])
  {
    hide MapOf;
    MapOfKeys(now);
    var i :| 0 <= i < |now| && now[i].url == url;
    assert now[i] in now;
    NewIdFirst(now, existing, url, ids1.of[url]);
  }

  lemma AddRuns(l: Lists, name: string, url: string, after: Lists)
    requires RunOps(l, [AddOp(name, url)]) == Some(after)
    ensures url !in l && after == l[url := Entry(name, true)]
  {
    RunOne(l, AddOp(name, url));
  }

  lemma ValidatedFine()
    ensures AllOk([Step(Validate, true)]) && !Restored([Step(Validate, true)])
  {
  }

  /** Writing the id into the row of an applied addition. */
  lemma SetLabel(a: Store, mid: Store, now: Store, cid: int, id: int)
    requires Begun(a, mid, cid) && OthersKept(a, mid, cid, true) && OthersKept(mid, now, -1, true)
    requires mid.rows[cid].result == Applied && mid.rows[cid].action == AddList && mid.rows[cid].listId == None
    requires Sane(now)
    ensures Sane(Labelled(now, cid, Some(id))) && IsLastChangeOf(Labelled(now, cid, Some(id)), id, cid)
    ensures MapOf(Labelled(now, cid, Some(id)).rows[cid].snapshot) == a.lists
    ensures Labelled(Labelled(now, cid, Some(id)), cid, None) == now
  {
    hide MapOf, Unique;
  }

  /** Reverting an addition right away gives back the lists as they were before it. */
  lemma AddReverted(s: Store, ids: Ids, name: string, url: string, cid: int, before: Lists, id: int, u: string)
    requires AddedAt(s, ids, url, cid, before) && s.lists == before[url := Entry(name, true)] && Known(s.lists, ids)
    requires id == ids.of[url] && IsLastChangeOf(s, id, cid) && IsListUrl(ids, s.rows[cid].snapshot, id, u)
    ensures u == url && Target(s.lists, MapOf(s.rows[cid].snapshot), Some(u)) == before != s.lists
  {
    hide MapOf;
    assert HasId(ids, id);
    assert url in s.lists && url !in before;
  }

  datatype RevertError = NotRevertable | NotFound | NoChange | ReadFailed | ReadDied

  /** A row that revert may go back behind. */
  predicate ChangedList(r: Row, listId: int) {
    r.result == Applied && r.listId == Some(listId) && r.action in {AddList, RemoveList, EnableList, DisableList, RenameList}
  }

  ghost predicate IsLastChangeOf(s: Store, listId: int, i: int) {
    0 <= i < |s.rows| && ChangedList(s.rows[i], listId) && forall j :: i < j < |s.rows| ==> !ChangedList(s.rows[j], listId)
  }

  function FindId(l: seq<FList>, id: int): Option<FList> {
    if l == [] then None else if l[0].id == id then Some(l[0]) else FindId(l[1..], id)
  }

  /** Looking through the reported lists finds the list's URL. */
  lemma UrlFound(lists: Lists, ids: Ids, cur: seq<FList>, snapshot: seq<FList>, id: int)
    requires Known(lists, ids) && MapOf(cur) == lists && Reported(cur, ids)
    ensures var mine, was := FindId(cur, id), FindId(snapshot, id);
            forall u :: IsListUrl(ids, snapshot, id, u) <==>
              (mine.Some? && u == mine.value.url) || (mine.None? && was.Some? && u == was.value.url)
  {
    hide MapOf;
    Found(cur, id);
    if u :| u in ids.of && ids.of[u] == id {
      MapOfKeys(cur);
      var i :| 0 <= i < |cur| && cur[i].url == u;
      assert cur[i] in cur;
    }
  }

  lemma {:induction false} Found(l: seq<FList>, id: int)
    ensures FindId(l, id).Some? ==> FindId(l, id).value in l && FindId(l, id).value.id == id
    ensures FindId(l, id).None? ==> forall f :: f in l ==> f.id != id
  {
    if l != [] {
      Found(l[1..], id);
    }
  }

  /** Some order in which AdGuard reports its lists. */
  method Report(lists: Lists, ids: Ids) returns (l: seq<FList>)
    requires Known(lists, ids)
    ensures Unique(l) && MapOf(l) == lists && Reported(l, ids)
  {
    l := [];
    var rest := lists;
    while rest != map[]
      invariant Unique(l) && Apart(MapOf(l), rest) && MapOf(l) + rest == lists && Reported(l, ids)
      decreases |rest|
    {
      var url :| url in rest;
      var next := FList(ids.of[url], url, rest[url].name, rest[url].enabled);
      ReportStep(l, rest, next);
      l := l + [next];
      rest := rest - {url};
    }
    assert MapOf(l) + map[] == MapOf(l);
  }

  ghost predicate Apart(m: Lists, n: Lists) {
    forall url :: url in m ==> url !in n
  }

  lemma ReportStep(l: seq<FList>, rest: Lists, next: FList)
    requires Unique(l) && Apart(MapOf(l), rest) && next.url in rest && rest[next.url] == EntryOf(next)
    ensures var l', rest' := l + [next], rest - {next.url};
            Unique(l') && Apart(MapOf(l'), rest') && MapOf(l') + rest' == MapOf(l) + rest && |rest'| < |rest|
  {
    MapOfKeys(l);
    assert !HasUrl(l, next.url);
    assert (l + [next])[..|l|] == l;
    MoveEntry(MapOf(l), rest, next.url);
    SmallerWithout(rest, next.url);
  }

  lemma MoveEntry(m: Lists, rest: Lists, url: string)
    requires Apart(m, rest) && url in rest
    ensures Apart(m[url := rest[url]], rest - {url})
    ensures m[url := rest[url]] + (rest - {url}) == m + rest
  {
    var l, r := m[url := rest[url]] + (rest - {url}), m + rest;
    assert forall u :: u in l <==> u in r;
    assert forall u :: u in l ==> l[u] == r[u];
  }

  lemma SmallerWithout(rest: Lists, url: string)
    requires url in rest
    ensures |rest - {url}| < |rest|
  {
    assert (rest - {url}).Keys == rest.Keys - {url};
    assert |rest.Keys - {url}| < |rest.Keys|;
  }

  /** Recovery after the first i rows. */
  ghost predicate RecoveredUpTo(a: Store, b: Store, i: int) {
    && |b.rows| == |a.rows| && b.origin == a.origin && 0 <= i <= |a.rows|
    && (forall j :: 0 <= j < |a.rows| && (j >= i || !IsRunning(a, j)) ==> b.rows[j] == a.rows[j])
    && (forall j :: 0 <= j < i && IsRunning(a, j) ==> b.rows[j].snapshot == a.rows[j].snapshot && b.rows[j].result in {Reverted, Failed})
    && ((forall j :: 0 <= j < i ==> !IsRunning(a, j)) ==> b.lists == a.lists)
    && (forall k :: 0 <= k < i && IsRunning(a, k) && (forall j :: k < j < i ==> !IsRunning(a, j)) && b.rows[k].result == Reverted
          ==> b.lists == MapOf(a.rows[k].snapshot))
  }

  lemma RecoverBegin(a: Store)
    ensures RecoveredUpTo(a, a, 0)
  {
  }

  /** A row that is not running is passed over; the snapshot of one that is can be restored. */
  lemma RecoverNext(a: Store, b: Store, i: int)
    requires Sane(b) && RecoveredUpTo(a, b, i) && i < |a.rows|
    ensures b.rows[i].result != Running ==> RecoveredUpTo(a, b, i + 1)
    ensures Unique(b.rows[i].snapshot)
    ensures b.rows[i].result != Running ==> FailedRows(a, b, i + 1) == FailedRows(a, b, i)
  {
    if b.rows[i].result != Running {
      NextFailed(a, b, i);
    }
    hide MapOf, Unique, FailedRows;
    assert b.rows[i].snapshot == [] || i in b.origin;
    assert IsRunning(a, i) <==> b.rows[i].result == Running;
    EmptyUnique();
  }

  lemma NextFailed(a: Store, b: Store, i: int)
    requires RecoveredUpTo(a, b, i) && i < |a.rows| && b.rows[i].result != Running
    ensures FailedRows(a, b, i + 1) == FailedRows(a, b, i)
  {
    hide MapOf;
  }

  lemma EmptyUnique()
    ensures Unique([])
  {
  }

  lemma RecoverStep(a: Store, b: Store, i: int, lists: Lists, back: bool)
    requires Sane(b) && RecoveredUpTo(a, b, i) && i < |a.rows| && b.rows[i].result == Running
    requires back ==> lists == MapOf(b.rows[i].snapshot)
    ensures var row := b.rows[i].(result := if back then Reverted else Failed, steps := b.rows[i].steps + [Step(Revert, back)]);
            var c := Store(lists, b.rows[i := row], b.origin);
            Sane(c) && RecoveredUpTo(a, c, i + 1) && FailedRows(a, c, i + 1) == FailedRows(a, b, i) + if back then 0 else 1
  {
    hide MapOf, Unique;
    var row := b.rows[i].(result := if back then Reverted else Failed, steps := b.rows[i].steps + [Step(Revert, back)]);
    FailedSame(a, b, Store(lists, b.rows[i := row], b.origin), i);
    assert IsRunning(a, i);
  }

  /** The process stopped while row i was being restored. */
  lemma RecoverCut(a: Store, b: Store, i: int, lists: Lists, made: seq<Call>)
    requires Sane(b) && RecoveredUpTo(a, b, i) && i < |a.rows| && b.rows[i].result == Running
    requires FailedRows(a, b, i) == Troubles(made) && made != [] && made[|made| - 1].o == Stopped
    ensures var c := Store(lists, b.rows, b.origin); Sane(c) && RecoverRel(a, c, made, false)
  {
    var c := Store(lists, b.rows, b.origin);
    CutRel(a, b, i, lists);
    CutFailed(a, b, i, lists);
    hide PutBackRel, FailedRows, Troubles, RecoveredUpTo;
  }

  lemma CutRel(a: Store, b: Store, i: int, lists: Lists)
    requires Sane(b) && RecoveredUpTo(a, b, i) && i < |a.rows| && b.rows[i].result == Running
    ensures var c := Store(lists, b.rows, b.origin); Sane(c) && PutBackRel(a, c, false)
  {
    hide MapOf, Unique;
    assert IsRunning(a, i) && IsRunning(Store(lists, b.rows, b.origin), i);
  }

  lemma CutFailed(a: Store, b: Store, i: int, lists: Lists)
    requires RecoveredUpTo(a, b, i)
    ensures FailedRows(a, Store(lists, b.rows, b.origin), |a.rows|) == FailedRows(a, b, i)
  {
    hide MapOf;
    var c := Store(lists, b.rows, b.origin);
    FailedSame(a, b, c, i);
    FailedNoMore(a, c, i, |a.rows|);
  }

  lemma RecoverEnd(a: Store, b: Store, made: seq<Call>)
    requires RecoveredUpTo(a, b, |a.rows|) && FailedRows(a, b, |a.rows|) == Troubles(made)
    ensures RecoverRel(a, b, made, true)
  {
    hide MapOf, Troubles, FailedRows;
    forall i
      ensures !IsRunning(b, i)
    {
      if 0 <= i < |b.rows| && IsRunning(a, i) {
        assert b.rows[i].result in {Reverted, Failed};
      }
    }
    assert (forall i :: !IsRunning(a, i)) ==> forall j :: 0 <= j < |a.rows| ==> !IsRunning(a, j);
  }

  lemma {:induction false} FailedSame(a: Store, b: Store, c: Store, n: nat)
    requires n <= |a.rows| <= |b.rows| && |a.rows| <= |c.rows| && b.rows[..n] == c.rows[..n]
    ensures FailedRows(a, b, n) == FailedRows(a, c, n)
  {
    if n > 0 {
      assert b.rows[n - 1] == b.rows[..n][n - 1] == c.rows[n - 1];
      assert b.rows[..n - 1] == b.rows[..n][..n - 1] && c.rows[..n - 1] == c.rows[..n][..n - 1];
      FailedSame(a, b, c, n - 1);
    }
  }

  /** Rows that were not reached did not fail. */
  lemma {:induction false} FailedNoMore(a: Store, b: Store, i: nat, n: nat)
    requires i <= n <= |a.rows| <= |b.rows| && forall j :: i <= j < n ==> b.rows[j] == a.rows[j]
    ensures FailedRows(a, b, n) == FailedRows(a, b, i)
  {
    if i < n {
      FailedNoMore(a, b, i, n - 1);
    }
  }

  /** Beginning a row for a change. */
  lemma BeginRow(a: Store, b: Store, row: Row)
    requires Sane(b) && OthersKept(a, b, -1, true) && b.lists == a.lists
    requires Unique(row.snapshot) && MapOf(row.snapshot) == a.lists
    ensures var c, n := Store(b.lists, b.rows + [row], b.origin[|b.rows| := b.lists]), |b.rows|;
            Sane(c) && Begun(a, c, n) && OthersKept(a, c, n, true) && c.rows[n] == row
  {
    hide MapOf, Unique;
  }

  /** Finishing it. */
  lemma FinishRow(a: Store, b: Store, cid: int, result: Status, steps: seq<Step>)
    requires Sane(b) && Begun(a, b, cid) && OthersKept(a, b, cid, true)
    ensures var c := b.(rows := b.rows[cid := b.rows[cid].(result := result, steps := steps)]);
            Sane(c) && Begun(a, c, cid) && OthersKept(a, c, cid, true)
  {
    hide MapOf, Unique;
  }

  lemma RunNone(l: Lists)
    ensures RunOps(l, []) == Some(l)
  {
  }

  lemma OthersKeptRefl(a: Store)
    ensures OthersKept(a, a, -1, true)
  {
  }

  lemma ListsFree(a: Store, b: Store)
    requires Sane(a) && b == a.(lists := b.lists)
    ensures Sane(b) && OthersKept(a, b, -1, true)
  {
  }

  lemma OthersKeptTrans(a: Store, b: Store, c: Store, alive: bool)
    requires OthersKept(a, b, -1, true) && OthersKept(b, c, -1, alive)
    ensures OthersKept(a, c, -1, alive)
  {
  }

  /** A change's own row survives what happens elsewhere. */
  lemma RowKept(a: Store, b: Store, c: Store, row: int, alive: bool)
    requires Begun(a, b, row) && OthersKept(a, b, row, true) && OthersKept(b, c, -1, alive)
    ensures Begun(a, c, row) && OthersKept(a, c, row, alive) && c.rows[row] == b.rows[row]
  {
  }

  lemma FailureKept(a: seq<Step>, b: seq<Step>)
    requires a <= b && !AllOk(a)
    ensures !AllOk(b)
  {
    var i :| 0 <= i < |a| && !a[i].ok;
    assert b[i] == a[i];
  }

  // ---- every run ----

  /** A moment between events: the store, whether the process is up and serving, and the lists at the last moment it was. */
  datatype Node = Node(store: Store, up: bool, quiet: Lists)

  datatype Event =
    | Changed(ops: seq<Op>, validated: seq<Step>, waitParity: bool, made: seq<Call>, e: Ending, cid: int)
    | HeldBack(alive: bool)
    | GivenId(row: int, id: int)
    | Rebooted(made: seq<Call>, alive: bool)

  /** One event of a run. A process that stopped serves nothing before it has been started again and has recovered; the
      recovery may be cut short by another stop. */
  ghost predicate Follows(n: Node, ev: Event, n': Node) {
    && Sane(n'.store)
    && (match ev
        case Changed(ops, validated, waitParity, made, e, cid) =>
          && n.up && ChangeRel(n.store, n'.store, ops, Passed(validated, waitParity), e, cid)
          && Answered(made, ops, waitParity, e, StepsOf(n'.store, cid)) && n'.up == (e != Died)
        case HeldBack(alive) => n.up && n'.store.lists == n.store.lists && OthersKept(n.store, n'.store, -1, alive) && n'.up == alive
        case GivenId(row, id) => n.up && n'.store == Labelled(n.store, row, Some(id)) && n'.up
        case Rebooted(made, alive) => !n.up && RecoverRel(n.store, n'.store, made, alive) && n'.up == alive)
    && n'.quiet == if n'.up then n'.store.lists else n.quiet
  }

  /** An exception that is not an AdGuard error left the restore of a change. */
  predicate Escapes(ev: Event) {
    ev.Changed? && ev.e == Escaped
  }

  /** No process stopped between the two writes of a held refresh: every running row was begun by a change. */
  ghost predicate HoldsFinished(n: Node) {
    forall i :: IsRunning(n.store, i) ==> i in n.store.origin
  }

  ghost predicate Inv(n: Node) {
    && Sane(n.store)
    && (n.up ==> n.store.lists == n.quiet && forall i :: !IsRunning(n.store, i))
    && (forall i, j :: IsRunning(n.store, i) && IsRunning(n.store, j) ==> i == j)
    && (forall i :: IsRunning(n.store, i) ==> i in n.store.origin && n.store.origin[i] == n.quiet)
    && ((forall i :: !IsRunning(n.store, i)) ==> n.store.lists == n.quiet)
  }

  ghost predicate HasResult(s: Store, i: int, result: Status) {
    0 <= i < |s.rows| && s.rows[i].result == result
  }

  /** What the safety net promises about one event: a change that comes back restored, and a recovery that succeeds, give
      back the lists as they were when the process was last up; a recovery that does not succeed says so. */
  ghost predicate Promise(n: Node, ev: Event, n': Node) {
    match ev
    case Changed(ops, validated, waitParity, made, e, cid) =>
      && (e == Ended(Applied) <==> e.Ended? && made == [Read(Done)] + Good(ops, waitParity))
      && (e == Ended(Reverted) ==> exists m :: SpoiledAt(made, m) && (Untroubled(made[m..]) ==> n'.store.lists == n.store.lists))
      && (e.Ended? ==> 0 <= cid < |n'.store.rows| && n'.store.rows[cid].result == e.result)
      && (e == Ended(Applied) ==> AllOk(n'.store.rows[cid].steps) && RunOps(n.store.lists, ops) == Some(n'.store.lists))
      && (e.Ended? && e.result != Applied ==>
            !AllOk(n'.store.rows[cid].steps) && (Restored(n'.store.rows[cid].steps) ==> n'.store.lists == n.store.lists))
      && (e.Busy? || e.Unreachable? ==> n'.store.lists == n.store.lists)
    case HeldBack(_) => n'.store.lists == n.store.lists
    case GivenId(_, _) => n'.store.lists == n.store.lists
    case Rebooted(made, alive) =>
      && (alive ==> n'.store.lists == n.quiet || exists i :: IsRunning(n.store, i) && HasResult(n'.store, i, Failed))
      && (alive && (forall c :: c in made ==> c.o == Done) ==> n'.store.lists == n.quiet)
  }

  /** One event keeps the invariant if and only if it neither is such an escape nor cuts a held refresh in two. */
  lemma EventKeeps(n: Node, ev: Event, n': Node)
    requires Inv(n) && Follows(n, ev, n')
    ensures Inv(n') <==> HoldsFinished(n') && !Escapes(ev)
    ensures HoldsFinished(n') && !Escapes(ev) ==> Promise(n, ev, n')
  {
    hide MapOf, Unique, RunOps, AllOk, Restored;
    if Escapes(ev) {
      assert IsRunning(n'.store, ev.cid);
    } else if HoldsFinished(n') {
      KeptByEvent(n, ev, n');
    }
  }

  lemma KeptByEvent(n: Node, ev: Event, n': Node)
    requires Inv(n) && Follows(n, ev, n') && HoldsFinished(n') && !Escapes(ev)
    ensures Inv(n') && Promise(n, ev, n')
  {
    match ev
    case Changed(_, _, _, _, _, _) =>
      hide *;
      ChangeKeeps(n, ev, n');
      ChangeAnswered(n, ev, n');
    case HeldBack(alive) =>
      hide MapOf, Unique, RunOps, AllOk, Restored;
      assert forall i :: IsRunning(n'.store, i) ==> i in n'.store.origin && i in n.store.origin;
      assert forall i :: IsRunning(n'.store, i) ==> IsRunning(n.store, i);
    case GivenId(row, id) =>
      hide MapOf, Unique, RunOps, AllOk, Restored;
      assert forall i :: IsRunning(n'.store, i) ==> IsRunning(n.store, i);
    case Rebooted(made, alive) =>
      hide *;
      RebootKeeps(n, made, alive, n');
  }

  lemma ChangeKeeps(n: Node, ev: Event, n': Node)
    requires ev.Changed? && Inv(n) && Follows(n, ev, n') && HoldsFinished(n') && !Escapes(ev)
    ensures Inv(n')
  {
    hide MapOf, Unique, RunOps, AllOk, Restored, Answered;
    var a, b, cid := n.store, n'.store, ev.cid;
    assert forall i :: IsRunning(b, i) ==> i in b.origin && (i == cid || i in a.origin);
    assert forall i :: IsRunning(b, i) && i != cid ==> IsRunning(a, i);
    if ev.e == Died && cid != -1 {
      assert IsRunning(b, cid);
    }
  }

  lemma ChangeAnswered(n: Node, ev: Event, n': Node)
    requires ev.Changed? && Follows(n, ev, n')
    ensures Promise(n, ev, n')
  {
    hide MapOf, Unique, RunOps, AllOk, Restored, Spoiled, Untroubled, Good, Sane, OthersKept;
  }

  lemma RebootKeeps(n: Node, made: seq<Call>, alive: bool, n': Node)
    requires Inv(n) && Follows(n, Rebooted(made, alive), n')
    ensures Inv(n') && Promise(n, Rebooted(made, alive), n')
  {
    hide MapOf, Unique, FailedRows, Troubles;
    if forall c :: c in made ==> c.o == Done {
      NoTrouble(made);
      NoneFailed(n.store, n'.store, |n.store.rows|);
    }
    var a, b := n.store, n'.store;
    if i :| IsRunning(a, i) {
      assert LastRunning(a, i);
      if alive {
        assert !IsRunning(b, i);
        if b.rows[i].result == Reverted {
          assert b.lists == MapOf(a.rows[i].snapshot) == a.origin[i] == n.quiet;
        } else {
          assert HasResult(b, i, Failed);
        }
      }
      assert forall j :: IsRunning(b, j) ==> IsRunning(a, j);
    } else {
      assert forall j :: IsRunning(b, j) ==> IsRunning(a, j);
    }
  }

  lemma {:induction false} NoTrouble(calls: seq<Call>)
    requires forall c :: c in calls ==> c.o == Done
    ensures Troubles(calls) == 0
  {
    if calls != [] {
      NoTrouble(calls[..|calls| - 1]);
    }
  }

  lemma {:induction false} NoneFailed(a: Store, b: Store, n: nat)
    requires n <= |a.rows| <= |b.rows| && FailedRows(a, b, n) == 0
    ensures forall i :: 0 <= i < n && IsRunning(a, i) ==> b.rows[i].result != Failed
  {
    if n > 0 {
      NoneFailed(a, b, n - 1);
    }
  }

  ghost predicate IsRun(nodes: seq<Node>, events: seq<Event>) {
    && |nodes| == |events| + 1
    && nodes[0].up && nodes[0].store.lists == nodes[0].quiet && Sane(nodes[0].store)
    && (forall i :: !IsRunning(nodes[0].store, i))
    && (forall k :: 0 <= k < |events| ==> Follows(nodes[k], events[k], nodes[k + 1]))
  }

  /** No stop falls between the two writes of a held refresh, and no exception escapes a restore. */
  ghost predicate Clean(nodes: seq<Node>, events: seq<Event>) {
    (forall k :: 0 <= k < |nodes| ==> HoldsFinished(nodes[k])) && (forall k :: 0 <= k < |events| ==> !Escapes(events[k]))
  }

  ghost predicate InvThroughout(nodes: seq<Node>) {
    forall k :: 0 <= k < |nodes| ==> Inv(nodes[k])
  }

  /** In a run with stops anywhere, the invariant - at most one row is ever running, it was begun by a change and stores the
      lists of the moment before that change, and none is running while requests are served - holds throughout if and only
      if the run is clean; and then every event keeps its promise. */
  lemma EveryRun(nodes: seq<Node>, events: seq<Event>)
    requires IsRun(nodes, events)
    ensures InvThroughout(nodes) <==> Clean(nodes, events)
    ensures Clean(nodes, events) ==> forall k :: 0 <= k < |events| ==> PromiseAt(nodes, events, k)
  {
    hide Inv, Follows, HoldsFinished, Promise, Escapes, IsRunning, Sane;
    if Clean(nodes, events) {
      forall k | 0 <= k < |nodes|
        ensures Inv(nodes[k])
      {
        InvAt(nodes, events, k);
      }
      forall k | 0 <= k < |events|
        ensures PromiseAt(nodes, events, k)
      {
        RunStep(nodes, events, k);
        EventKeeps(nodes[k], events[k], nodes[k + 1]);
      }
    }
    if InvThroughout(nodes) {
      forall k | 0 <= k < |nodes|
        ensures HoldsFinished(nodes[k])
      {
        InvHolds(nodes[k]);
      }
      forall k | 0 <= k < |events|
        ensures !Escapes(events[k])
      {
        RunStep(nodes, events, k);
        EventKeeps(nodes[k], events[k], nodes[k + 1]);
      }
    }
  }

  lemma InvHolds(n: Node)
    requires Inv(n)
    ensures HoldsFinished(n)
  {
  }

  lemma {:induction false} InvAt(nodes: seq<Node>, events: seq<Event>, k: nat)
    requires IsRun(nodes, events) && Clean(nodes, events) && k < |nodes|
    ensures Inv(nodes[k])
  {
    hide Inv, Follows, HoldsFinished, Escapes, IsRun, Clean, Promise, IsRunning, Sane;
    if k == 0 {
      StartsWell(nodes, events);
    } else {
      InvAt(nodes, events, k - 1);
      assert |nodes| == |events| + 1 by { RunLength(nodes, events); }
      RunStep(nodes, events, k - 1);
      CleanAt(nodes, events, k - 1);
      EventKeeps(nodes[k - 1], events[k - 1], nodes[k]);
    }
  }

  lemma RunLength(nodes: seq<Node>, events: seq<Event>)
    requires IsRun(nodes, events)
    ensures |nodes| == |events| + 1
  {
  }

  lemma CleanAt(nodes: seq<Node>, events: seq<Event>, k: nat)
    requires Clean(nodes, events) && k < |events| && |nodes| == |events| + 1
    ensures HoldsFinished(nodes[k + 1]) && !Escapes(events[k])
  {
  }

  ghost predicate PromiseAt(nodes: seq<Node>, events: seq<Event>, k: nat)
    requires |nodes| == |events| + 1 && k < |events|
  {
    Promise(nodes[k], events[k], nodes[k + 1])
  }

  lemma RunStep(nodes: seq<Node>, events: seq<Event>, k: nat)
    requires IsRun(nodes, events) && k < |events|
    ensures |nodes| == |events| + 1 && Follows(nodes[k], events[k], nodes[k + 1])
  {
    hide Follows, Sane;
  }

  lemma StartsWell(nodes: seq<Node>, events: seq<Event>)
    requires IsRun(nodes, events)
    ensures Inv(nodes[0])
  {
    hide Follows, Sane;
  }

  /** Without that condition the recovery is wrong: a stop between the two writes of a held refresh leaves a running row
      with an empty snapshot, and recovering it removes every list the house has. */
  lemma HeldStopEmptiesLists(a: Store, b: Store, made: seq<Call>, k: int)
    requires Sane(a) && RecoverRel(a, b, made, true) && LastRunning(a, k) && k !in a.origin && HasResult(b, k, Reverted)
    ensures b.lists == map[]
  {
  }

  /** One such run: a single enabled list, a held refresh cut short, and the recovery that follows. */
  lemma HeldStopExample()
    ensures var oisd := map["https://small.oisd.nl" := Entry("OISD", true)];
            var cut := Store(oisd, [Row(RefreshLists, Some(5), Running, [], [])], map[]);
            var recovered := Store(map[], [Row(RefreshLists, Some(5), Reverted, [Step(Revert, true)], [])], map[]);
            && Follows(Node(Store(oisd, [], map[]), true, oisd), HeldBack(false), Node(cut, false, oisd))
            && Follows(Node(cut, false, oisd), Rebooted([Read(Done), Operated(RemoveOp("https://small.oisd.nl"), Done)], true),
                       Node(recovered, true, map[]))
  {
    HeldRecovered();
  }

  lemma HeldRecovered()
    ensures var oisd := map["https://small.oisd.nl" := Entry("OISD", true)];
            var cut := Store(oisd, [Row(RefreshLists, Some(5), Running, [], [])], map[]);
            var recovered := Store(map[], [Row(RefreshLists, Some(5), Reverted, [Step(Revert, true)], [])], map[]);
            RecoverRel(cut, recovered, [Read(Done), Operated(RemoveOp("https://small.oisd.nl"), Done)], true)
  {
    var oisd := map["https://small.oisd.nl" := Entry("OISD", true)];
    var cut := Store(oisd, [Row(RefreshLists, Some(5), Running, [], [])], map[]);
    var recovered := Store(map[], [Row(RefreshLists, Some(5), Reverted, [Step(Revert, true)], [])], map[]);
    assert IsRunning(cut, 0);
    NoTrouble([Read(Done), Operated(RemoveOp("https://small.oisd.nl"), Done)]);
    assert FailedRows(cut, recovered, 1) == FailedRows(cut, recovered, 0);
  }

  // ---- the escape ----

  function Oisd(): Lists {
    map["https://small.oisd.nl" := Entry("OISD", true)]
  }

  function WithAds(): Lists {
    Oisd()["https://ads" := Entry("Ads", true)]
  }

  /** A change of the list, begun with it as the only one. */
  function OisdRow(result: Status, steps: seq<Step>): Row {
    Row(RemoveList, Some(5), result, steps, [FList(5, "https://small.oisd.nl", "OISD", true)])
  }

  lemma OisdSnapshot()
    ensures MapOf([FList(5, "https://small.oisd.nl", "OISD", true)]) == Oisd() && Unique([FList(5, "https://small.oisd.nl", "OISD", true)])
  {
    var s := [FList(5, "https://small.oisd.nl", "OISD", true)];
    assert s[..0] == [];
    assert MapOf(s[..0]) == map[];
  }

  /** A reading, a measurement that raises, and in the restore a reading that raises as well. */
  const BROKEN := [Read(Done), Measured(Raised), Read(Raised)]

  const ADDED := [Read(Done)] + Good([AddOp("Ads", "https://ads")], true)

  const TAKEN_BACK := [Read(Done), Operated(RemoveOp("https://ads"), Done)]

  lemma BrokenSpoiled()
    ensures SpoiledAt(BROKEN, 2)
  {
    assert BROKEN[..2] == [Read(Done), Measured(Raised)];
    assert BROKEN[..2][..1] == [Read(Done)];
  }

  /** A run in which exceptions escape two restores in turn: two rows are running, with the gateway up. */
  lemma TwoRunningExample()
    ensures var a, r := Oisd(), OisdRow(Running, []);
            var none, one, two := Store(a, [], map[]), Store(a, [r], map[0 := a]), Store(a, [r, r], map[0 := a, 1 := a]);
            var removed := Changed([RemoveOp("https://small.oisd.nl")], [Step(Validate, true)], true, BROKEN, Escaped, 0);
            && Follows(Node(none, true, a), removed, Node(one, true, a))
            && Follows(Node(one, true, a), removed.(cid := 1), Node(two, true, a))
            && IsRunning(two, 0) && IsRunning(two, 1)
  {
    BrokenSpoiled();
    hide Spoiled;
    OisdSnapshot();
  }

  const PASSED := Passed([Step(Validate, true)], true)

  function EscapedStore(): Store {
    Store(Oisd(), [OisdRow(Running, [])], map[0 := Oisd()])
  }

  function SecondStore(): Store {
    Store(WithAds(), [OisdRow(Running, []), OisdRow(Applied, PASSED)], map[0 := Oisd(), 1 := Oisd()])
  }

  function TakenBackStore(): Store {
    Store(Oisd(), [OisdRow(Reverted, [Step(Revert, true)]), OisdRow(Applied, PASSED)], map[0 := Oisd(), 1 := Oisd()])
  }

  lemma EscapeFirst()
    ensures Follows(Node(Store(Oisd(), [], map[]), true, Oisd()), Changed([RemoveOp("https://small.oisd.nl")], [Step(Validate, true)], true, BROKEN, Escaped, 0),
                    Node(EscapedStore(), true, Oisd()))
  {
    BrokenSpoiled();
    hide Spoiled;
    OisdSnapshot();
  }

  lemma ApplySecond()
    ensures Follows(Node(EscapedStore(), true, Oisd()), Changed([AddOp("Ads", "https://ads")], [Step(Validate, true)], true, ADDED, Ended(Applied), 1),
                    Node(SecondStore(), true, WithAds()))
  {
    OisdSnapshot();
    RunOne(Oisd(), AddOp("Ads", "https://ads"));
    assert AllOk(PASSED);
    hide MapOf, Unique, RunOps, AllOk;
  }

  lemma NoneFailedBack()
    ensures FailedRows(SecondStore(), TakenBackStore(), 2) == 0
  {
    hide MapOf, Unique, Oisd, WithAds;
    var a, b := SecondStore(), TakenBackStore();
    assert FailedRows(a, b, 1) == 0;
  }

  lemma TakeBackSecond()
    ensures Follows(Node(SecondStore(), false, WithAds()), Rebooted(TAKEN_BACK, true), Node(TakenBackStore(), true, Oisd()))
  {
    OisdSnapshot();
    NoTrouble(TAKEN_BACK);
    NoneFailedBack();
    hide Troubles, FailedRows;
    hide MapOf, Unique, Oisd, WithAds;
    var a := SecondStore();
    assert IsRunning(a, 0) && !IsRunning(a, 1);
  }

  lemma StopBetween()
    ensures Follows(Node(SecondStore(), true, WithAds()), Changed([], [], true, [Read(Stopped)], Died, -1), Node(SecondStore(), false, WithAds()))
  {
    OisdSnapshot();
  }

  /** A run in which an exception escapes the restore of one change, a second one is applied, and after a stop the recovery
      of the first takes the second back, although its row says applied. */
  lemma EscapeExample()
    ensures var n0, n1, n2 := Node(Store(Oisd(), [], map[]), true, Oisd()), Node(EscapedStore(), true, Oisd()), Node(SecondStore(), true, WithAds());
            var n3, n4 := Node(SecondStore(), false, WithAds()), Node(TakenBackStore(), true, Oisd());
            && Follows(n0, Changed([RemoveOp("https://small.oisd.nl")], [Step(Validate, true)], true, BROKEN, Escaped, 0), n1)
            && Follows(n1, Changed([AddOp("Ads", "https://ads")], [Step(Validate, true)], true, ADDED, Ended(Applied), 1), n2)
            && Follows(n2, Changed([], [], true, [Read(Stopped)], Died, -1), n3)
            && Follows(n3, Rebooted(TAKEN_BACK, true), n4)
            && n4.store.rows[1].result == Applied && n4.store.lists != n2.store.lists
  {
    EscapeFirst();
    ApplySecond();
    TakeBackSecond();
    hide Follows;
    StopBetween();
    assert "https://ads" in WithAds() && "https://ads" !in Oisd();
  }
}
