/** The lists of the DNS filter and the operations on them (portal/gateway/gw/filterlists.py): what one operation does,
    and the operations that turn one state into another. */
module FilterDiff {
  import opened Wrappers

  datatype Entry = Entry(name: string, enabled: bool)

  /** AdGuard's lists: every URL at most once. */
  type Lists = map<string, Entry>

  /** One element of the list AdGuard reports, and of a stored snapshot. */
  datatype FList = FList(id: int, url: string, name: string, enabled: bool)

  datatype Op =
    | AddOp(name: string, url: string)
    | SetOp(name: string, url: string, enabled: bool)
    | RemoveOp(url: string)
    | RefreshOp

  // ---- what the operations do ----

  predicate Applicable(l: Lists, op: Op) {
    match op
    case AddOp(_, url) => url !in l
    case SetOp(_, url, _) => url in l
    case RemoveOp(url) => url in l
    case RefreshOp => true
  }

  function Effect(l: Lists, op: Op): Lists {
    match op
    case AddOp(name, url) => l[url := Entry(name, true)]
    case SetOp(name, url, enabled) => l[url := Entry(name, enabled)]
    case RemoveOp(url) => l - {url}
    case RefreshOp => l
  }

  /** Running operations in order; None when one of them is not applicable at its turn. */
  function RunOps(l: Lists, ops: seq<Op>): Option<Lists>
    decreases |ops|
  {
    if ops == [] then Some(l)
    else if !Applicable(l, ops[0]) then None
    else RunOps(Effect(l, ops[0]), ops[1..])
  }

  lemma {:induction false} RunConcat(l: Lists, a: seq<Op>, b: seq<Op>)
    requires RunOps(l, a).Some?
    ensures RunOps(l, a + b) == RunOps(RunOps(l, a).value, b)
    decreases |a|
  {
    if a == [] {
      assert a + b == b;
    } else {
      assert (a + b)[0] == a[0] && (a + b)[1..] == a[1..] + b;
      RunConcat(Effect(l, a[0]), a[1..], b);
    }
  }

  lemma RunOne(l: Lists, op: Op)
    ensures RunOps(l, [op]) == if Applicable(l, op) then Some(Effect(l, op)) else None
  {
    assert [op][1..] == [];
  }

  // ---- lists and snapshots ----

  predicate Unique(s: seq<FList>) {
    forall i, j :: 0 <= i < j < |s| ==> s[i].url != s[j].url
  }

  function EntryOf(l: FList): Entry {
    Entry(l.name, l.enabled)
  }

  function MapOf(s: seq<FList>): Lists {
    if s == [] then map[] else MapOf(s[..|s| - 1])[s[|s| - 1].url := EntryOf(s[|s| - 1])]
  }

  predicate HasUrl(s: seq<FList>, url: string) {
    exists i :: 0 <= i < |s| && s[i].url == url
  }

  lemma {:induction false} MapOfKeys(s: seq<FList>)
    ensures forall url :: url in MapOf(s) <==> HasUrl(s, url)
  {
    if s != [] {
      var n := |s| - 1;
      MapOfKeys(s[..n]);
      forall url
        ensures url in MapOf(s) <==> HasUrl(s, url)
      {
        if HasUrl(s[..n], url) {
          var i :| 0 <= i < n && s[..n][i].url == url;
          assert s[i].url == url;
        }
        if HasUrl(s, url) {
          var i :| 0 <= i < |s| && s[i].url == url;
          if i < n {
            assert s[..n][i].url == url;
          }
        }
        assert s[n].url == url ==> HasUrl(s, url);
      }
    }
  }

  lemma {:induction false} MapOfAt(s: seq<FList>, i: nat)
    requires Unique(s) && i < |s|
    ensures s[i].url in MapOf(s) && MapOf(s)[s[i].url] == EntryOf(s[i])
  {
    var n := |s| - 1;
    if i < n {
      MapOfAt(s[..n], i);
      assert s[..n][i] == s[i];
    }
  }

  // ---- diff_ops ----

  /** only_url restricts the difference to one list; None and the empty string restrict nothing. */
  predicate Selected(only: Option<string>, url: string) {
    only.None? || only.value == "" || only.value == url
  }

  function Update(cur: Lists, l: FList, only: Option<string>): seq<Op> {
    if !Selected(only, l.url) then []
    else if l.url !in cur then
      [AddOp(l.name, l.url)] + (if !l.enabled then [SetOp(l.name, l.url, false)] else [])
    else if cur[l.url] != EntryOf(l) then [SetOp(l.name, l.url, l.enabled)]
    else []
  }

  function Updates(cur: Lists, desired: seq<FList>, only: Option<string>): seq<Op> {
    if desired == [] then []
    else Updates(cur, desired[..|desired| - 1], only) + Update(cur, desired[|desired| - 1], only)
  }

  function Removal(want: Lists, l: FList, only: Option<string>): seq<Op> {
    if Selected(only, l.url) && l.url !in want then [RemoveOp(l.url)] else []
  }

  function Removals(want: Lists, current: seq<FList>, only: Option<string>): seq<Op> {
    if current == [] then []
    else Removals(want, current[..|current| - 1], only) + Removal(want, current[|current| - 1], only)
  }

  function Diff(current: seq<FList>, desired: seq<FList>, only: Option<string>): seq<Op> {
    Updates(MapOf(current), desired, only) + Removals(MapOf(desired), current, only)
  }

  /** diff_ops as the source writes it: two loops that append to one list of operations. */
  method DiffOps(current: seq<FList>, desired: seq<FList>, only: Option<string>) returns (ops: seq<Op>)
    ensures ops == Diff(current, desired, only)
  {
    hide MapOf, Updates, Removals;
    var cur, want := MapOf(current), MapOf(desired);
    ops := [];
    EmptyPrefixes(cur, want, current, desired, only);
    for i := 0 to |desired|
      invariant ops == Updates(cur, desired[..i], only)
    {
      var l := desired[i];
      PrefixSteps(cur, desired, i, only);
      if Selected(only, l.url) {
        if l.url !in cur {
          ops := ops + [AddOp(l.name, l.url)];
          if !l.enabled {
            ops := ops + [SetOp(l.name, l.url, false)];
          }
        } else if cur[l.url] != EntryOf(l) {
          ops := ops + [SetOp(l.name, l.url, l.enabled)];
        }
      }
    }
    assert desired[..|desired|] == desired;
    for j := 0 to |current|
      invariant ops == Updates(cur, desired, only) + Removals(want, current[..j], only)
    {
      var l := current[j];
      PrefixSteps(want, current, j, only);
      if Selected(only, l.url) && l.url !in want {
        ops := ops + [RemoveOp(l.url)];
      }
    }
    assert current[..|current|] == current;
  }

  lemma EmptyPrefixes(cur: Lists, want: Lists, current: seq<FList>, desired: seq<FList>, only: Option<string>)
    ensures Updates(cur, desired[..0], only) == [] && Removals(want, current[..0], only) == []
  {
  }

  lemma PrefixSteps(l: Lists, s: seq<FList>, i: nat, only: Option<string>)
    requires i < |s|
    ensures Updates(l, s[..i + 1], only) == Updates(l, s[..i], only) + Update(l, s[i], only)
    ensures Removals(l, s[..i + 1], only) == Removals(l, s[..i], only) + Removal(l, s[i], only)
  {
    assert s[..i + 1][..i] == s[..i];
  }

  // ---- the difference leads from one state to the other ----

  /** What the difference is for: the whole desired state, or the current one with a single list as desired. */
  function Target(cur: Lists, want: Lists, only: Option<string>): Lists {
    if only.None? || only.value == "" then want
    else if only.value in want then cur[only.value := want[only.value]]
    else cur - {only.value}
  }

  /** The selected part of a state. */
  function Chosen(l: Lists, only: Option<string>): Lists {
    map url | url in l && Selected(only, url) :: l[url]
  }

  lemma {:induction false} UpdatesRun(cur: Lists, desired: seq<FList>, only: Option<string>)
    requires Unique(desired)
    ensures RunOps(cur, Updates(cur, desired, only)) == Some(cur + Chosen(MapOf(desired), only))
  {
    if desired == [] {
      assert cur + Chosen(MapOf(desired), only) == cur;
    } else {
      var n := |desired| - 1;
      var l, rest := desired[n], desired[..n];
      UpdatesRun(cur, rest, only);
      MapOfKeys(rest);
      assert !HasUrl(rest, l.url);
      var before := cur + Chosen(MapOf(rest), only);
      ChosenUpdate(cur, MapOf(rest), l.url, EntryOf(l), only);
      hide RunOps, Update, Chosen, MapOf, Unique, HasUrl;
      UpdateRuns(cur, before, l, only);
      RunConcat(cur, Updates(cur, rest, only), Update(cur, l, only));
    }
  }

  lemma ChosenUpdate(cur: Lists, m: Lists, url: string, e: Entry, only: Option<string>)
    requires url !in m
    ensures var before := cur + Chosen(m, only);
            && (url in before <==> url in cur)
            && (url in cur ==> before[url] == cur[url])
            && cur + Chosen(m[url := e], only) == if Selected(only, url) then before[url := e] else before
  {
  }

  /** One list's operations bring it to its desired entry, in a state that agrees with the current one on that list. */
  lemma UpdateRuns(cur: Lists, now: Lists, l: FList, only: Option<string>)
    requires l.url in now <==> l.url in cur
    requires l.url in cur ==> now[l.url] == cur[l.url]
    ensures RunOps(now, Update(cur, l, only)) == Some(if Selected(only, l.url) then now[l.url := EntryOf(l)] else now)
  {
    if Selected(only, l.url) {
      if l.url !in cur {
        RunOne(now, AddOp(l.name, l.url));
        var added := now[l.url := Entry(l.name, true)];
        if !l.enabled {
          RunOne(added, SetOp(l.name, l.url, false));
          RunConcat(now, [AddOp(l.name, l.url)], [SetOp(l.name, l.url, false)]);
          assert added[l.url := Entry(l.name, false)] == now[l.url := EntryOf(l)];
        } else {
          assert [AddOp(l.name, l.url)] + [] == [AddOp(l.name, l.url)];
        }
      } else if cur[l.url] != EntryOf(l) {
        RunOne(now, SetOp(l.name, l.url, l.enabled));
      } else {
        assert now[l.url := EntryOf(l)] == now;
      }
    }
  }

  /** The URLs of a list that the difference removes. */
  function Doomed(want: Lists, current: seq<FList>, only: Option<string>): set<string> {
    set l | l in current && Selected(only, l.url) && l.url !in want :: l.url
  }

  lemma {:induction false} RemovalsRun(start: Lists, want: Lists, current: seq<FList>, only: Option<string>)
    requires Unique(current)
    requires forall i :: 0 <= i < |current| ==> current[i].url in start
    ensures RunOps(start, Removals(want, current, only)) == Some(start - Doomed(want, current, only))
  {
    if current == [] {
      assert Doomed(want, current, only) == {};
      assert start - {} == start;
    } else {
      var n := |current| - 1;
      var l, rest := current[n], current[..n];
      RemovalsRun(start, want, rest, only);
      var before := start - Doomed(want, rest, only);
      assert l.url !in Doomed(want, rest, only);
      RunConcat(start, Removals(want, rest, only), Removal(want, l, only));
      if Selected(only, l.url) && l.url !in want {
        RunOne(before, RemoveOp(l.url));
        DoomedStep(want, current, only);
        assert before - {l.url} == start - Doomed(want, current, only);
      } else {
        DoomedStep(want, current, only);
        assert Doomed(want, rest, only) + {} == Doomed(want, rest, only);
      }
    }
  }

  lemma DoomedStep(want: Lists, current: seq<FList>, only: Option<string>)
    requires current != []
    ensures var last := current[|current| - 1];
            Doomed(want, current, only)
            == Doomed(want, current[..|current| - 1], only) + (if Removal(want, last, only) != [] then {last.url} else {})
  {
    var last, rest := current[|current| - 1], current[..|current| - 1];
    assert current == rest + [last];
    forall l | l in current && Selected(only, l.url) && l.url !in want
      ensures l.url in Doomed(want, rest, only) || (l == last && Removal(want, last, only) != [])
    {
    }
    forall l | l in rest && Selected(only, l.url) && l.url !in want
      ensures l in current
    {
    }
    if Removal(want, last, only) != [] {
      assert last in current;
      assert last.url in Doomed(want, current, only);
    }
  }

  /** diff_ops never emits an operation that is not applicable at its turn, and leads to the target: the desired state,
      or - with only_url - the desired state of that one list with every other list untouched. */
  lemma DiffReaches(current: seq<FList>, desired: seq<FList>, only: Option<string>)
    requires Unique(current) && Unique(desired)
    ensures RunOps(MapOf(current), Diff(current, desired, only)) == Some(Target(MapOf(current), MapOf(desired), only))
  {
    var cur, want := MapOf(current), MapOf(desired);
    var middle := cur + Chosen(want, only);
    UpdatesRun(cur, desired, only);
    MapOfKeys(current);
    forall i | 0 <= i < |current|
      ensures current[i].url in middle
    {
      MapOfAt(current, i);
    }
    hide RunOps, MapOf, Updates, Removals, Chosen, Target, Doomed, Unique, HasUrl;
    RemovalsRun(middle, want, current, only);
    RunConcat(cur, Updates(cur, desired, only), Removals(want, current, only));
    DoomedUrls(want, current, only);
    TargetReached(cur, want, only, Doomed(want, current, only));
  }

  lemma DoomedUrls(want: Lists, current: seq<FList>, only: Option<string>)
    ensures forall url :: url in Doomed(want, current, only) <==> url in MapOf(current) && Selected(only, url) && url !in want
  {
    MapOfKeys(current);
    forall url
      ensures url in Doomed(want, current, only) <==> url in MapOf(current) && Selected(only, url) && url !in want
    {
      if url in MapOf(current) && Selected(only, url) && url !in want {
        var i :| 0 <= i < |current| && current[i].url == url;
        assert current[i] in current;
      }
    }
  }

  lemma TargetReached(cur: Lists, want: Lists, only: Option<string>, doomed: set<string>)
    requires forall url :: url in doomed <==> url in cur && Selected(only, url) && url !in want
    ensures cur + Chosen(want, only) - doomed == Target(cur, want, only)
  {
    var l, r := cur + Chosen(want, only) - doomed, Target(cur, want, only);
    assert forall url :: url in l <==> url in r;
    assert forall url :: url in l ==> l[url] == r[url];
  }

  /** The difference is empty exactly when there is nothing to do. */
  lemma DiffEmpty(current: seq<FList>, desired: seq<FList>, only: Option<string>)
    requires Unique(current) && Unique(desired)
    ensures Diff(current, desired, only) == [] <==> Target(MapOf(current), MapOf(desired), only) == MapOf(current)
  {
    var cur, want := MapOf(current), MapOf(desired);
    DiffReaches(current, desired, only);
    if Target(cur, want, only) == cur {
      forall i | 0 <= i < |desired|
        ensures Update(cur, desired[i], only) == []
      {
        MapOfAt(desired, i);
      }
      NoUpdates(cur, desired, only);
      forall i | 0 <= i < |current|
        ensures Removal(want, current[i], only) == []
      {
        MapOfAt(current, i);
      }
      NoRemovals(want, current, only);
    }
  }

  lemma {:induction false} NoUpdates(cur: Lists, desired: seq<FList>, only: Option<string>)
    requires forall i :: 0 <= i < |desired| ==> Update(cur, desired[i], only) == []
    ensures Updates(cur, desired, only) == []
  {
    if desired != [] {
      NoUpdates(cur, desired[..|desired| - 1], only);
    }
  }

  lemma {:induction false} NoRemovals(want: Lists, current: seq<FList>, only: Option<string>)
    requires forall i :: 0 <= i < |current| ==> Removal(want, current[i], only) == []
    ensures Removals(want, current, only) == []
  {
    if current != [] {
      NoRemovals(want, current[..|current| - 1], only);
    }
  }
}
