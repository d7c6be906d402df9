/** Schedule windows of the watcher (_system/ha-alerts/ha-alerts.py): merging them, what is expected at a minute, and the
    most recent edge. */
module Windows {

  /** Minutes of a day: from start up to, not including, end. */
  datatype Window = Window(start: int, end: int)

  const DAY := 1440

  /** A list of windows of one day, each not empty. */
  predicate InDay(wins: seq<Window>) {
    forall w :: w in wins ==> 0 <= w.start < w.end <= DAY
  }

  predicate Covers(wins: seq<Window>, minute: int) {
    exists w :: w in wins && w.start <= minute < w.end
  }

  // ---- sorted() ----

  /** Python's order of pairs. */
  predicate Before(a: Window, b: Window) {
    a.start < b.start || (a.start == b.start && a.end <= b.end)
  }

  predicate Sorted(wins: seq<Window>) {
    forall i, j :: 0 <= i < j < |wins| ==> Before(wins[i], wins[j])
  }

  function Insert(w: Window, wins: seq<Window>): (r: seq<Window>)
    ensures forall x :: x in r <==> x == w || x in wins
  {
    if wins == [] then [w] else if Before(w, wins[0]) then [w] + wins else [wins[0]] + Insert(w, wins[1..])
  }

  function Sort(wins: seq<Window>): (r: seq<Window>)
    ensures forall x :: x in r <==> x in wins
  {
    if wins == [] then [] else Insert(wins[0], Sort(wins[1..]))
  }

  lemma SortedCons(w: Window, rest: seq<Window>)
    requires Sorted(rest) && forall x :: x in rest ==> Before(w, x)
    ensures Sorted([w] + rest)
  {
  }

  lemma {:induction false} InsertSorted(w: Window, wins: seq<Window>)
    requires Sorted(wins)
    ensures Sorted(Insert(w, wins))
  {
    if wins != [] {
      if Before(w, wins[0]) {
        SortedCons(w, wins);
      } else {
        InsertSorted(w, wins[1..]);
        SortedCons(wins[0], Insert(w, wins[1..]));
      }
    }
  }

  lemma {:induction false} SortSorts(wins: seq<Window>)
    ensures Sorted(Sort(wins))
  {
    if wins != [] {
      SortSorts(wins[1..]);
      InsertSorted(wins[0], Sort(wins[1..]));
    }
  }

  // ---- _merge_windows ----

  /** Sorted, apart from each other by at least a minute, and not empty. */
  predicate Separate(wins: seq<Window>) {
    && (forall i :: 0 <= i < |wins| ==> wins[i].start < wins[i].end)
    && (forall i, j :: 0 <= i < j < |wins| ==> wins[i].end < wins[j].start)
  }

  /** The last window, which w starts in or right after, with w joined to it. */
  function Joined(wins: seq<Window>, w: Window): seq<Window>
    requires wins != []
  {
    var last := wins[|wins| - 1];
    wins[|wins| - 1 := Window(last.start, if last.end > w.end then last.end else w.end)]
  }

  ghost predicate SameMinutes(a: seq<Window>, b: seq<Window>) {
    forall m :: Covers(a, m) <==> Covers(b, m)
  }

  /** _merge_windows */
  method MergeWindows(wins: seq<Window>) returns (out: seq<Window>)
    requires forall w :: w in wins ==> w.start < w.end
    ensures Separate(out) && SameMinutes(out, wins)
    ensures InDay(wins) ==> InDay(out)
  {
    hide Separate, SameMinutes, InDay, Sorted;
    var sorted := Sort(wins);
    SortSorts(wins);
    out := [];
    NoneYet();
    for i := 0 to |sorted|
      invariant Separate(out) && SameMinutes(out, sorted[..i])
      invariant out != [] ==> i > 0 && out[|out| - 1].start <= sorted[i - 1].start
      invariant InDay(wins) ==> InDay(out)
    {
      var w := sorted[i];
      assert w in sorted && sorted[..i + 1] == sorted[..i] + [w];
      if i > 0 {
        InOrder(sorted, i);
      }
      DayWindow(wins, w);
      StepKeeps(out, sorted[..i], w);
      if out != [] && w.start <= out[|out| - 1].end {
        out := Joined(out, w);
      } else {
        out := out + [w];
      }
    }
    assert sorted[..|sorted|] == sorted;
    SameCover(out, sorted, wins);
  }

  lemma StepKeeps(out: seq<Window>, done: seq<Window>, w: Window)
    requires Separate(out) && SameMinutes(out, done) && w.start < w.end && (out != [] ==> out[|out| - 1].start <= w.start)
    ensures var next := if out != [] && w.start <= out[|out| - 1].end then Joined(out, w) else out + [w];
            && Separate(next) && SameMinutes(next, done + [w])
            && (InDay(out) && 0 <= w.start && w.end <= DAY ==> InDay(next))
  {
    hide Separate, InDay, Covers;
    AddCovers(done, w);
    if out != [] && w.start <= out[|out| - 1].end {
      JoinCovers(out, w);
    } else {
      AddCovers(out, w);
      AddSeparate(out, w);
    }
  }

  lemma NoneYet()
    ensures Separate([]) && InDay([]) && SameMinutes([], [])
  {
  }

  lemma InOrder(sorted: seq<Window>, i: nat)
    requires Sorted(sorted) && 0 < i < |sorted|
    ensures sorted[i - 1].start <= sorted[i].start
  {
  }

  lemma DayWindow(wins: seq<Window>, w: Window)
    requires w in wins
    ensures InDay(wins) ==> 0 <= w.start && w.end <= DAY
  {
  }

  lemma SameCover(out: seq<Window>, a: seq<Window>, b: seq<Window>)
    requires SameMinutes(out, a) && forall w :: w in a <==> w in b
    ensures SameMinutes(out, b)
  {
  }

  lemma AddCovers(wins: seq<Window>, w: Window)
    ensures forall m :: Covers(wins + [w], m) <==> Covers(wins, m) || w.start <= m < w.end
  {
    forall m
      ensures Covers(wins + [w], m) <==> Covers(wins, m) || w.start <= m < w.end
    {
      assert w in wins + [w];
      if Covers(wins, m) {
        var x :| x in wins && x.start <= m < x.end;
        assert x in wins + [w];
      }
    }
  }

  lemma AddSeparate(wins: seq<Window>, w: Window)
    requires Separate(wins) && w.start < w.end && (wins != [] ==> wins[|wins| - 1].end < w.start)
    ensures Separate(wins + [w])
    ensures InDay(wins) && 0 <= w.start && w.end <= DAY ==> InDay(wins + [w])
  {
  }

  lemma JoinCovers(wins: seq<Window>, w: Window)
    requires Separate(wins) && wins != [] && wins[|wins| - 1].start <= w.start <= wins[|wins| - 1].end && w.start < w.end
    ensures Separate(Joined(wins, w)) && forall m :: Covers(Joined(wins, w), m) <==> Covers(wins, m) || w.start <= m < w.end
    ensures InDay(wins) && w.end <= DAY ==> InDay(Joined(wins, w))
  {
    var n := |wins| - 1;
    var j := Joined(wins, w)[n];
    assert wins == wins[..n] + [wins[n]] && Joined(wins, w) == wins[..n] + [j];
    AddCovers(wins[..n], wins[n]);
    AddCovers(wins[..n], j);
    hide Covers;
  }

  // ---- expected, last_edge ----

  datatype Edge = Edge(at: int, starts: bool)

  /** Pairs (minute, kind) in Python's order: "end" comes before "start". */
  function Rank(e: Edge): int {
    2 * e.at + if e.starts then 1 else 0
  }

  function Edges(wins: seq<Window>): (r: seq<Edge>)
    ensures forall e :: e in r <==> exists w :: w in wins && (e == Edge(w.start, true) || e == Edge(w.end, false))
  {
    if wins == [] then [] else [Edge(wins[0].start, true), Edge(wins[0].end, false)] + Edges(wins[1..])
  }

  function Past(edges: seq<Edge>, t: int): (r: seq<Edge>)
    ensures forall e :: e in r <==> e in edges && e.at <= t
  {
    if edges == [] then [] else (if edges[0].at <= t then [edges[0]] else []) + Past(edges[1..], t)
  }

  /** The last of the sorted edges. */
  function Latest(edges: seq<Edge>): (r: Edge)
    requires edges != []
    ensures r in edges && forall e :: e in edges ==> Rank(e) <= Rank(r)
  {
    if |edges| == 1 then edges[0]
    else
      var rest := Latest(edges[1..]);
      assert edges == [edges[0]] + edges[1..];
      if Rank(edges[0]) > Rank(rest) then edges[0] else rest
  }

  /** expected */
  predicate Expected(wins: seq<Window>, t: int) {
    Covers(wins, t)
  }

  /** last_edge: whether it is a start, and the seconds since it. */
  function LastEdge(wins: seq<Window>, t: int): (bool, int) {
    var edges := Edges(wins);
    if edges == [] then (false, 1000000000)
    else
      var past := Past(edges, t);
      if past != [] then (Latest(past).starts, (t - Latest(past).at) * 60)
      else (Latest(edges).starts, (t - (Latest(edges).at - DAY)) * 60)
  }

  lemma EdgesOf(wins: seq<Window>, t: int)
    ensures forall w :: w in wins ==> Edge(w.start, true) in Edges(wins) && Edge(w.end, false) in Edges(wins)
    ensures forall w :: w in wins && w.start <= t ==> Edge(w.start, true) in Past(Edges(wins), t)
    ensures forall w :: w in wins && w.end <= t ==> Edge(w.end, false) in Past(Edges(wins), t)
  {
  }

  lemma WindowOf(wins: seq<Window>, e: Edge) returns (i: nat)
    requires e in Edges(wins)
    ensures i < |wins| && e == if e.starts then Edge(wins[i].start, true) else Edge(wins[i].end, false)
  {
    var w :| w in wins && (e == Edge(w.start, true) || e == Edge(w.end, false));
    i :| 0 <= i < |wins| && wins[i] == w;
  }

  /** On separate windows the last edge is a start exactly when the plug is expected on. */
  lemma StartMeansOn(wins: seq<Window>, t: int)
    requires Separate(wins)
    ensures LastEdge(wins, t).0 <==> Expected(wins, t)
  {
    var edges := Edges(wins);
    if edges == [] {
      EdgesOf(wins, t);
    } else if Past(edges, t) == [] {
      NothingYet(wins, t);
    } else if Latest(Past(edges, t)).starts {
      StartedOn(wins, t);
    } else {
      EndedOff(wins, t);
    }
  }

  lemma NothingYet(wins: seq<Window>, t: int)
    requires Separate(wins) && Edges(wins) != [] && Past(Edges(wins), t) == []
    ensures !Latest(Edges(wins)).starts && !Covers(wins, t)
  {
    hide Edges, Past, Latest;
    EdgesOf(wins, t);
    var i := WindowOf(wins, Latest(Edges(wins)));
    assert wins[i] in wins;
  }

  lemma StartedOn(wins: seq<Window>, t: int)
    requires Separate(wins) && Past(Edges(wins), t) != [] && Latest(Past(Edges(wins), t)).starts
    ensures Covers(wins, t)
  {
    hide Edges, Past, Latest;
    EdgesOf(wins, t);
    var i := WindowOf(wins, Latest(Past(Edges(wins), t)));
    assert wins[i] in wins;
  }

  lemma EndedOff(wins: seq<Window>, t: int)
    requires Separate(wins) && Past(Edges(wins), t) != [] && !Latest(Past(Edges(wins), t)).starts
    ensures !Covers(wins, t)
  {
    hide Edges, Past, Latest;
    EdgesOf(wins, t);
    var i := WindowOf(wins, Latest(Past(Edges(wins), t)));
    forall j | 0 <= j < |wins|
      ensures !(wins[j].start <= t < wins[j].end)
    {
      assert wins[j] in wins;
      assert j < i ==> wins[j].end < wins[i].start;
      assert i < j ==> wins[i].end < wins[j].start;
    }
  }

  /** The seconds from an edge to t around the clock. */
  function Since(e: Edge, t: int): int {
    (t - e.at) % DAY * 60
  }

  lemma Around(wins: seq<Window>, e: Edge, t: int)
    requires InDay(wins) && e in Edges(wins) && 0 <= t < DAY
    ensures 0 <= e.at <= DAY && Since(e, t) == (if e.at <= t then t - e.at else t - e.at + DAY) * 60
  {
    hide Edges;
    var i := WindowOf(wins, e);
    assert wins[i] in wins;
  }

  /** The edge that last_edge picks: the latest past one, or the latest of all when none is past. */
  function Picked(wins: seq<Window>, t: int): (r: Edge)
    requires Edges(wins) != []
    ensures r in Edges(wins)
  {
    Latest(if Past(Edges(wins), t) != [] then Past(Edges(wins), t) else Edges(wins))
  }

  lemma PickedIsLatest(wins: seq<Window>, t: int, e: Edge)
    requires e in Edges(wins)
    ensures var last := Picked(wins, t); if e.at <= t then e.at <= last.at <= t else (last.at <= t || e.at <= last.at)
  {
    hide Edges, Past, Latest;
    var edges, past := Edges(wins), Past(Edges(wins), t);
    if e.at <= t {
      assert e in past && Rank(e) <= Rank(Latest(past));
    } else if past == [] {
      assert Rank(e) <= Rank(Latest(edges));
    }
  }

  lemma PickedAge(wins: seq<Window>, t: int)
    requires Edges(wins) != []
    ensures var last := Picked(wins, t); LastEdge(wins, t) == (last.starts, (if last.at <= t then t - last.at else t - (last.at - DAY)) * 60)
  {
    hide Edges, Past, Latest;
    var edges, past := Edges(wins), Past(Edges(wins), t);
    if past == [] {
      assert Picked(wins, t) !in past;
    }
  }

  /** Its age is the smallest distance around the clock from any edge. */
  lemma AgeIsCyclic(wins: seq<Window>, t: int)
    requires InDay(wins) && wins != [] && 0 <= t < DAY
    ensures forall e :: e in Edges(wins) ==> LastEdge(wins, t).1 <= Since(e, t)
    ensures exists e :: e in Edges(wins) && LastEdge(wins, t) == (e.starts, Since(e, t))
  {
    EdgesOf(wins, t);
    assert wins[0] in wins;
    hide Edges, LastEdge, Since, InDay, Picked;
    Around(wins, Picked(wins, t), t);
    PickedAge(wins, t);
    forall e | e in Edges(wins)
      ensures LastEdge(wins, t).1 <= Since(e, t)
    {
      Around(wins, e, t);
      PickedIsLatest(wins, t, e);
    }
  }

  /** The watcher's reading of any schedule of the day: merged first, the last edge is a start exactly when some window
      covers the minute. */
  method Reading(wins: seq<Window>, t: int) returns (on: bool, age: int)
    requires InDay(wins) && 0 <= t < DAY
    ensures on <==> Covers(wins, t)
    ensures exists merged :: Separate(merged) && SameMinutes(merged, wins) && age == LastEdge(merged, t).1
  {
    var merged := MergeWindows(wins);
    StartMeansOn(merged, t);
    hide LastEdge, Covers;
    assert Covers(merged, t) <==> Covers(wins, t);
    on, age := LastEdge(merged, t).0, LastEdge(merged, t).1;
  }
}
