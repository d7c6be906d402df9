/** Keeping the managed block inside AdGuard's rules: merge_rules, the apply part of run (adguard/childpolicy.py) and the
    slice that the drift watcher cuts out (_system/policy-drift-watch). */
module ChildRules {
  import opened ChildPolicy
  import opened Wrappers

  type Rules = seq<Rule>

  /** merge_rules, before the block is appended: one flag, set by BEGIN and cleared by END. */
  function Kept(rules: Rules, skipping: bool): Rules {
    if rules == [] then []
    else if rules[0].Begin? then Kept(rules[1..], true)
    else if rules[0].End? then Kept(rules[1..], false)
    else (if skipping then [] else [rules[0]]) + Kept(rules[1..], skipping)
  }

  function Merged(rules: Rules, block: Rules): Rules {
    Kept(rules, false) + block
  }

  lemma KeptStep(rules: Rules, i: nat, skipping: bool)
    requires i < |rules|
    ensures Kept(rules[i..], skipping) ==
              if Marker(rules[i]) then Kept(rules[i + 1..], rules[i].Begin?)
              else (if skipping then [] else [rules[i]]) + Kept(rules[i + 1..], skipping)
  {
    assert rules[i..][1..] == rules[i + 1..];
  }

  /** merge_rules */
  method MergeRules(existing: Rules, block: Rules) returns (merged: Rules)
    ensures merged == Merged(existing, block)
  {
    hide Kept;
    var out, skipping := [], false;
    assert existing[0..] == existing;
    for i := 0 to |existing|
      invariant out + Kept(existing[i..], skipping) == Kept(existing, false)
    {
      KeptStep(existing, i, skipping);
      var r := existing[i];
      if r.Begin? {
        skipping := true;
      } else if r.End? {
        skipping := false;
      } else if !skipping {
        out := out + [r];
      }
    }
    KeptNone(existing[|existing|..], skipping);
    merged := out + block;
  }

  lemma KeptNone(rules: Rules, skipping: bool)
    requires rules == []
    ensures Kept(rules, skipping) == []
  {
  }

  // ---- what is kept ----

  /** The last marker before place n is a BEGIN. */
  ghost predicate Inside(rules: Rules, n: nat)
    requires n <= |rules|
  {
    exists j :: BeginAt(rules, j, n)
  }

  predicate BeginAt(rules: Rules, j: int, n: nat) {
    0 <= j < n <= |rules| && rules[j].Begin? && End !in rules[j..n]
  }

  /** The rules outside the markers, in their order. */
  ghost function Outside(rules: Rules, n: nat): Rules
    requires n <= |rules|
  {
    if n == 0 then []
    else Outside(rules, n - 1) + if !Marker(rules[n - 1]) && !Inside(rules, n - 1) then [rules[n - 1]] else []
  }

  lemma InsideStep(rules: Rules, n: nat)
    requires n < |rules|
    ensures Inside(rules, n + 1) <==> rules[n].Begin? || (!rules[n].End? && Inside(rules, n))
  {
    if Inside(rules, n) && !rules[n].End? {
      var j :| BeginAt(rules, j, n);
      assert rules[j..n + 1] == rules[j..n] + [rules[n]];
      assert BeginAt(rules, j, n + 1);
    }
    if rules[n].Begin? {
      assert rules[n..n + 1] == [Begin];
      assert BeginAt(rules, n, n + 1);
    }
    if Inside(rules, n + 1) && !rules[n].Begin? {
      var j :| BeginAt(rules, j, n + 1);
      assert rules[j..n + 1] == rules[j..n] + [rules[n]];
      assert BeginAt(rules, j, n);
    }
  }

  lemma {:induction false} KeptFrom(rules: Rules, n: nat)
    requires n <= |rules|
    ensures Outside(rules, n) + Kept(rules[n..], Inside(rules, n)) == Outside(rules, |rules|)
    decreases |rules| - n
  {
    hide Inside;
    if n < |rules| {
      KeptFrom(rules, n + 1);
      InsideStep(rules, n);
      assert rules[n..][1..] == rules[n + 1..];
    } else {
      assert rules[n..] == [];
    }
  }

  /** Every hand-written rule outside the markers is kept, in order, and nothing else. */
  lemma KeepsOutside(rules: Rules)
    ensures Kept(rules, false) == Outside(rules, |rules|)
  {
    KeptFrom(rules, 0);
    assert rules[0..] == rules && !Inside(rules, 0);
    assert Outside(rules, 0) == [];
  }

  predicate MarkerFree(rules: Rules) {
    forall r :: r in rules ==> !Marker(r)
  }

  lemma {:induction false} KeptFree(rules: Rules, skipping: bool)
    ensures MarkerFree(Kept(rules, skipping))
  {
    if rules != [] {
      KeptFree(rules[1..], rules[0].Begin? || (skipping && !rules[0].End?));
    }
  }

  /** Rules without markers are kept or skipped as they are. */
  lemma {:induction false} KeptThrough(free: Rules, rest: Rules, skipping: bool)
    requires MarkerFree(free)
    ensures Kept(free + rest, skipping) == (if skipping then [] else free) + Kept(rest, skipping)
  {
    if free == [] {
      assert free + rest == rest;
      assert [] + Kept(rest, skipping) == Kept(rest, skipping);
    } else {
      var all := free + rest;
      KeptThrough(free[1..], rest, skipping);
      assert all[1..] == free[1..] + rest && all[0] == free[0] && free[0] in free;
      assert Kept(all, skipping) == (if skipping then [] else [free[0]]) + Kept(all[1..], skipping);
      if !skipping {
        assert free == [free[0]] + free[1..];
      }
    }
  }

  /** A block: markers around rules that are none. */
  predicate IsBlock(block: Rules) {
    |block| >= 2 && block[0] == Begin && block[|block| - 1] == End && MarkerFree(block[1..|block| - 1])
  }

  lemma KeptMarker(marker: Rule, rest: Rules, skipping: bool)
    requires Marker(marker)
    ensures Kept([marker] + rest, skipping) == Kept(rest, marker.Begin?)
  {
    assert ([marker] + rest)[1..] == rest;
  }

  lemma KeptBlock(before: Rules, block: Rules, after: Rules)
    requires MarkerFree(before) && IsBlock(block) && MarkerFree(after)
    ensures Kept(before + block + after, false) == before + after
  {
    hide Kept;
    var body := block[1..|block| - 1];
    assert before + block + after == before + ([Begin] + (body + ([End] + after)));
    KeptThrough(before, [Begin] + (body + ([End] + after)), false);
    KeptMarker(Begin, body + ([End] + after), false);
    KeptThrough(body, [End] + after, true);
    KeptMarker(End, after, true);
    KeptFreeAlone(after);
  }

  lemma KeptFreeAlone(free: Rules)
    requires MarkerFree(free)
    ensures Kept(free, false) == free
  {
    KeptThrough(free, [], false);
    assert free + [] == free;
  }

  /** After a merge the rules are hand-written ones and exactly one block, at the end; merging again replaces that block
      and leaves the others; the same block changes nothing. */
  lemma MergeReplaces(rules: Rules, first: Rules, second: Rules)
    requires IsBlock(first) && IsBlock(second)
    ensures MarkerFree(Kept(rules, false)) && Merged(rules, first) == Kept(rules, false) + first
    ensures Kept(Merged(rules, first), false) == Kept(rules, false)
    ensures Merged(Merged(rules, first), second) == Merged(rules, second)
  {
    KeptFree(rules, false);
    KeptBlock(Kept(rules, false), first, []);
    assert Kept(rules, false) + first + [] == Kept(rules, false) + first;
    assert Kept(rules, false) + [] == Kept(rules, false);
  }

  /** A BEGIN without END takes every rule after it away. */
  lemma UnclosedBegin(before: Rules, after: Rules)
    requires MarkerFree(before) && MarkerFree(after)
    ensures Kept(before + [Begin] + after, false) == before
  {
    KeptThrough(before, [Begin] + after, false);
    assert before + ([Begin] + after) == before + [Begin] + after;
    assert ([Begin] + after)[1..] == after;
    KeptThrough(after, [], true);
    assert after + [] == after;
  }

  // ---- the drift watcher ----

  /** list.index */
  function IndexOf(rules: Rules, r: Rule): (i: nat)
    requires r in rules
    ensures i < |rules| && rules[i] == r && r !in rules[..i]
  {
    if rules[0] == r then 0
    else
      var i := 1 + IndexOf(rules[1..], r);
      assert rules[..i] == [rules[0]] + rules[1..][..i - 1];
      i
  }

  /** rules[rules.index(BEGIN):rules.index(END) + 1] */
  function Slice(rules: Rules): Option<Rules> {
    if Begin in rules && End in rules then
      var i, j := IndexOf(rules, Begin), IndexOf(rules, End) + 1;
      Some(if i <= j then rules[i..j] else [])
    else None
  }

  /** The slice the watcher cuts out of merged rules is exactly the block that was rendered. */
  lemma SliceIsBlock(rules: Rules, block: Rules)
    requires IsBlock(block)
    ensures Slice(Merged(rules, block)) == Some(block)
  {
    KeptFree(rules, false);
    SliceOf(Kept(rules, false), block);
  }

  lemma SliceOf(kept: Rules, block: Rules)
    requires MarkerFree(kept) && IsBlock(block)
    ensures Slice(kept + block) == Some(block)
  {
    hide MarkerFree, IndexOf;
    var m := kept + block;
    assert m[|kept|] == Begin && m[|kept| + |block| - 1] == End;
    OnlyAt(kept, block, IndexOf(m, Begin), Begin);
    OnlyAt(kept, block, IndexOf(m, End), End);
    assert m[|kept|..|kept| + |block|] == block;
  }

  lemma OnlyAt(kept: Rules, block: Rules, i: nat, r: Rule)
    requires MarkerFree(kept) && IsBlock(block) && i < |kept + block| && (kept + block)[i] == r && Marker(r)
    ensures i == |kept| + if r.Begin? then 0 else |block| - 1
  {
    var body, m := block[1..|block| - 1], kept + block;
    assert forall k :: 0 <= k < |kept| ==> m[k] == kept[k];
    assert forall k :: 0 <= k < |body| ==> block[k + 1] == body[k] && !Marker(body[k]);
    assert m == kept + [Begin] + body + [End];
  }

  /** What render_block gives is a block. */
  lemma RenderedIsBlock(p: Policy, sort: Sort, clients: seq<string>, now: Moment, overrides: seq<Override>)
    ensures IsBlock(Rendered(p, sort, clients, now, overrides))
  {
    hide Body;
    var body := Body(p, sort, clients, now, overrides);
    BodyFree(p, sort, clients, now, overrides);
    assert ([Begin] + body + [End])[1..|body| + 1] == body;
  }

  lemma {:induction false} BodyFree(p: Policy, sort: Sort, clients: seq<string>, now: Moment, overrides: seq<Override>)
    ensures MarkerFree(Body(p, sort, clients, now, overrides))
  {
    if clients != [] {
      BodyFree(p, sort, clients[..|clients| - 1], now, overrides);
    }
  }

  /** The merged rules block a name when a hand-written rule or the block does, and neither makes an exception: an exception
      by hand opens even a denied name. */
  lemma MergedMeaning(rules: Rules, block: Rules, client: string, name: string)
    ensures var kept := Kept(rules, false);
            Blocked(Merged(rules, block), client, name) <==>
              && (BlockedBySome(kept, client, name) || BlockedBySome(block, client, name))
              && !Excepted(kept, client, name) && !Excepted(block, client, name)
  {
    hide Kept, Blocks, Excepts;
    var kept, m := Kept(rules, false), Merged(rules, block);
    forall r
      ensures r in m <==> r in kept || r in block
    {
    }
  }

  /** Where no hand-written rule is about the client, the merged rules decide as the block does. */
  lemma MergedPolicy(rules: Rules, block: Rules, client: string, name: string)
    requires forall r :: r in Kept(rules, false) ==> !Concerns(r, client)
    ensures Blocked(Merged(rules, block), client, name) <==> Blocked(block, client, name)
  {
    hide Kept;
    MergedMeaning(rules, block, client, name);
  }

  // ---- applying ----

  /** AdGuard's rules, behind an API of which any call may fail. */
  class AdGuard {
    var rules: Rules
    var writes: nat

    constructor (rules: Rules)
      ensures this.rules == rules && writes == 0
    {
      this.rules, writes := rules, 0;
    }

    /** The apply part of run: write only what differs. */
    method Apply(block: Rules) returns (r: Result<bool, ()>)
      requires IsBlock(block)
      modifies this
      ensures r.Ok? ==> rules == Merged(old(rules), block) && (r.value <==> old(rules) != rules)
      ensures r.Err? ==> rules == old(rules) || rules == Merged(old(rules), block)
      ensures writes == old(writes) + if rules == old(rules) then 0 else 1
    {
      var reached, written, answered: bool := *, *, *;
      if !reached {
        return Err(());
      }
      var merged := MergeRules(rules, block);
      if merged == rules {
        return Ok(false);
      }
      if written || answered {
        rules, writes := merged, writes + 1;
      }
      return if answered then Ok(true) else Err(());
    }

    /** Two passes at the same instant: after one that succeeded, the second writes nothing; the watcher finds the block. */
    method Twice(block: Rules) returns (r: Result<bool, ()>, once: nat)
      requires IsBlock(block)
      modifies this
      ensures r.Ok? ==> writes == once && once == old(writes) + (if r.value then 1 else 0) && rules == Merged(old(rules), block)
      ensures r.Ok? ==> Slice(rules) == Some(block) && Kept(rules, false) == Kept(old(rules), false)
    {
      r := Apply(block);
      once := writes;
      if r.Ok? {
        MergeReplaces(old(rules), block, block);
        SliceIsBlock(old(rules), block);
        var again := Apply(block);
      }
    }
  }
}
