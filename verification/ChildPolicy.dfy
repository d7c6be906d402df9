/** The children's DNS policy (adguard/childpolicy.py): rendering the managed block of filtering rules, and what the rules
    mean when an exception beats a block. */
module ChildPolicy {
  import opened Wrappers

  // ---- names ----

  predicate EndsWith(s: string, tail: string) {
    |tail| <= |s| && s[|s| - |tail|..] == tail
  }

  /** The name is the domain itself or lies under it. */
  predicate Under(name: string, domain: string) {
    name == domain || EndsWith(name, "." + domain)
  }

  /** is_under */
  predicate UnderAny(name: string, domains: set<string>) {
    exists d :: d in domains && Under(name, d)
  }

  /** In other words, the name is the domain, or ends in it after a dot. */
  lemma UnderExactly(name: string, domain: string)
    ensures Under(name, domain) <==> name == domain || exists front :: name == front + "." + domain
  {
    if EndsWith(name, "." + domain) {
      var n := |name| - |domain| - 1;
      assert name == name[..n] + name[n..];
      assert name == name[..n] + "." + domain;
    }
    if front :| name == front + "." + domain {
      assert name == front + ("." + domain);
      assert name[|front|..] == "." + domain;
    }
  }

  lemma UnderTransitive(a: string, b: string, c: string)
    requires Under(a, b) && Under(b, c)
    ensures Under(a, c)
  {
    if a != b && b != c {
      var bc, ab := "." + c, "." + b;
      assert a[|a| - |ab|..][1..] == b;
      assert a[|a| - |bc|..] == b[|b| - |bc|..];
    }
  }

  /** Two domains above the same name lie one under the other. */
  lemma Comparable(name: string, d: string, e: string)
    requires Under(name, d) && Under(name, e)
    ensures Under(d, e) || Under(e, d)
  {
    if |d| <= |e| {
      SuffixUnder(name, d, e);
    } else {
      SuffixUnder(name, e, d);
    }
  }

  lemma SuffixUnder(name: string, d: string, e: string)
    requires Under(name, d) && Under(name, e) && |d| <= |e|
    ensures Under(e, d)
  {
    Tail(name, d);
    Tail(name, e);
    if |d| == |e| {
      assert d == e;
    } else {
      hide Under;
      SuffixOfSuffix(name, |d| + 1, |e|);
      DottedTail(name, d);
      UnderTail(e, d);
    }
  }

  lemma DottedTail(name: string, d: string)
    requires |d| < |name| && name[|name| - |d|..] == d && name[|name| - |d| - 1] == '.'
    ensures name[|name| - |d| - 1..] == "." + d
  {
    var k := |name| - |d| - 1;
    assert name[k..] == [name[k]] + name[k + 1..];
  }

  lemma UnderTail(e: string, d: string)
    requires |d| < |e| && e[|e| - |d| - 1..] == "." + d
    ensures Under(e, d)
  {
  }

  lemma SuffixOfSuffix(s: string, m: nat, n: nat)
    requires m <= n <= |s|
    ensures s[|s| - n..][n - m..] == s[|s| - m..]
  {
  }

  lemma Tail(name: string, d: string)
    requires Under(name, d)
    ensures |d| <= |name| && name[|name| - |d|..] == d
    ensures |d| < |name| ==> name[|name| - |d| - 1] == '.'
  {
    if name != d {
      assert name[|name| - |d| - 1..] == "." + d;
      assert name[|name| - |d| - 1..][1..] == d;
    }
  }

  // ---- rules ----

  /** The managed rules, and those written by hand: for one client or for all, blocking or excepting a domain, or with no
      effect on names. */
  datatype Rule =
    | Begin
    | End
    | CatchAll(client: string)
    | Block(domain: string, client: string)
    | Allow(domain: string, client: string)
    | ByHand(text: string, scope: Option<string>, blocks: Option<string>, excepts: Option<string>)

  predicate Marker(r: Rule) {
    r.Begin? || r.End?
  }

  /** The rule is about the client. */
  predicate Concerns(r: Rule, client: string) {
    match r
    case CatchAll(c) => c == client
    case Block(_, c) => c == client
    case Allow(_, c) => c == client
    case ByHand(_, scope, _, _) => scope.None? || scope.value == client
    case _ => false
  }

  predicate Blocks(r: Rule, client: string, name: string) {
    Concerns(r, client) &&
    match r
    case CatchAll(_) => true
    case Block(domain, _) => Under(name, domain)
    case ByHand(_, _, domain, _) => domain.Some? && Under(name, domain.value)
    case _ => false
  }

  predicate Excepts(r: Rule, client: string, name: string) {
    Concerns(r, client) &&
    match r
    case Allow(domain, _) => Under(name, domain)
    case ByHand(_, _, _, domain) => domain.Some? && Under(name, domain.value)
    case _ => false
  }

  predicate BlockedBySome(rules: seq<Rule>, client: string, name: string) {
    exists r :: r in rules && Blocks(r, client, name)
  }

  predicate Excepted(rules: seq<Rule>, client: string, name: string) {
    exists r :: r in rules && Excepts(r, client, name)
  }

  /** Some rule blocks the name for the client, and no rule makes an exception. */
  predicate Blocked(rules: seq<Rule>, client: string, name: string) {
    BlockedBySome(rules, client, name) && !Excepted(rules, client, name)
  }

  // ---- the policy ----

  datatype Policy = Policy(always: set<string>, telegram: set<string>, weekdays: set<string>, youtube: set<string>, roblox: set<string>,
                           extraAllow: set<string>, deny: set<string>)

  /** weekday 6 is Sunday. */
  datatype Moment = Moment(weekday: int, hour: int)

  datatype Override = Override(client: string, target: string)

  /** schedule_state */
  predicate Sunday(now: Moment) {
    now.weekday == 6
  }

  predicate InWindow(now: Moment) {
    !Sunday(now) && 16 <= now.hour < 19
  }

  function Targets(overrides: seq<Override>, client: string): set<string> {
    set o | o in overrides && o.client == client :: o.target
  }

  /** The allow entries that are open for a client: by weekday, window and override. */
  predicate Open(p: Policy, now: Moment, targets: set<string>, d: string) {
    || d in p.always || d in p.telegram || d in p.extraAllow
    || (d in p.weekdays && (!Sunday(now) || "maps" in targets))
    || (d in p.youtube && (InWindow(now) || "youtube" in targets))
    || (d in p.roblox && (InWindow(now) || "roblox" in targets))
  }

  function OpenSet(p: Policy, now: Moment, targets: set<string>): (s: set<string>)
    ensures forall d :: d in s <==> Open(p, now, targets, d)
  {
    p.always + p.telegram + p.extraAllow
    + (if !Sunday(now) || "maps" in targets then p.weekdays else {})
    + (if InWindow(now) || "youtube" in targets then p.youtube else {})
    + (if InWindow(now) || "roblox" in targets then p.roblox else {})
  }

  function Remaining(p: Policy, now: Moment, targets: set<string>): set<string> {
    set d | d in OpenSet(p, now, targets) && !UnderAny(d, p.deny)
  }

  /** Python's sorted() on a set of names: the same names, each once. */
  type Sort = set<string> -> seq<string>

  ghost predicate Sorts(sort: Sort) {
    forall s :: Lists(sort(s), s)
  }

  ghost predicate Lists(l: seq<string>, s: set<string>) {
    && (forall x :: x in l <==> x in s)
    && (forall i, j :: 0 <= i < j < |l| ==> l[i] != l[j])
  }

  function BlockRules(domains: seq<string>, client: string): (r: seq<Rule>)
    ensures |r| == |domains| && forall i :: 0 <= i < |r| ==> r[i] == Block(domains[i], client)
  {
    seq(|domains|, i requires 0 <= i < |domains| => Block(domains[i], client))
  }

  function AllowRules(domains: seq<string>, client: string): (r: seq<Rule>)
    ensures |r| == |domains| && forall i :: 0 <= i < |r| ==> r[i] == Allow(domains[i], client)
  {
    seq(|domains|, i requires 0 <= i < |domains| => Allow(domains[i], client))
  }

  function ClientRules(p: Policy, sort: Sort, client: string, now: Moment, overrides: seq<Override>): seq<Rule> {
    var targets := Targets(overrides, client);
    if "all" in targets then BlockRules(sort(p.deny), client)
    else [CatchAll(client)] + BlockRules(sort(p.deny), client) + AllowRules(sort(Remaining(p, now, targets)), client)
  }

  function Body(p: Policy, sort: Sort, clients: seq<string>, now: Moment, overrides: seq<Override>): seq<Rule> {
    if clients == [] then []
    else Body(p, sort, clients[..|clients| - 1], now, overrides) + ClientRules(p, sort, clients[|clients| - 1], now, overrides)
  }

  function Rendered(p: Policy, sort: Sort, clients: seq<string>, now: Moment, overrides: seq<Override>): seq<Rule> {
    [Begin] + Body(p, sort, clients, now, overrides) + [End]
  }

  /** render_block, the names open to one client. */
  method AllowedNames(p: Policy, now: Moment, targets: set<string>) returns (allowed: set<string>)
    ensures allowed == Remaining(p, now, targets)
  {
    allowed := p.always + p.telegram + p.extraAllow;
    if !Sunday(now) || "maps" in targets {
      allowed := allowed + p.weekdays;
    }
    if InWindow(now) || "youtube" in targets {
      allowed := allowed + p.youtube;
    }
    if InWindow(now) || "roblox" in targets {
      allowed := allowed + p.roblox;
    }
    assert allowed == OpenSet(p, now, targets);
    allowed := set d | d in allowed && !UnderAny(d, p.deny);
  }

  /** render_block, the lines of one client. */
  method ClientLines(p: Policy, sort: Sort, client: string, now: Moment, overrides: seq<Override>) returns (lines: seq<Rule>)
    ensures lines == ClientRules(p, sort, client, now, overrides)
  {
    hide Remaining;
    var targets := set o | o in overrides && o.client == client :: o.target;
    lines := BlockRules(sort(p.deny), client);
    if "all" !in targets {
      var allowed := AllowedNames(p, now, targets);
      lines := [CatchAll(client)] + lines + AllowRules(sort(allowed), client);
    }
  }

  /** render_block */
  method RenderBlock(p: Policy, sort: Sort, clients: seq<string>, now: Moment, overrides: seq<Override>) returns (lines: seq<Rule>)
    ensures lines == Rendered(p, sort, clients, now, overrides)
  {
    hide ClientRules;
    lines := [Begin];
    for i := 0 to |clients|
      invariant lines == [Begin] + Body(p, sort, clients[..i], now, overrides)
    {
      var more := ClientLines(p, sort, clients[i], now, overrides);
      assert clients[..i + 1][..i] == clients[..i];
      lines := lines + more;
    }
    assert clients[..|clients|] == clients;
    lines := lines + [End];
  }

  // ---- what the block means ----

  /** An override of this client for this target is active. */
  ghost predicate Overridden(overrides: seq<Override>, client: string, target: string) {
    exists o :: o in overrides && o.client == client && o.target == target
  }

  /** The client may use the names under d: d is open on this day and hour or by an override of its own, and not under a
      deny entry. */
  ghost predicate OpenFor(p: Policy, now: Moment, overrides: seq<Override>, client: string, d: string) {
    && (|| d in p.always || d in p.telegram || d in p.extraAllow
        || (d in p.weekdays && (now.weekday != 6 || Overridden(overrides, client, "maps")))
        || (d in p.youtube && ((now.weekday != 6 && 16 <= now.hour < 19) || Overridden(overrides, client, "youtube")))
        || (d in p.roblox && ((now.weekday != 6 && 16 <= now.hour < 19) || Overridden(overrides, client, "roblox"))))
    && forall e :: e in p.deny ==> !Under(d, e)
  }

  lemma TargetsAre(overrides: seq<Override>, client: string, target: string)
    ensures target in Targets(overrides, client) <==> Overridden(overrides, client, target)
  {
  }

  lemma RemainingAre(p: Policy, now: Moment, overrides: seq<Override>, client: string, d: string)
    ensures d in Remaining(p, now, Targets(overrides, client)) <==> OpenFor(p, now, overrides, client, d)
  {
    hide Targets, Overridden, Under;
    TargetsAre(overrides, client, "maps");
    TargetsAre(overrides, client, "youtube");
    TargetsAre(overrides, client, "roblox");
  }

  lemma RulesOfClient(p: Policy, sort: Sort, client: string, now: Moment, overrides: seq<Override>, r: Rule)
    requires Sorts(sort)
    ensures r in ClientRules(p, sort, client, now, overrides) <==>
              || (r == CatchAll(client) && "all" !in Targets(overrides, client))
              || (r.Block? && r.client == client && r.domain in p.deny)
              || (r.Allow? && r.client == client && "all" !in Targets(overrides, client) && r.domain in Remaining(p, now, Targets(overrides, client)))
  {
    hide Remaining, Targets;
    var targets := Targets(overrides, client);
    var deny, names := sort(p.deny), sort(Remaining(p, now, targets));
    assert Lists(deny, p.deny) && Lists(names, Remaining(p, now, targets));
    var blocks, allows := BlockRules(deny, client), AllowRules(names, client);
    if r.Block? && r.client == client && r.domain in deny {
      var i :| 0 <= i < |deny| && deny[i] == r.domain;
      assert blocks[i] == r;
    }
    if r.Allow? && r.client == client && r.domain in names {
      var i :| 0 <= i < |names| && names[i] == r.domain;
      assert allows[i] == r;
    }
  }

  lemma {:induction false} RulesOfBody(p: Policy, sort: Sort, clients: seq<string>, now: Moment, overrides: seq<Override>, r: Rule)
    ensures r in Body(p, sort, clients, now, overrides) <==> exists c :: c in clients && r in ClientRules(p, sort, c, now, overrides)
  {
    hide ClientRules;
    if clients != [] {
      RulesOfBody(p, sort, clients[..|clients| - 1], now, overrides, r);
      assert clients == clients[..|clients| - 1] + [clients[|clients| - 1]];
    }
  }

  /** Which rules are in the block. */
  lemma RulesOfBlock(p: Policy, sort: Sort, clients: seq<string>, now: Moment, overrides: seq<Override>, r: Rule)
    requires Sorts(sort) && !Marker(r)
    ensures r in Rendered(p, sort, clients, now, overrides) <==>
              || (r.CatchAll? && r.client in clients && !Overridden(overrides, r.client, "all"))
              || (r.Block? && r.client in clients && r.domain in p.deny)
              || (r.Allow? && r.client in clients && !Overridden(overrides, r.client, "all") && OpenFor(p, now, overrides, r.client, r.domain))
  {
    hide ClientRules, Remaining, Targets, Body, Sorts, OpenFor, Overridden;
    if r.CatchAll? || r.Allow? {
      TargetsAre(overrides, r.client, "all");
    }
    if r.Allow? {
      RemainingAre(p, now, overrides, r.client, r.domain);
    }
    RulesOfBody(p, sort, clients, now, overrides, r);
    forall c | c in clients
      ensures r in ClientRules(p, sort, c, now, overrides) <==>
                || (r == CatchAll(c) && "all" !in Targets(overrides, c))
                || (r.Block? && r.client == c && r.domain in p.deny)
                || (r.Allow? && r.client == c && "all" !in Targets(overrides, c)
                    && r.domain in Remaining(p, now, Targets(overrides, c)))
    {
      RulesOfClient(p, sort, c, now, overrides, r);
    }
  }

  lemma ExceptedExactly(p: Policy, sort: Sort, clients: seq<string>, now: Moment, overrides: seq<Override>, client: string, name: string)
    requires Sorts(sort)
    ensures Excepted(Rendered(p, sort, clients, now, overrides), client, name) <==>
              && client in clients && !Overridden(overrides, client, "all")
              && exists d :: Under(name, d) && OpenFor(p, now, overrides, client, d)
  {
    hide Rendered, Sorts, OpenFor, Overridden, Under;
    var rules := Rendered(p, sort, clients, now, overrides);
    if Excepted(rules, client, name) {
      var r :| r in rules && Excepts(r, client, name);
      RulesOfBlock(p, sort, clients, now, overrides, r);
    }
    if d :| Under(name, d) && OpenFor(p, now, overrides, client, d) {
      RulesOfBlock(p, sort, clients, now, overrides, Allow(d, client));
      assert Excepts(Allow(d, client), client, name);
    }
  }

  lemma BlockRuleExactly(p: Policy, sort: Sort, clients: seq<string>, now: Moment, overrides: seq<Override>, client: string, name: string)
    requires Sorts(sort)
    ensures BlockedBySome(Rendered(p, sort, clients, now, overrides), client, name) <==>
              client in clients && (!Overridden(overrides, client, "all") || exists d :: d in p.deny && Under(name, d))
  {
    hide Rendered, Sorts, OpenFor, Overridden, Under;
    var rules := Rendered(p, sort, clients, now, overrides);
    if r :| r in rules && Blocks(r, client, name) {
      RulesOfBlock(p, sort, clients, now, overrides, r);
    }
    if client in clients && !Overridden(overrides, client, "all") {
      RulesOfBlock(p, sort, clients, now, overrides, CatchAll(client));
      assert Blocks(CatchAll(client), client, name);
    }
    if d :| client in clients && d in p.deny && Under(name, d) {
      RulesOfBlock(p, sort, clients, now, overrides, Block(d, client));
      assert Blocks(Block(d, client), client, name);
    }
  }

  /** What a child can look up: without an "all" exception of its own exactly the names under the entries open for it; with
      one, everything but the names under a deny entry. Clients that are not listed are not touched. */
  lemma BlockedExactly(p: Policy, sort: Sort, clients: seq<string>, now: Moment, overrides: seq<Override>, client: string, name: string)
    requires Sorts(sort)
    ensures Blocked(Rendered(p, sort, clients, now, overrides), client, name) <==>
              && client in clients
              && if exists o :: o in overrides && o.client == client && o.target == "all"
                 then exists d :: d in p.deny && Under(name, d)
                 else forall d :: Under(name, d) ==> !OpenFor(p, now, overrides, client, d)
  {
    hide Rendered, Sorts, OpenFor, Under, BlockedBySome, Excepted;
    ExceptedExactly(p, sort, clients, now, overrides, client, name);
    BlockRuleExactly(p, sort, clients, now, overrides, client, name);
  }

  /** The overrides of one client are nothing to another. */
  lemma OverridesApart(p: Policy, sort: Sort, clients: seq<string>, now: Moment, a: seq<Override>, b: seq<Override>, client: string, name: string)
    requires Sorts(sort) && forall o: Override :: o.client == client ==> (o in a <==> o in b)
    ensures Blocked(Rendered(p, sort, clients, now, a), client, name) <==> Blocked(Rendered(p, sort, clients, now, b), client, name)
  {
    hide Rendered, Sorts, Under, Blocked, OpenFor;
    BlockedExactly(p, sort, clients, now, a, client, name);
    BlockedExactly(p, sort, clients, now, b, client, name);
    SameOpen(p, now, a, b, client);
  }

  lemma SameOpen(p: Policy, now: Moment, a: seq<Override>, b: seq<Override>, client: string)
    requires forall o: Override :: o.client == client ==> (o in a <==> o in b)
    ensures forall d :: OpenFor(p, now, a, client, d) <==> OpenFor(p, now, b, client, d)
    ensures (exists o :: o in a && o.client == client && o.target == "all") <==> (exists o :: o in b && o.client == client && o.target == "all")
  {
    forall target
      ensures Overridden(a, client, target) <==> Overridden(b, client, target)
    {
    }
    hide Under;
  }

  /** A name under a deny entry is blocked unless an entry open for the client lies strictly above that deny entry; with an
      "all" exception it is blocked always. */
  lemma DeniedExactly(p: Policy, sort: Sort, clients: seq<string>, now: Moment, overrides: seq<Override>, client: string, name: string, deny: string)
    requires Sorts(sort) && client in clients && deny in p.deny && Under(name, deny)
    ensures !Blocked(Rendered(p, sort, clients, now, overrides), client, name) <==>
              && (forall o :: o in overrides && o.client == client ==> o.target != "all")
              && exists d :: Under(deny, d) && d != deny && OpenFor(p, now, overrides, client, d)
  {
    hide Rendered, Sorts, Under, Blocked, OpenFor;
    BlockedExactly(p, sort, clients, now, overrides, client, name);
    UnderSelf(deny);
    forall d | OpenFor(p, now, overrides, client, d)
      ensures Under(name, d) <==> Under(deny, d) && d != deny
    {
      NotDenied(p, now, overrides, client, d, deny);
      if Under(name, d) {
        Comparable(name, d, deny);
      }
      if Under(deny, d) {
        UnderTransitive(name, deny, d);
      }
    }
  }

  lemma NotDenied(p: Policy, now: Moment, overrides: seq<Override>, client: string, d: string, deny: string)
    requires OpenFor(p, now, overrides, client, d) && deny in p.deny
    ensures !Under(d, deny)
  {
  }

  lemma UnderSelf(d: string)
    ensures Under(d, d)
  {
  }

  /** The deny list is not "always blocked": a denied name below an allowed one stays open - until everything is opened. */
  lemma DeniedYetOpen(sort: Sort, now: Moment)
    requires Sorts(sort)
    ensures var p := Policy({"b.cz"}, {}, {}, {}, {}, {}, {"a.b.cz"});
            && !Blocked(Rendered(p, sort, ["ip"], now, []), "ip", "a.b.cz")
            && Blocked(Rendered(p, sort, ["ip"], now, [Override("ip", "all")]), "ip", "a.b.cz")
  {
    hide Rendered, Sorts, Blocked;
    var p := Policy({"b.cz"}, {}, {}, {}, {}, {}, {"a.b.cz"});
    assert EndsWith("a.b.cz", ".b.cz");
    assert Under("a.b.cz", "b.cz") && Under("a.b.cz", "a.b.cz") && !Under("b.cz", "a.b.cz");
    assert OpenFor(p, now, [], "ip", "b.cz");
    BlockedExactly(p, sort, ["ip"], now, [], "ip", "a.b.cz");
    assert Override("ip", "all") in [Override("ip", "all")];
    BlockedExactly(p, sort, ["ip"], now, [Override("ip", "all")], "ip", "a.b.cz");
  }
}
