/** Every step of a one-time-code seed is accepted at most once (section 5.2 of RFC 6238), in every run. */
module PeopleCodes {
  import opened Wrappers
  import opened People
  import opened PeopleRuns
  import Throttle

  type Creds = map<string, Cred>

  /** No two people share a seed. */
  ghost predicate SeedsApart(creds: Creds) {
    forall p, q :: p in creds && q in creds && p != q && creds[p].seed.Some? ==> creds[p].seed != creds[q].seed
  }

  /** Whoever holds the seed has used a step of at least floor. */
  ghost predicate Floor(creds: Creds, seed: string, floor: int) {
    forall p :: p in creds && creds[p].seed == Some(seed) ==> creds[p].lastStep >= floor
  }

  ghost predicate StepsPositive(creds: Creds) {
    forall p :: p in creds ==> creds[p].lastStep >= 0
  }

  ghost predicate HasSeed(creds: Creds, seed: string) {
    exists p :: p in creds && creds[p].seed == Some(seed)
  }

  /** The seed that a setup link keeps. */
  function SetupSeed(db: Db, op: Op): Option<string> {
    if op.SetupOp? && op.link.Some? && op.link.value in db.links then db.links[op.link.value].seed else None
  }

  ghost predicate LinkHas(links: map<string, Link>, seed: string) {
    exists l :: l in links && links[l].seed == Some(seed)
  }

  ghost predicate Known(db: Db, seed: string) {
    HasSeed(db.creds, seed) || LinkHas(db.links, seed)
  }

  /** The links keep different seeds, and none that is in use. */
  ghost predicate LinksApart(db: Db) {
    && (forall l, m :: l in db.links && m in db.links && l != m && db.links[l].seed.Some? ==> db.links[l].seed != db.links[m].seed)
    && (forall l :: l in db.links && db.links[l].seed.Some? ==> !HasSeed(db.creds, db.links[l].seed.value))
  }

  /** The seed and step of an accepted one-time code. */
  function AcceptedCode(db: Db, hotp: Hotp, op: Op, now: real): Option<(string, int)>
    requires Allowed(db, op, now)
  {
    var a := Step(db, hotp, op, now).1;
    if a.SignedIn? && a.step.Some? then
      if op.SetupOp? && SetupSeed(db, op).Some? then Some((SetupSeed(db, op).value, a.step.value))
      else if (op.LoginOp? || op.AppLoginOp?) && op.who.Some? && op.who.value in db.creds && db.creds[op.who.value].seed.Some?
      then Some((db.creds[op.who.value].seed.value, a.step.value))
      else None
    else None
  }

  // ---- what an operation does to the credentials ----

  /** Unchanged, one person's last step raised, one person's credentials set anew, or forgotten. */
  datatype Effect = Kept | Raised(pid: string, step: int) | Replaced(pid: string, cred: Cred) | Forgotten(pid: string)

  function Apply(creds: Creds, e: Effect): Creds
    requires e.Raised? ==> e.pid in creds
  {
    match e
    case Kept => creds
    case Raised(pid, step) => creds[pid := creds[pid].(lastStep := step)]
    case Replaced(pid, cred) => creds[pid := cred]
    case Forgotten(pid) => creds - {pid}
  }

  /** A raise goes up, from a seed; new credentials hold a fresh seed or none, and a step that is not negative. */
  ghost predicate Sane(creds: Creds, e: Effect) {
    match e
    case Raised(pid, step) => pid in creds && creds[pid].seed.Some? && step > creds[pid].lastStep
    case Replaced(pid, cred) => cred.lastStep >= 0 && (cred.seed.Some? ==> !HasSeed(creds, cred.seed.value))
    case _ => true
  }

  lemma EffectKeeps(creds: Creds, e: Effect, seed: string, floor: int)
    requires SeedsApart(creds) && StepsPositive(creds) && Sane(creds, e)
    ensures SeedsApart(Apply(creds, e)) && StepsPositive(Apply(creds, e))
    ensures Floor(creds, seed, floor) && !(e.Replaced? && e.cred.seed == Some(seed)) ==> Floor(Apply(creds, e), seed, floor)
  {
  }

  /** Whoever raises a step is the only one with that seed. */
  lemma EffectFloors(creds: Creds, e: Effect)
    requires SeedsApart(creds) && Sane(creds, e)
    ensures e.Raised? ==> Floor(Apply(creds, e), creds[e.pid].seed.value, e.step)
    ensures e.Replaced? && e.cred.seed.Some? ==> Floor(Apply(creds, e), e.cred.seed.value, e.cred.lastStep)
  {
  }

  /** A step of the three around now that is newer than the last accepted one and gives the code. */
  ghost predicate Fits(hotp: Hotp, seed: string, code: string, lastStep: int, now: real, step: int) {
    (now / 30.0).Floor - 1 <= step <= (now / 30.0).Floor + 1 && step > lastStep && hotp.code(seed, step) == code
  }

  /** A code is accepted exactly when it has six digits and some step fits, and then for the first such step. */
  lemma TotpExactly(hotp: Hotp, seed: string, code: string, lastStep: int, now: real)
    ensures var r := VerifyTotp(hotp, seed, code, lastStep, now);
            && (r.Some? <==> |code| == 6 && (forall i :: 0 <= i < 6 ==> '0' <= code[i] <= '9') && exists s :: Fits(hotp, seed, code, lastStep, now, s))
            && (r.Some? ==> Fits(hotp, seed, code, lastStep, now, r.value) && forall s :: s < r.value ==> !Fits(hotp, seed, code, lastStep, now, s))
  {
    var cur, r := (now / 30.0).Floor, VerifyTotp(hotp, seed, code, lastStep, now);
    forall s
      ensures Fits(hotp, seed, code, lastStep, now, s) <==> (s == cur - 1 || s == cur || s == cur + 1) && s > lastStep && hotp.code(seed, s) == code
    {
    }
    assert r.Some? ==> Fits(hotp, seed, code, lastStep, now, r.value);
    var fits := s => Fits(hotp, seed, code, lastStep, now, s);
    assert fits(cur - 1) || fits(cur) || fits(cur + 1) <==> exists s :: Fits(hotp, seed, code, lastStep, now, s);
  }

  /** Who may sign in at a moment: the right password, an active person with web login, and - for admins and whoever has a
      seed - a code that fits. */
  ghost predicate MaySignIn(db: Db, hotp: Hotp, who: Option<string>, pw: Password, code: Typed, now: real) {
    && who.Some? && who.value in db.people && who.value in db.creds && db.creds[who.value].pwHash != "" && pw == Right
    && db.people[who.value].active && db.people[who.value].webLogin
    && (db.people[who.value].role == Admin ==> db.creds[who.value].seed.Some?)
    && (db.creds[who.value].seed.Some? ==>
          && code.Text? && |code.text| == 6 && (forall i :: 0 <= i < 6 ==> '0' <= code.text[i] <= '9')
          && exists s :: Fits(hotp, db.creds[who.value].seed.value, code.text, db.creds[who.value].lastStep, now, s))
  }

  /** The check of name, password and code succeeds exactly for those, when the throttle lets the attempt through. */
  lemma SignInExactly(db: Db, hotp: Hotp, account: Account, who: Option<string>, pw: Password, code: Typed, ip: string, t0: real, now: real)
    requires PersonRow(db, who)
    ensures CheckLogin(db, hotp, account, who, pw, code, ip, t0, now).1.Ok?
            <==> account.Named? && Throttle.Throttled(db.log, account.name, ip, t0) == Throttle.Pass && MaySignIn(db, hotp, who, pw, code, now)
  {
    hide Throttle.Throttled, VerifyTotp, Fits;
    if who.Some? && who.value in db.creds && db.creds[who.value].seed.Some? && code.Text? {
      TotpExactly(hotp, db.creds[who.value].seed.value, code.text, db.creds[who.value].lastStep, now);
    }
  }

  lemma CheckEffect(db: Db, hotp: Hotp, account: Account, who: Option<string>, pw: Password, code: Typed, ip: string, t0: real, now: real)
      returns (e: Effect)
    requires PersonRow(db, who) && StepsPositive(db.creds)
    ensures var (d, r) := CheckLogin(db, hotp, account, who, pw, code, ip, t0, now);
            && Sane(db.creds, e) && d.creds == Apply(db.creds, e)
            && (e == Kept || (e.Raised? && who == Some(e.pid)))
            && (e.Raised? <==> r.Ok? && r.value.Some?) && (e.Raised? ==> r.value.value == e.step)
  {
    hide Throttle.Throttled, VerifyTotp;
    var r := CheckLogin(db, hotp, account, who, pw, code, ip, t0, now).1;
    e := Kept;
    if r.Ok? && r.value.Some? {
      e := Raised(who.value, r.value.value);
      var c := db.creds[who.value];
      TotpNewer(hotp, c.seed.value, code.text, c.lastStep, now);
    }
  }

  lemma SetupEffect(db: Db, hotp: Hotp, op: Op, now: real) returns (e: Effect)
    requires Allowed(db, op, now) && op.SetupOp? && LinksApart(db)
    ensures Sane(db.creds, e) && Step(db, hotp, op, now).0.creds == Apply(db.creds, e) && !e.Raised?
    ensures e.Replaced? ==> Step(db, hotp, op, now).1.SignedIn? && (e.cred.seed.Some? ==> e.cred.seed == SetupSeed(db, op))
    ensures var a := Step(db, hotp, op, now).1;
            a.SignedIn? && a.step.Some? ==> e.Replaced? && e.cred.seed.Some? && e.cred.seed == SetupSeed(db, op) && e.cred.lastStep == a.step.value
  {
    hide VerifyTotp, HasSeed, SixDigits, OddDigits;
    e := Kept;
    if Step(db, hotp, op, now).1.SignedIn? {
      var l := db.links[op.link.value];
      TotpNewer(hotp, l.seed.value, op.proof, 0, now);
      e := Replaced(l.person, Step(db, hotp, op, now).0.creds[l.person]);
    }
  }

  lemma TotpNewer(hotp: Hotp, seed: string, code: string, lastStep: int, now: real)
    ensures var r := VerifyTotp(hotp, seed, code, lastStep, now); r.Some? ==> r.value > lastStep
  {
  }

  /** Operations on phones, sessions, people and codes leave the credentials alone. */
  lemma CredsKept(db: Db, hotp: Hotp, op: Op, now: real)
    requires Allowed(db, op, now) && !op.LoginOp? && !op.AppLoginOp? && !op.SetupOp? && !op.ResetOp?
    ensures Step(db, hotp, op, now).0.creds == db.creds && !Step(db, hotp, op, now).1.SignedIn?
  {
    hide LimitReached, Throttle.EnrolFails, Without, OtherAdmin, Setup;
  }

  /** Every operation has one of the four effects, and an accepted code is one that is recorded. */
  lemma StepEffect(db: Db, hotp: Hotp, op: Op, now: real) returns (e: Effect)
    requires Allowed(db, op, now) && StepsPositive(db.creds) && LinksApart(db)
    ensures Sane(db.creds, e) && Step(db, hotp, op, now).0.creds == Apply(db.creds, e)
    ensures var a := AcceptedCode(db, hotp, op, now);
            a.Some? ==> || (e.Raised? && db.creds[e.pid].seed == Some(a.value.0) && e.step == a.value.1)
                        || (e.Replaced? && op.SetupOp? && e.cred.seed == Some(a.value.0) && e.cred.lastStep == a.value.1)
    ensures e.Replaced? && e.cred.seed.Some? ==> op.SetupOp? && e.cred.seed == SetupSeed(db, op) && Step(db, hotp, op, now).1.SignedIn?
  {
    hide CheckLogin, LimitReached, StepsPositive, HasSeed, LinksApart, OddDigits, NewLink, BeginSetup, Create;
    e := Kept;
    if op.LoginOp? || op.AppLoginOp? {
      hide Setup, Patch, Enrol, NewCode, NewAppSession, RevokePhone, UseToken, UseSession;
      if op.LoginOp? || op.labelOk {
        e := CheckEffect(db, hotp, op.account, op.who, op.pw, op.totp, op.ip, op.t0, now);
      }
    } else if op.SetupOp? {
      hide Step;
      e := SetupEffect(db, hotp, op, now);
    } else if op.ResetOp? {
      hide Setup, Patch, Enrol, NewCode, NewAppSession, RevokePhone, UseToken, UseSession, AppLogin, WebLogin;
      if op.pid in db.people {
        e := Forgotten(op.pid);
      }
    } else {
      hide Step;
      CredsKept(db, hotp, op, now);
    }
  }

  // ---- what an operation does to the seeds of links ----

  /** Only a setup that begins brings a seed to a link. */
  lemma LinkSeedsFrom(db: Db, hotp: Hotp, op: Op, now: real, l: string)
    requires Allowed(db, op, now)
    ensures var links := Step(db, hotp, op, now).0.links;
            l in links && links[l].seed.Some? ==>
              || (l in db.links && links[l].seed == db.links[l].seed && !(op.SetupOp? && op.link == Some(l) && Step(db, hotp, op, now).1.SignedIn?))
              || (op.BeginSetupOp? && op.link == Some(l) && links[l].seed == Some(op.seed))
  {
    hide VerifyTotp, OddDigits;
    if !op.NewLinkOp? && !op.BeginSetupOp? && !op.SetupOp? {
      hide Step;
      LinksKept(db, hotp, op, now);
    }
  }

  /** A seed that is drawn is one that nobody has. */
  ghost predicate NewDraw(db: Db, op: Op) {
    op.BeginSetupOp? ==> !Known(db, op.seed)
  }

  /** Links that keep their seeds, but for one that is used up, or get a new one. */
  lemma LinksMove(db: Db, d: Db, drawn: Option<(string, string)>, used: Option<string>)
    requires LinksApart(db) && (drawn.Some? ==> used.None? && !Known(db, drawn.value.1))
    requires forall l :: l in d.links && d.links[l].seed.Some? ==>
               (l in db.links && d.links[l].seed == db.links[l].seed && used != Some(l)) || drawn == Some((l, d.links[l].seed.value))
    requires forall seed :: HasSeed(d.creds, seed) ==>
               HasSeed(db.creds, seed) || (used.Some? && used.value in db.links && db.links[used.value].seed == Some(seed))
    ensures LinksApart(d)
  {
  }

  lemma SeedsFrom(creds: Creds, e: Effect, seed: string)
    requires Sane(creds, e) && HasSeed(Apply(creds, e), seed)
    ensures HasSeed(creds, seed) || (e.Replaced? && e.cred.seed == Some(seed))
  {
    var p :| p in Apply(creds, e) && Apply(creds, e)[p].seed == Some(seed);
    if p in creds && creds[p].seed == Some(seed) {
      assert HasSeed(creds, seed);
    }
  }

  lemma LinksStayApart(db: Db, hotp: Hotp, op: Op, now: real, e: Effect)
    requires Allowed(db, op, now) && LinksApart(db) && NewDraw(db, op)
    requires Sane(db.creds, e) && Step(db, hotp, op, now).0.creds == Apply(db.creds, e)
    requires e.Replaced? && e.cred.seed.Some? ==> op.SetupOp? && e.cred.seed == SetupSeed(db, op) && Step(db, hotp, op, now).1.SignedIn?
    ensures LinksApart(Step(db, hotp, op, now).0)
  {
    hide Step, Allowed, LinksApart, Sane, Apply, Known, HasSeed;
    var d := Step(db, hotp, op, now).0;
    var drawn := if op.BeginSetupOp? && op.link.Some? then Some((op.link.value, op.seed)) else None;
    var used := if op.SetupOp? && Step(db, hotp, op, now).1.SignedIn? then op.link else None;
    forall l | l in d.links && d.links[l].seed.Some?
      ensures (l in db.links && d.links[l].seed == db.links[l].seed && used != Some(l)) || drawn == Some((l, d.links[l].seed.value))
    {
      LinkSeedsFrom(db, hotp, op, now, l);
    }
    forall seed | HasSeed(d.creds, seed)
      ensures HasSeed(db.creds, seed) || (used.Some? && used.value in db.links && db.links[used.value].seed == Some(seed))
    {
      SeedsFrom(db.creds, e, seed);
    }
    LinksMove(db, d, drawn, used);
  }

  // ---- over a run ----

  /** The state a run keeps: no seed is shared among people and links, and no step is negative. */
  ghost predicate Apart(db: Db) {
    SeedsApart(db.creds) && StepsPositive(db.creds) && LinksApart(db)
  }

  /** A run that starts apart, and in which every seed drawn is one that nobody has had. */
  ghost predicate GoodRun(r: Run, hotp: Hotp) {
    && IsRun(r, hotp) && Apart(r.dbs[0])
    && (forall i, m :: 0 <= m <= i < |r.ops| && r.ops[i].BeginSetupOp? ==> !Known(r.dbs[m], r.ops[i].seed))
  }

  lemma StepApart(db: Db, hotp: Hotp, op: Op, now: real) returns (e: Effect)
    requires Allowed(db, op, now) && Apart(db) && NewDraw(db, op)
    ensures Sane(db.creds, e) && Step(db, hotp, op, now).0.creds == Apply(db.creds, e)
    ensures Apart(Step(db, hotp, op, now).0)
    ensures var a := AcceptedCode(db, hotp, op, now);
            a.Some? ==> || (e.Raised? && db.creds[e.pid].seed == Some(a.value.0) && e.step == a.value.1)
                        || (e.Replaced? && op.SetupOp? && e.cred.seed == Some(a.value.0) && e.cred.lastStep == a.value.1)
    ensures e.Replaced? && e.cred.seed.Some? ==> op.SetupOp? && e.cred.seed == SetupSeed(db, op)
  {
    hide Step, Allowed, SeedsApart, StepsPositive, LinksApart, Sane, Apply, AcceptedCode, Known;
    e := StepEffect(db, hotp, op, now);
    EffectKeeps(db.creds, e, "", 0);
    LinksStayApart(db, hotp, op, now, e);
  }

  lemma {:induction false} ApartAt(r: Run, hotp: Hotp, k: nat)
    requires GoodRun(r, hotp) && k <= |r.ops|
    ensures Apart(r.dbs[k])
  {
    hide Step, Allowed, Apart, Sane, Apply, AcceptedCode, Known;
    if k > 0 {
      ApartAt(r, hotp, k - 1);
      var e := StepApart(r.dbs[k - 1], hotp, r.ops[k - 1], r.times[k - 1]);
    }
  }

  lemma FloorMeans(creds: Creds, seed: string, floor: int, pid: string)
    requires Floor(creds, seed, floor)
    ensures pid in creds && creds[pid].seed == Some(seed) ==> creds[pid].lastStep >= floor
  {
  }

  /** A seed in use is on no link, and - as no draw brings it again - never will be. */
  lemma {:induction false} OffLinks(r: Run, hotp: Hotp, seed: string, k: nat, j: nat)
    requires GoodRun(r, hotp) && k <= j <= |r.ops| && HasSeed(r.dbs[k].creds, seed)
    ensures !LinkHas(r.dbs[j].links, seed)
    decreases j
  {
    hide Step, Allowed, Sane, Apply, AcceptedCode, HasSeed;
    if j == k {
      ApartAt(r, hotp, k);
    } else {
      OffLinks(r, hotp, seed, k, j - 1);
      var db, op, now := r.dbs[j - 1], r.ops[j - 1], r.times[j - 1];
      if op.BeginSetupOp? {
        assert !Known(r.dbs[k], op.seed);
      }
      if LinkHas(r.dbs[j].links, seed) {
        var l :| l in r.dbs[j].links && r.dbs[j].links[l].seed == Some(seed);
        LinkSeedsFrom(db, hotp, op, now, l);
      }
    }
  }

  lemma {:induction false} FloorAt(r: Run, hotp: Hotp, seed: string, floor: int, m: nat, k: nat, j: nat)
    requires GoodRun(r, hotp) && m <= k <= j <= |r.ops| && HasSeed(r.dbs[m].creds, seed) && Floor(r.dbs[k].creds, seed, floor)
    ensures Floor(r.dbs[j].creds, seed, floor)
    decreases j
  {
    hide Step, Allowed, SeedsApart, StepsPositive, LinksApart, Sane, Apply, AcceptedCode, Floor, Known, HasSeed;
    if j > k {
      FloorAt(r, hotp, seed, floor, m, k, j - 1);
      ApartAt(r, hotp, j - 1);
      var e := StepApart(r.dbs[j - 1], hotp, r.ops[j - 1], r.times[j - 1]);
      OffLinks(r, hotp, seed, m, j - 1);
      NotFromLink(r.dbs[j - 1], r.ops[j - 1], seed);
      EffectKeeps(r.dbs[j - 1].creds, e, seed, floor);
    }
  }

  lemma NotFromLink(db: Db, op: Op, seed: string)
    requires !LinkHas(db.links, seed)
    ensures SetupSeed(db, op) != Some(seed)
  {
  }

  lemma InUse(creds: Creds, e: Effect)
    requires Sane(creds, e)
    ensures e.Raised? ==> HasSeed(Apply(creds, e), creds[e.pid].seed.value)
    ensures e.Replaced? && e.cred.seed.Some? ==> HasSeed(Apply(creds, e), e.cred.seed.value)
  {
    if e.Raised? || e.Replaced? {
      assert e.pid in Apply(creds, e);
    }
  }

  /** After a code is accepted, every accepted step of the same seed is a later one: no step is accepted twice. */
  lemma CodeOnce(r: Run, hotp: Hotp, k: nat, j: nat)
    requires GoodRun(r, hotp) && k < j < |r.ops| && AcceptedCode(r.dbs[k], hotp, r.ops[k], r.times[k]).Some?
    ensures var a, b := AcceptedCode(r.dbs[k], hotp, r.ops[k], r.times[k]), AcceptedCode(r.dbs[j], hotp, r.ops[j], r.times[j]);
            b.Some? && b.value.0 == a.value.0 ==> b.value.1 > a.value.1
  {
    hide Step, Allowed, SeedsApart, StepsPositive, LinksApart, AcceptedCode, Floor, Apply, Known, HasSeed;
    var a, b := AcceptedCode(r.dbs[k], hotp, r.ops[k], r.times[k]).value, AcceptedCode(r.dbs[j], hotp, r.ops[j], r.times[j]);
    ApartAt(r, hotp, k);
    var e := StepApart(r.dbs[k], hotp, r.ops[k], r.times[k]);
    EffectFloors(r.dbs[k].creds, e);
    InUse(r.dbs[k].creds, e);
    FloorAt(r, hotp, a.0, a.1, k + 1, k + 1, j);
    if b.Some? && b.value.0 == a.0 {
      ApartAt(r, hotp, j);
      var f := StepApart(r.dbs[j], hotp, r.ops[j], r.times[j]);
      OffLinks(r, hotp, a.0, k + 1, j);
      NotFromLink(r.dbs[j], r.ops[j], a.0);
      FloorMeans(r.dbs[j].creds, a.0, a.1, f.pid);
    }
  }
}
