/** What holds in every run of the credential operations, with the clock never going back. */
module PeopleRuns {
  import opened Wrappers
  import opened Throttle
  import opened People

  datatype Op =
    | TokenOp(hash: string, token: Option<string>)
    | KeyOp(hash: string, key: Option<string>)
    | SessionOp(session: string)
    | LogoutOp(device: string)
    | RevokeOp(role: Role, person: string, device: string)
    | PatchOp(pid: string, fields: Fields)
    | AppSessionOp(device: string, session: string)
    | LoginOp(account: Account, who: Option<string>, pw: Password, totp: Typed, ip: string, t0: real, session: string)
    | AppLoginOp(labelOk: bool, account: Account, who: Option<string>, pw: Password, totp: Typed, ip: string, t0: real,
                 device: string, hash: string, updateKey: string)
    | MintOp(device: string, updateKey: string)
    | WebLogoutOp(session: string)
    | ResetOp(pid: string)
    | CreateOp(pid: string, nameOk: bool, role: Role, parent: bool, web: Option<bool>)
    | NewLinkOp(pid: string, id: string, hash: string)
    | BeginSetupOp(hash: string, link: Option<string>, seed: string)
    | SetupOp(hash: string, link: Option<string>, pwOk: bool, pwHash: string, proof: string)
    | NewCodeOp(pid: string, id: string, hash: string)
    | EnrolOp(labelOk: bool, typed: string, code: Option<string>, ip: string, device: string, hash: string)

  datatype Answer = Granted(principal: Principal) | Denied | SignedIn(step: Option<int>) | Accepted | Failed(error: Error)

  /** The row an operation works on is the one its query finds, and the throttle's reading of the clock is not the later one. */
  predicate Allowed(db: Db, op: Op, now: real) {
    match op
    case TokenOp(hash, row) => TokenRow(db, hash, row)
    case KeyOp(hash, row) => KeyRow(db, hash, row)
    case BeginSetupOp(hash, row, _) => LinkRow(db, hash, row)
    case SetupOp(hash, row, _, _, _) => LinkRow(db, hash, row)
    case LoginOp(_, who, _, _, _, t0, _) => PersonRow(db, who) && t0 <= now
    case AppLoginOp(_, _, who, _, _, _, t0, _, _, _) => PersonRow(db, who) && t0 <= now
    case EnrolOp(_, typed, row, _, _, _) => CodeRow(db, typed, row)
    case _ => true
  }

  function OfPrincipal(p: Option<Principal>): Answer {
    if p.Some? then Granted(p.value) else Denied
  }

  function OfResult(r: Result<(), Error>): Answer {
    if r.Ok? then Accepted else Failed(r.error)
  }

  function OfLogin(r: Result<Option<int>, Error>): Answer {
    if r.Ok? then SignedIn(r.value) else Failed(r.error)
  }

  function Step(db: Db, hotp: Hotp, op: Op, now: real): (Db, Answer)
    requires Allowed(db, op, now)
  {
    match op
    case TokenOp(_, row) => var (d, p) := UseToken(db, row, now); (d, OfPrincipal(p))
    case KeyOp(_, row) => (db, OfPrincipal(UseKey(db, row, now)))
    case SessionOp(sid) => var (d, p) := UseSession(db, sid, now); (d, OfPrincipal(p))
    case LogoutOp(phone) => (Revoke(db, phone), Accepted)
    case RevokeOp(role, person, phone) => var (d, r) := RevokePhone(db, role, person, phone); (d, OfResult(r))
    case PatchOp(pid, f) => var (d, r) := Patch(db, pid, f); (d, OfResult(r))
    case AppSessionOp(phone, sid) => var (d, r) := NewAppSession(db, phone, sid, now); (d, OfResult(r))
    case LoginOp(account, who, pw, code, ip, t0, sid) =>
      var (d, r) := WebLogin(db, hotp, account, who, pw, code, ip, t0, now, sid); (d, OfLogin(r))
    case AppLoginOp(labelOk, account, who, pw, code, ip, t0, id, token, key) =>
      var (d, r) := AppLogin(db, hotp, labelOk, account, who, pw, code, ip, t0, now, id, token, key); (d, OfLogin(r))
    case MintOp(phone, key) => (MintKey(db, phone, key), Accepted)
    case WebLogoutOp(sid) => (Logout(db, sid), Accepted)
    case ResetOp(pid) => var (d, r) := ResetCredentials(db, pid); (d, OfResult(r))
    case CreateOp(pid, nameOk, role, parent, web) => var (d, r) := Create(db, pid, nameOk, role, parent, web); (d, OfResult(r))
    case NewLinkOp(pid, id, hash) => var (d, r) := NewLink(db, pid, id, hash, now); (d, OfResult(r))
    case BeginSetupOp(_, row, seed) => var (d, r) := BeginSetup(db, row, seed, now); (d, OfResult(r))
    case SetupOp(_, row, pwOk, pw, code) => var (d, r) := Setup(db, hotp, row, pwOk, pw, code, now); (d, OfLogin(r))
    case NewCodeOp(pid, id, hash) => var (d, r) := NewCode(db, pid, id, hash, now); (d, OfResult(r))
    case EnrolOp(labelOk, _, row, ip, id, token) => var (d, r) := Enrol(db, labelOk, row, ip, now, id, token); (d, OfResult(r))
  }

  datatype Run = Run(dbs: seq<Db>, ops: seq<Op>, times: seq<real>)

  ghost predicate IsRun(r: Run, hotp: Hotp) {
    && |r.dbs| == |r.ops| + 1 && |r.times| == |r.ops|
    && (forall i, j :: 0 <= i <= j < |r.times| ==> r.times[i] <= r.times[j])
    && (forall k :: 0 <= k < |r.ops| ==> Allowed(r.dbs[k], r.ops[k], r.times[k]) && r.dbs[k + 1] == Step(r.dbs[k], hotp, r.ops[k], r.times[k]).0)
  }

  function AnswerAt(r: Run, hotp: Hotp, k: nat): Answer
    requires IsRun(r, hotp) && k < |r.ops|
  {
    Step(r.dbs[k], hotp, r.ops[k], r.times[k]).1
  }

  // ---- what a credential check touches ----

  lemma CheckTouches(db: Db, hotp: Hotp, account: Account, who: Option<string>, pw: Password, code: Typed, ip: string, t0: real, now: real)
    requires PersonRow(db, who)
    ensures var (d, r) := CheckLogin(db, hotp, account, who, pw, code, ip, t0, now);
            && d.phones == db.phones && d.sessions == db.sessions && d.people == db.people && d.codes == db.codes && d.links == db.links
            && (d.log == db.log
                || (account.Named? && Throttled(db.log, account.name, ip, t0) == Pass
                    && d.log == db.log + [Attempt(now, ip, account.name, r.Ok?, true)]))
            && (r == Err(InvalidCredentials) ==> d.log != db.log)
            && (r.Err? && r.error.Limited? ==> d == db) && (r.Ok? ==> who.Some?)
  {
    hide Throttled, VerifyTotp;
  }

  lemma TouchedBy(db: Db, hotp: Hotp, op: Op, now: real)
    requires Allowed(db, op, now) && (op.LoginOp? || op.AppLoginOp?)
    ensures var (c, r) := CheckLogin(db, hotp, op.account, op.who, op.pw, op.totp, op.ip, op.t0, now);
            && c.phones == db.phones && c.sessions == db.sessions && c.people == db.people && c.codes == db.codes && c.links == db.links
            && (r.Ok? ==> op.who.Some?)
  {
    hide CheckLogin;
    CheckTouches(db, hotp, op.account, op.who, op.pw, op.totp, op.ip, op.t0, now);
  }

  // ---- dead phones stay dead ----

  /** Revoked, or past its expiry. */
  ghost predicate Dead(db: Db, phone: string, now: real) {
    phone in db.phones && (db.phones[phone].revoked || db.phones[phone].expires < now)
  }

  lemma StaysDead(db: Db, hotp: Hotp, op: Op, phone: string, t: real, now: real)
    requires Allowed(db, op, now) && Dead(db, phone, t) && t <= now
    ensures Dead(Step(db, hotp, op, now).0, phone, now)
  {
    hide TokenRow, KeyRow, CodeRow, LinkRow, PersonRow;
    hide CheckLogin, LimitReached, EnrolFails, Without, VerifyTotp, OtherAdmin, UseKey, UseSession, NewAppSession;
    hide Setup, NewCode, ResetCredentials, NewLink, BeginSetup, Create;
    if op.LoginOp? || op.AppLoginOp? {
      TouchedBy(db, hotp, op, now);
    } else if Phoneless(op) {
      PhonesKept(db, hotp, op, now);
    }
  }

  /** The operations that leave the phones alone. */
  predicate Phoneless(op: Op) {
    || op.SessionOp? || op.AppSessionOp? || op.SetupOp? || op.NewCodeOp? || op.ResetOp? || op.CreateOp? || op.NewLinkOp?
    || op.BeginSetupOp?
  }

  lemma PhonesKept(db: Db, hotp: Hotp, op: Op, now: real)
    requires Allowed(db, op, now) && Phoneless(op)
    ensures Step(db, hotp, op, now).0.phones == db.phones
  {
    hide LimitReached, VerifyTotp;
  }

  lemma NotGranted(db: Db, hotp: Hotp, op: Op, phone: string, t: real, now: real)
    requires Allowed(db, op, now) && Dead(db, phone, t) && t <= now
    ensures var a := Step(db, hotp, op, now).1; a.Granted? ==> a.principal.phone != Some(phone)
  {
    hide RevokePhone, Patch, NewAppSession, WebLogin, AppLogin, Setup, NewCode, Enrol, ResetCredentials, NewLink, BeginSetup, Create;
  }

  lemma DeadStays(db: Db, hotp: Hotp, op: Op, phone: string, t: real, now: real)
    requires Allowed(db, op, now) && Dead(db, phone, t) && t <= now
    ensures Dead(Step(db, hotp, op, now).0, phone, now)
    ensures var a := Step(db, hotp, op, now).1; a.Granted? ==> a.principal.phone != Some(phone)
  {
    hide Dead, Step, Allowed;
    StaysDead(db, hotp, op, phone, t, now);
    NotGranted(db, hotp, op, phone, t, now);
  }

  /** Revoking, logging out and deactivating the person kill the phone; the first two also close its sessions. */
  lemma Kills(db: Db, hotp: Hotp, op: Op, phone: string, now: real)
    requires Allowed(db, op, now) && phone in db.phones
    requires || (op.LogoutOp? && op.device == phone)
             || (op.RevokeOp? && op.device == phone && Step(db, hotp, op, now).1 == Accepted)
             || (op.PatchOp? && op.pid == db.phones[phone].person && op.fields.active == Some(false) && Step(db, hotp, op, now).1 == Accepted)
    ensures Dead(Step(db, hotp, op, now).0, phone, now)
    ensures !op.PatchOp? ==> forall s :: s in Step(db, hotp, op, now).0.sessions ==> db.sessions[s].phone != Some(phone)
    ensures op.PatchOp? ==> forall s :: s in Step(db, hotp, op, now).0.sessions ==> db.sessions[s].person != op.pid
  {
    hide OtherAdmin;
  }

  /** Once a phone is dead, no later request is granted for it - by token, update key or session - whatever happens in
      between, its person being active again included. */
  lemma {:induction false} DeadForever(r: Run, hotp: Hotp, phone: string, k: nat, j: nat)
    requires IsRun(r, hotp) && k <= j < |r.ops| && Dead(r.dbs[k], phone, r.times[k])
    ensures Dead(r.dbs[j], phone, r.times[j])
    ensures AnswerAt(r, hotp, j).Granted? ==> AnswerAt(r, hotp, j).principal.phone != Some(phone)
    decreases j
  {
    hide Step, Allowed;
    if j > k {
      DeadForever(r, hotp, phone, k, j - 1);
      DeadStays(r.dbs[j - 1], hotp, r.ops[j - 1], phone, r.times[j - 1], r.times[j - 1]);
      assert r.times[j - 1] <= r.times[j];
    }
    DeadStays(r.dbs[j], hotp, r.ops[j], phone, r.times[j], r.times[j]);
  }

  // ---- somebody can always manage the system ----

  ghost predicate HasAdmin(people: map<string, Person>) {
    exists id :: IsAdmin(people, id)
  }

  ghost predicate IsAdmin(people: map<string, Person>, id: string) {
    id in people && people[id].role == Admin && people[id].active
  }

  lemma AdminStays(db: Db, hotp: Hotp, op: Op, now: real)
    requires Allowed(db, op, now) && HasAdmin(db.people)
    ensures HasAdmin(Step(db, hotp, op, now).0.people)
  {
    var id :| IsAdmin(db.people, id);
    if op.PatchOp? {
      PatchKeepsAdmin(db, op.pid, op.fields, id);
    } else if op.CreateOp? {
      assert IsAdmin(Create(db, op.pid, op.nameOk, op.role, op.parent, op.web).0.people, id);
    } else {
      hide Step, Allowed;
      PeopleKept(db, hotp, op, now);
    }
  }

  lemma PatchKeepsAdmin(db: Db, pid: string, f: Fields, id: string)
    requires IsAdmin(db.people, id)
    ensures HasAdmin(Patch(db, pid, f).0.people)
  {
    var people := Patch(db, pid, f).0.people;
    if !IsAdmin(people, id) {
      var other :| other in db.people && other != pid && db.people[other].role == Admin && db.people[other].active;
      assert IsAdmin(people, other);
    }
  }

  lemma PeopleKept(db: Db, hotp: Hotp, op: Op, now: real)
    requires Allowed(db, op, now) && !op.PatchOp? && !op.CreateOp?
    ensures Step(db, hotp, op, now).0.people == db.people
  {
    hide CheckLogin, LimitReached, EnrolFails, Without, VerifyTotp, Patch, Create, OddDigits;
    if op.LoginOp? || op.AppLoginOp? {
      TouchedBy(db, hotp, op, now);
    }
  }

  /** In every run that starts with an active admin, there always is one. */
  lemma {:induction false} AdminAlways(r: Run, hotp: Hotp, k: nat)
    requires IsRun(r, hotp) && k <= |r.ops| && HasAdmin(r.dbs[0].people)
    ensures HasAdmin(r.dbs[k].people)
  {
    hide Step, Allowed, HasAdmin;
    if k > 0 {
      AdminAlways(r, hotp, k - 1);
      AdminStays(r.dbs[k - 1], hotp, r.ops[k - 1], r.times[k - 1]);
    }
  }

  // ---- enrolment codes are traded once ----

  ghost predicate Spent(db: Db, code: string) {
    code in db.codes && db.codes[code].used
  }

  lemma SpentStays(db: Db, hotp: Hotp, op: Op, now: real, code: string)
    requires Allowed(db, op, now)
    ensures Spent(db, code) ==> Spent(Step(db, hotp, op, now).0, code)
    ensures op.EnrolOp? && op.code == Some(code) && Step(db, hotp, op, now).1 == Accepted
            ==> !Spent(db, code) && Spent(Step(db, hotp, op, now).0, code)
  {
    hide CheckLogin, LimitReached, EnrolFails, Without, VerifyTotp, OtherAdmin;
    if op.LoginOp? || op.AppLoginOp? {
      TouchedBy(db, hotp, op, now);
    }
  }

  lemma {:induction false} SpentForever(r: Run, hotp: Hotp, code: string, k: nat, j: nat)
    requires IsRun(r, hotp) && k <= j <= |r.ops| && Spent(r.dbs[k], code)
    ensures Spent(r.dbs[j], code)
    decreases j
  {
    hide Step, Allowed, Spent;
    if j > k {
      SpentForever(r, hotp, code, k, j - 1);
      SpentStays(r.dbs[j - 1], hotp, r.ops[j - 1], r.times[j - 1], code);
    }
  }

  /** Every enrolment code is traded for a device at most once. */
  lemma EnrolOnce(r: Run, hotp: Hotp, code: string, k: nat, j: nat)
    requires IsRun(r, hotp) && k < j < |r.ops| && r.ops[k].EnrolOp? && r.ops[j].EnrolOp?
    requires r.ops[k].code == Some(code) && r.ops[j].code == Some(code) && AnswerAt(r, hotp, k) == Accepted
    ensures AnswerAt(r, hotp, j) != Accepted
  {
    hide Step, Allowed, Spent;
    SpentStays(r.dbs[k], hotp, r.ops[k], r.times[k], code);
    SpentForever(r, hotp, code, k + 1, j);
    SpentStays(r.dbs[j], hotp, r.ops[j], r.times[j], code);
  }

  // ---- setup links are used once ----

  ghost predicate LinkSpent(db: Db, link: string) {
    link in db.links && db.links[link].used
  }

  lemma LinkStays(db: Db, hotp: Hotp, op: Op, now: real, link: string)
    requires Allowed(db, op, now)
    ensures LinkSpent(db, link) ==> LinkSpent(Step(db, hotp, op, now).0, link)
    ensures op.SetupOp? && op.link == Some(link) && Step(db, hotp, op, now).1.SignedIn?
            ==> !LinkSpent(db, link) && LinkSpent(Step(db, hotp, op, now).0, link)
  {
    hide VerifyTotp, OddDigits;
    if !op.NewLinkOp? && !op.BeginSetupOp? && !op.SetupOp? {
      LinksKept(db, hotp, op, now);
    }
  }

  lemma LinksKept(db: Db, hotp: Hotp, op: Op, now: real)
    requires Allowed(db, op, now) && !op.NewLinkOp? && !op.BeginSetupOp? && !op.SetupOp?
    ensures Step(db, hotp, op, now).0.links == db.links
  {
    hide CheckLogin, LimitReached, EnrolFails, Without, OtherAdmin;
    if op.LoginOp? || op.AppLoginOp? {
      TouchedBy(db, hotp, op, now);
    }
  }

  lemma {:induction false} LinkForever(r: Run, hotp: Hotp, link: string, k: nat, j: nat)
    requires IsRun(r, hotp) && k <= j <= |r.ops| && LinkSpent(r.dbs[k], link)
    ensures LinkSpent(r.dbs[j], link)
    decreases j
  {
    hide Step, Allowed, LinkSpent;
    if j > k {
      LinkForever(r, hotp, link, k, j - 1);
      LinkStays(r.dbs[j - 1], hotp, r.ops[j - 1], r.times[j - 1], link);
    }
  }

  /** A setup link sets credentials at most once. */
  lemma SetupOnce(r: Run, hotp: Hotp, link: string, k: nat, j: nat)
    requires IsRun(r, hotp) && k < j < |r.ops| && r.ops[k].SetupOp? && r.ops[j].SetupOp?
    requires r.ops[k].link == Some(link) && r.ops[j].link == Some(link) && AnswerAt(r, hotp, k).SignedIn?
    ensures !AnswerAt(r, hotp, j).SignedIn?
  {
    hide Step, Allowed, LinkSpent;
    LinkStays(r.dbs[k], hotp, r.ops[k], r.times[k], link);
    LinkForever(r, hotp, link, k + 1, j);
    LinkStays(r.dbs[j], hotp, r.ops[j], r.times[j], link);
  }

  // ---- the throttle in every run ----

  ghost predicate LogAt(log: seq<Attempt>, now: real) {
    Guarded(log) && EnrolGuarded(log) && (log != [] ==> log[|log| - 1].ts <= now)
  }

  /** A row may be recorded: a credential check that passed the throttle, or a failed enrolment below its limit. */
  ghost predicate MayRecord(log: seq<Attempt>, a: Attempt, t0: real) {
    if a.check then t0 <= a.ts && Throttled(log, a.account, a.ip, t0) == Pass
    else a == Attempt(a.ts, a.ip, "enrol", false, false) && EnrolFails(log, a.ip, a.ts - FAIL_WINDOW) < ENROL_FAIL_LIMIT
  }

  lemma LogKept(db: Db, hotp: Hotp, op: Op, now: real)
    requires Allowed(db, op, now) && !op.LoginOp? && !op.AppLoginOp? && !op.EnrolOp?
    ensures Step(db, hotp, op, now).0.log == db.log
  {
    hide LimitReached, Without, VerifyTotp, OtherAdmin;
  }

  lemma CheckLogged(db: Db, hotp: Hotp, op: Op, now: real) returns (a: Option<Attempt>)
    requires Allowed(db, op, now) && (op.LoginOp? || op.AppLoginOp?)
    ensures Step(db, hotp, op, now).0.log == db.log + if a.Some? then [a.value] else []
    ensures a.Some? ==> a.value.ts == now && MayRecord(db.log, a.value, op.t0)
    ensures Step(db, hotp, op, now).1 == Failed(InvalidCredentials) ==>
              op.account.Named? && a == Some(Attempt(now, op.ip, op.account.name, false, true))
  {
    hide CheckLogin, LimitReached, Throttled, UseToken, UseSession, Patch, NewAppSession, RevokePhone, NewCode, Enrol, Setup;
    CheckTouches(db, hotp, op.account, op.who, op.pw, op.totp, op.ip, op.t0, now);
    var (d, r) := CheckLogin(db, hotp, op.account, op.who, op.pw, op.totp, op.ip, op.t0, now);
    a := None;
    if d.log != db.log && Step(db, hotp, op, now).0.log == d.log {
      a := Some(Attempt(now, op.ip, op.account.name, r.Ok?, true));
    }
  }

  lemma EnrolLogged(db: Db, hotp: Hotp, op: Op, now: real) returns (a: Option<Attempt>)
    requires Allowed(db, op, now) && op.EnrolOp?
    ensures Step(db, hotp, op, now).0.log == db.log + if a.Some? then [a.value] else []
    ensures a.Some? ==> a.value.ts == now && MayRecord(db.log, a.value, now)
    ensures op.code.None? && Step(db, hotp, op, now).1 == Failed(InvalidCode) ==> a == Some(Attempt(now, op.ip, "enrol", false, false))
  {
    hide LimitReached, EnrolFails;
    a := if Step(db, hotp, op, now).0.log == db.log then None else Some(Attempt(now, op.ip, "enrol", false, false));
  }

  lemma StepLogged(db: Db, hotp: Hotp, op: Op, now: real) returns (a: Option<Attempt>)
    requires Allowed(db, op, now)
    ensures Step(db, hotp, op, now).0.log == db.log + if a.Some? then [a.value] else []
    ensures a.Some? ==> a.value.ts == now
    ensures WrongLogin(op, Step(db, hotp, op, now).1) ==> op.account.Named? && a == Some(Attempt(now, op.ip, op.account.name, false, true))
    ensures WrongCode(op, Step(db, hotp, op, now).1) ==> a == Some(Attempt(now, op.ip, "enrol", false, false))
  {
    hide Step, Allowed, MayRecord;
    a := None;
    if op.LoginOp? || op.AppLoginOp? {
      a := CheckLogged(db, hotp, op, now);
    } else if op.EnrolOp? {
      a := EnrolLogged(db, hotp, op, now);
    } else {
      LogKept(db, hotp, op, now);
    }
  }

  /** A sign-in that was told that its credentials are wrong. */
  predicate WrongLogin(op: Op, a: Answer) {
    (op.LoginOp? || op.AppLoginOp?) && a == Failed(InvalidCredentials)
  }

  /** An enrolment with a code that does not exist, told so. */
  predicate WrongCode(op: Op, a: Answer) {
    op.EnrolOp? && op.code.None? && a == Failed(InvalidCode)
  }

  lemma LogGrows(db: Db, hotp: Hotp, op: Op, now: real)
    requires Allowed(db, op, now) && LogAt(db.log, now)
    ensures LogAt(Step(db, hotp, op, now).0.log, now)
  {
    hide Step, Allowed, LogAt, MayRecord;
    if op.LoginOp? || op.AppLoginOp? {
      var a := CheckLogged(db, hotp, op, now);
      Recorded(db.log, a, op.t0, now);
    } else if op.EnrolOp? {
      var a := EnrolLogged(db, hotp, op, now);
      Recorded(db.log, a, now, now);
    } else {
      LogKept(db, hotp, op, now);
    }
  }

  lemma Recorded(log: seq<Attempt>, a: Option<Attempt>, t0: real, now: real)
    requires LogAt(log, now) && (a.Some? ==> a.value.ts == now && MayRecord(log, a.value, t0))
    ensures LogAt(log + if a.Some? then [a.value] else [], now)
  {
    hide Guarded, EnrolGuarded, Throttled, EnrolFails;
    if a.None? {
      assert log + [] == log;
    } else {
      EnrolGuardedNext(log, a.value);
      if a.value.check {
        CheckRecorded(log, a.value, t0);
      } else {
        EnrolRecorded(log, a.value.ip, now);
      }
    }
  }

  /** An attempt the throttle refuses changes nothing: it is not recorded. */
  lemma RefusedNotRecorded(db: Db, hotp: Hotp, op: Op, now: real)
    requires Allowed(db, op, now)
    requires var a := Step(db, hotp, op, now).1; a.Failed? && a.error.Limited?
    ensures Step(db, hotp, op, now).0 == db
  {
    hide CheckLogin, LimitReached, EnrolFails, Throttled, VerifyTotp, Without, OtherAdmin;
    if op.LoginOp? || op.AppLoginOp? {
      CheckTouches(db, hotp, op.account, op.who, op.pw, op.totp, op.ip, op.t0, now);
    }
  }

  /** An attempt is recorded if and only if its account can be stored, the throttle lets it through and its check does not
      raise, and then with its verdict; one that raises changes nothing, so the throttle never counts it. */
  lemma RecordedExactly(db: Db, hotp: Hotp, account: Account, who: Option<string>, pw: Password, code: Typed, ip: string, t0: real, now: real)
    requires PersonRow(db, who)
    ensures var (d, r) := CheckLogin(db, hotp, account, who, pw, code, ip, t0, now);
            && (|d.log| == |db.log| + 1 <==>
                  && account.Named? && Throttled(db.log, account.name, ip, t0) == Pass
                  && (who.None? || who.value !in db.creds || db.creds[who.value].pwHash == "" ==> pw != Unencodable)
                  && (who.Some? && who.value in db.creds && db.creds[who.value].pwHash != "" && db.creds[who.value].seed.Some? && pw == Right ==>
                        && code.Text?
                        && !(OddCode(hotp, code.text) && (now / 30.0).Floor + 1 > db.creds[who.value].lastStep)))
            && (|d.log| == |db.log| + 1 ==>
                  d.log == db.log + [Attempt(now, ip, account.name, r.Ok?, true)] && (r.Err? ==> r.error == InvalidCredentials))
            && (|d.log| != |db.log| + 1 ==> d == db && r.Err? && (r.error.Limited? || r.error == CheckRaised))
  {
    hide Throttled, AddressGate, VerifyTotp, OddDigits, OddCode;
    if code.Text? {
      OddExactly(hotp, code.text);
    }
  }

  /** Six digits, one of them not ASCII at least. */
  ghost predicate OddCode(hotp: Hotp, code: string) {
    && |code| == 6 && (forall c :: c in code ==> '0' <= c <= '9' || (c as int > 127 && hotp.digit(c)))
    && exists c :: c in code && c as int > 127
  }

  lemma OddExactly(hotp: Hotp, code: string)
    ensures OddCode(hotp, code) <==> OddDigits(hotp, code)
  {
    if OddDigits(hotp, code) {
      var i :| 0 <= i < 6 && !('0' <= code[i] <= '9');
      assert code[i] in code;
    }
    if OddCode(hotp, code) {
      var c :| c in code && c as int > 127;
      var i :| 0 <= i < 6 && code[i] == c;
      assert forall j :: 0 <= j < 6 ==> code[j] in code;
    }
  }

  lemma CheckRecorded(log: seq<Attempt>, a: Attempt, t0: real)
    requires Guarded(log) && (log != [] ==> log[|log| - 1].ts <= a.ts) && t0 <= a.ts && Throttled(log, a.account, a.ip, t0) == Pass
    ensures Guarded(log + [a])
  {
    hide Throttled;
    var l := log + [a];
    forall i | 0 <= i < |l| && l[i].check
      ensures exists t :: PassedAt(l, i, t)
    {
      if i < |log| {
        var t :| PassedAt(log, i, t);
        assert l[..i] == log[..i];
        assert PassedAt(l, i, t);
      } else {
        assert l[..i] == log;
        assert PassedAt(l, i, t0);
      }
    }
  }

  lemma EnrolRecorded(log: seq<Attempt>, ip: string, now: real)
    requires Guarded(log) && (log != [] ==> log[|log| - 1].ts <= now)
    ensures Guarded(log + [Attempt(now, ip, "enrol", false, false)])
  {
    hide Throttled;
    var l := log + [Attempt(now, ip, "enrol", false, false)];
    forall i | 0 <= i < |l| && l[i].check
      ensures exists t :: PassedAt(l, i, t)
    {
      var t :| PassedAt(log, i, t);
      assert l[..i] == log[..i];
      assert PassedAt(l, i, t);
    }
  }

  lemma {:induction false} RunGuarded(r: Run, hotp: Hotp, k: nat)
    requires IsRun(r, hotp) && k <= |r.ops| && r.dbs[0].log == []
    ensures Guarded(r.dbs[k].log) && EnrolGuarded(r.dbs[k].log)
    ensures k < |r.ops| ==> LogAt(r.dbs[k].log, r.times[k])
  {
    hide Step, Allowed;
    if k > 0 {
      RunGuarded(r, hotp, k - 1);
      LogGrows(r.dbs[k - 1], hotp, r.ops[k - 1], r.times[k - 1]);
      assert k < |r.ops| ==> r.times[k - 1] <= r.times[k];
    }
  }

  /** In every run, at most 12 failed credential checks of an account fall into any 900 seconds. */
  lemma RunTwelvePerWindow(r: Run, hotp: Hotp, k: nat, account: string, end: real)
    requires IsRun(r, hotp) && k <= |r.ops| && r.dbs[0].log == []
    ensures |WindowFails(r.dbs[k].log, account, end)| <= 12
  {
    RunGuarded(r, hotp, k);
    TwelvePerWindow(r.dbs[k].log, account, end);
  }

  /** And from one address at most 20 failed credential checks and 10 failed enrolments. */
  lemma RunAddressLimits(r: Run, hotp: Hotp, k: nat, ip: string, end: real)
    requires IsRun(r, hotp) && k <= |r.ops| && r.dbs[0].log == []
    ensures AddressWindow(r.dbs[k].log, ip, true, end) <= 20 && AddressWindow(r.dbs[k].log, ip, false, end) <= 10
  {
    RunGuarded(r, hotp, k);
    TwentyPerAddress(r.dbs[k].log, ip, end);
    TenEnrolments(r.dbs[k].log, ip, end);
  }

  // ---- counted from the answers ----

  ghost predicate InWindow(t: real, end: real) {
    end - FAIL_WINDOW < t <= end
  }

  /** The first n operations that guessed at the account. */
  ghost function Guesses(r: Run, hotp: Hotp, account: string, end: real, n: nat): set<int>
    requires IsRun(r, hotp) && n <= |r.ops|
  {
    set k | 0 <= k < n && InWindow(r.times[k], end) && WrongLogin(r.ops[k], AnswerAt(r, hotp, k)) && r.ops[k].account == Named(account)
  }

  /** Those, or the enrolments, that came from the address. */
  ghost function GuessesFrom(r: Run, hotp: Hotp, ip: string, check: bool, end: real, n: nat): set<int>
    requires IsRun(r, hotp) && n <= |r.ops|
  {
    set k | 0 <= k < n && InWindow(r.times[k], end) && r.ops[k].EnrolOp? != check
            && (if check then WrongLogin(r.ops[k], AnswerAt(r, hotp, k)) else WrongCode(r.ops[k], AnswerAt(r, hotp, k)))
            && r.ops[k].ip == ip
  }

  lemma {:induction false} GuessesCounted(r: Run, hotp: Hotp, account: string, end: real, n: nat)
    requires IsRun(r, hotp) && n <= |r.ops|
    ensures |Guesses(r, hotp, account, end, n)| <= |WindowFails(r.dbs[n].log, account, end)|
  {
    hide Step, Allowed, WrongLogin, WrongCode;
    if n > 0 {
      var k := n - 1;
      GuessesCounted(r, hotp, account, end, k);
      var a := StepLogged(r.dbs[k], hotp, r.ops[k], r.times[k]);
      WindowGrows(r.dbs[k].log, a, account, end);
      var more, rest := Guesses(r, hotp, account, end, n), Guesses(r, hotp, account, end, k);
      assert more - {k} == rest;
    }
  }

  lemma WindowGrows(log: seq<Attempt>, a: Option<Attempt>, account: string, end: real)
    ensures var later := log + if a.Some? then [a.value] else [];
            |WindowFails(later, account, end)|
            >= |WindowFails(log, account, end)|
               + if a.Some? && a.value.check && !a.value.ok && a.value.account == account && InWindow(a.value.ts, end) then 1 else 0
  {
    var later := log + if a.Some? then [a.value] else [];
    if a.Some? {
      assert later[..|log|] == log;
    } else {
      assert later == log;
    }
  }

  lemma {:induction false} GuessesFromCounted(r: Run, hotp: Hotp, ip: string, check: bool, end: real, n: nat)
    requires IsRun(r, hotp) && n <= |r.ops|
    ensures |GuessesFrom(r, hotp, ip, check, end, n)| <= AddressWindow(r.dbs[n].log, ip, check, end)
  {
    hide Step, Allowed, WrongLogin, WrongCode, InWindow, Throttled;
    if n > 0 {
      var k := n - 1;
      GuessesFromCounted(r, hotp, ip, check, end, k);
      var a := StepLogged(r.dbs[k], hotp, r.ops[k], r.times[k]);
      hide AddressWindow;
      AddressGrows(r.dbs[k].log, a, ip, check, end);
      var more, rest := GuessesFrom(r, hotp, ip, check, end, n), GuessesFrom(r, hotp, ip, check, end, k);
      assert more - {k} == rest;
    }
  }

  lemma AddressGrows(log: seq<Attempt>, a: Option<Attempt>, ip: string, check: bool, end: real)
    ensures var later := log + if a.Some? then [a.value] else [];
            AddressWindow(later, ip, check, end)
            >= AddressWindow(log, ip, check, end)
               + if a.Some? && a.value.check == check && !a.value.ok && a.value.ip == ip && InWindow(a.value.ts, end) then 1 else 0
  {
    var later := log + if a.Some? then [a.value] else [];
    if a.Some? {
      assert later[..|log|] == log;
    } else {
      assert later == log;
    }
  }

  /** In every run, whoever guesses at an account is told at most 12 times in any 900 seconds that the credentials are wrong. */
  lemma TwelveGuesses(r: Run, hotp: Hotp, account: string, end: real)
    requires IsRun(r, hotp) && r.dbs[0].log == []
    ensures |set k | 0 <= k < |r.ops| && end - 900.0 < r.times[k] <= end && (r.ops[k].LoginOp? || r.ops[k].AppLoginOp?)
                     && r.ops[k].account == Named(account) && AnswerAt(r, hotp, k) == Failed(InvalidCredentials)| <= 12
  {
    hide Step, Allowed;
    GuessesCounted(r, hotp, account, end, |r.ops|);
    RunTwelvePerWindow(r, hotp, |r.ops|, account, end);
    assert Guesses(r, hotp, account, end, |r.ops|)
        == set k | 0 <= k < |r.ops| && end - 900.0 < r.times[k] <= end && (r.ops[k].LoginOp? || r.ops[k].AppLoginOp?)
                   && r.ops[k].account == Named(account) && AnswerAt(r, hotp, k) == Failed(InvalidCredentials);
  }

  /** And one address at most 20 times, whatever the accounts, and at most 10 times that an enrolment code does not exist. */
  lemma AddressGuesses(r: Run, hotp: Hotp, ip: string, end: real)
    requires IsRun(r, hotp) && r.dbs[0].log == []
    ensures |set k | 0 <= k < |r.ops| && end - 900.0 < r.times[k] <= end && (r.ops[k].LoginOp? || r.ops[k].AppLoginOp?)
                     && r.ops[k].ip == ip && AnswerAt(r, hotp, k) == Failed(InvalidCredentials)| <= 20
    ensures |set k | 0 <= k < |r.ops| && end - 900.0 < r.times[k] <= end && r.ops[k].EnrolOp? && r.ops[k].code.None?
                     && r.ops[k].ip == ip && AnswerAt(r, hotp, k) == Failed(InvalidCode)| <= 10
  {
    hide Step, Allowed;
    GuessesFromCounted(r, hotp, ip, true, end, |r.ops|);
    GuessesFromCounted(r, hotp, ip, false, end, |r.ops|);
    RunAddressLimits(r, hotp, |r.ops|, ip, end);
    assert GuessesFrom(r, hotp, ip, true, end, |r.ops|)
        == set k | 0 <= k < |r.ops| && end - 900.0 < r.times[k] <= end && (r.ops[k].LoginOp? || r.ops[k].AppLoginOp?)
                   && r.ops[k].ip == ip && AnswerAt(r, hotp, k) == Failed(InvalidCredentials);
    assert GuessesFrom(r, hotp, ip, false, end, |r.ops|)
        == set k | 0 <= k < |r.ops| && end - 900.0 < r.times[k] <= end && r.ops[k].EnrolOp? && r.ops[k].code.None?
                   && r.ops[k].ip == ip && AnswerAt(r, hotp, k) == Failed(InvalidCode);
  }
}
