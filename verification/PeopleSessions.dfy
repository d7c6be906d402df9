/** The life of a session: idle and absolute limits over a whole run. */
module PeopleSessions {
  import opened Wrappers
  import opened People
  import opened PeopleRuns
  import Throttle

  /** The person, and for an app session the phone, still allow the session. */
  ghost predicate Entitled(db: Db, sid: string, now: real) {
    sid in db.sessions ==>
      var s := db.sessions[sid];
      && s.person in db.people
      && (match s.phone
          case Some(phone) => phone in db.phones && Works(db.phones[phone], db.people, now)
          case None => db.people[s.person].active && db.people[s.person].webLogin)
  }

  /** The operations that close a session, tidy it away or open it: signing out, closing or tidying its phone, deactivating
      its person or taking web login away from a web session, new or forgotten credentials of its person, and - when there
      is none - opening one under its id. */
  predicate Touches(db: Db, op: Op, sid: string, now: real) {
    if sid in db.sessions then
      var s := db.sessions[sid];
      match op
      case WebLogoutOp(session) => session == sid
      case LogoutOp(phone) => s.phone == Some(phone)
      case RevokeOp(_, _, phone) => s.phone == Some(phone)
      case AppSessionOp(phone, _) => s.phone == Some(phone) && (s.absExp < now || s.last < now - SESSION_IDLE)
      case PatchOp(pid, f) =>
        pid == s.person && pid in db.people && (!Patched(db.people[pid], f).active || (!Patched(db.people[pid], f).webLogin && s.phone.None?))
      case SetupOp(_, link, _, _, _) => link.Some? && link.value in db.links && db.links[link.value].person == s.person
      case ResetOp(pid) => pid == s.person
      case _ => false
    else
      match op
      case LoginOp(_, _, _, _, _, _, session) => session == sid
      case AppSessionOp(_, session) => session == sid
      case _ => false
  }

  predicate Sessionless(op: Op) {
    || op.TokenOp? || op.KeyOp? || op.MintOp? || op.CreateOp? || op.NewLinkOp? || op.BeginSetupOp? || op.NewCodeOp? || op.EnrolOp?
    || op.AppLoginOp?
  }

  lemma SessionsKept(db: Db, hotp: Hotp, op: Op, now: real)
    requires Allowed(db, op, now) && Sessionless(op)
    ensures Step(db, hotp, op, now).0.sessions == db.sessions
  {
    hide CheckLogin, LimitReached, Throttle.EnrolFails, TokenRow, KeyRow, CodeRow, LinkRow, Works;
    if op.AppLoginOp? {
      TouchedBy(db, hotp, op, now);
    }
  }

  lemma PatchUntouched(db: Db, op: Op, now: real, sid: string)
    requires op.PatchOp? && !Touches(db, op, sid, now)
    ensures SameSession(db, Patch(db, op.pid, op.fields).0, sid)
  {
    hide OtherAdmin;
  }

  lemma AppSessionUntouched(db: Db, op: Op, now: real, sid: string)
    requires op.AppSessionOp? && !Touches(db, op, sid, now)
    ensures SameSession(db, NewAppSession(db, op.device, op.session, now).0, sid)
  {
  }

  /** Every operation that does not touch the session leaves it as it is. */
  lemma Untouched(db: Db, hotp: Hotp, op: Op, now: real, sid: string)
    requires Allowed(db, op, now) && op != SessionOp(sid) && !Touches(db, op, sid, now)
    ensures SameSession(db, Step(db, hotp, op, now).0, sid)
  {
    if Sessionless(op) {
      hide Step, Allowed;
      SessionsKept(db, hotp, op, now);
    } else {
      hide CheckLogin, VerifyTotp, OddDigits, LinkRow, SessionValid, AppLogin, Enrol, NewCode, NewLink, BeginSetup, UseToken, Create;
      hide Patch, NewAppSession;
      if op.PatchOp? {
        PatchUntouched(db, op, now, sid);
      } else if op.AppSessionOp? {
        AppSessionUntouched(db, op, now, sid);
      } else if op.LoginOp? {
        TouchedBy(db, hotp, op, now);
      }
    }
  }

  /** No operation between k and j touches the session, but for its uses. */
  ghost predicate OnlyUsed(r: Run, hotp: Hotp, sid: string, k: nat, j: nat)
    requires IsRun(r, hotp) && k <= j <= |r.ops|
  {
    forall i :: k <= i < j && r.ops[i] != SessionOp(sid) ==> !Touches(r.dbs[i], r.ops[i], sid, r.times[i])
  }

  ghost predicate SameSession(a: Db, b: Db, sid: string) {
    (sid in a.sessions <==> sid in b.sessions) && (sid in a.sessions ==> a.sessions[sid] == b.sessions[sid])
  }

  /** When the session was last used before operation i, or the time it was opened. */
  function LastUse(r: Run, hotp: Hotp, sid: string, since: real, k: nat, i: nat): real
    requires IsRun(r, hotp) && k <= i <= |r.ops|
  {
    if i == k then since
    else if r.ops[i - 1] == SessionOp(sid) then r.times[i - 1]
    else LastUse(r, hotp, sid, since, k, i - 1)
  }

  /** Its uses are at most the idle limit less a minute apart. */
  ghost predicate UsedOften(r: Run, hotp: Hotp, sid: string, since: real, k: nat, j: nat)
    requires IsRun(r, hotp) && k <= j <= |r.ops|
  {
    forall i :: k <= i < j && r.ops[i] == SessionOp(sid) ==>
      && Entitled(r.dbs[i], sid, r.times[i])
      && r.times[i] - LastUse(r, hotp, sid, since, k, i) <= SESSION_IDLE - 60.0
  }

  /** Up to its absolute limit the session is there, its stored time at most a minute behind; after a use past the limit
      it is gone. */
  ghost predicate Living(db: Db, sid: string, limit: real, used: real) {
    if used <= limit then sid in db.sessions && db.sessions[sid].absExp == limit && used - 60.0 <= db.sessions[sid].last
    else sid !in db.sessions
  }

  /** One use: granted exactly up to the absolute limit. */
  lemma OneUse(db: Db, sid: string, limit: real, used: real, now: real)
    requires Living(db, sid, limit, used) && Entitled(db, sid, now) && used <= now && now - used <= SESSION_IDLE - 60.0
    ensures UseSession(db, sid, now).1.Some? <==> now <= limit
    ensures Living(UseSession(db, sid, now).0, sid, limit, now)
  {
  }

  /** The last operation before j, and the ones before it. */
  lemma LastOf(r: Run, hotp: Hotp, sid: string, since: real, k: nat, j: nat)
    requires IsRun(r, hotp) && k < j <= |r.ops| && OnlyUsed(r, hotp, sid, k, j) && UsedOften(r, hotp, sid, since, k, j)
    ensures OnlyUsed(r, hotp, sid, k, j - 1) && UsedOften(r, hotp, sid, since, k, j - 1)
    ensures if r.ops[j - 1] == SessionOp(sid)
            then Entitled(r.dbs[j - 1], sid, r.times[j - 1]) && r.times[j - 1] - LastUse(r, hotp, sid, since, k, j - 1) <= SESSION_IDLE - 60.0
            else !Touches(r.dbs[j - 1], r.ops[j - 1], sid, r.times[j - 1])
  {
    hide Entitled, Touches, Step, Allowed, LastUse;
  }

  lemma StepOf(r: Run, hotp: Hotp, j: nat)
    requires IsRun(r, hotp) && 0 < j <= |r.ops|
    ensures Allowed(r.dbs[j - 1], r.ops[j - 1], r.times[j - 1])
    ensures r.dbs[j] == Step(r.dbs[j - 1], hotp, r.ops[j - 1], r.times[j - 1]).0
    ensures j < |r.ops| ==> r.times[j - 1] <= r.times[j]
  {
    hide Step, Allowed;
  }

  lemma UseStep(db: Db, hotp: Hotp, sid: string, now: real)
    ensures Allowed(db, SessionOp(sid), now) && Step(db, hotp, SessionOp(sid), now).0 == UseSession(db, sid, now).0
  {
    hide UseSession;
  }

  lemma {:induction false} LivingAt(r: Run, hotp: Hotp, sid: string, since: real, limit: real, k: nat, j: nat)
    requires IsRun(r, hotp) && k <= j <= |r.ops| && Living(r.dbs[k], sid, limit, since)
    requires k < |r.ops| ==> since <= r.times[k]
    requires OnlyUsed(r, hotp, sid, k, j) && UsedOften(r, hotp, sid, since, k, j)
    ensures Living(r.dbs[j], sid, limit, LastUse(r, hotp, sid, since, k, j))
    ensures j < |r.ops| ==> LastUse(r, hotp, sid, since, k, j) <= r.times[j]
    decreases j
  {
    hide Living, Entitled, Allowed, UseSession, Touches, SameSession, Step, OnlyUsed, UsedOften;
    if j > k {
      LastOf(r, hotp, sid, since, k, j);
      StepOf(r, hotp, j);
      hide IsRun;
      LivingAt(r, hotp, sid, since, limit, k, j - 1);
      var used := LastUse(r, hotp, sid, since, k, j - 1);
      if r.ops[j - 1] == SessionOp(sid) {
        UseStep(r.dbs[j - 1], hotp, sid, r.times[j - 1]);
        OneUse(r.dbs[j - 1], sid, limit, used, r.times[j - 1]);
      } else {
        Untouched(r.dbs[j - 1], hotp, r.ops[j - 1], r.times[j - 1], sid);
        SameLiving(r.dbs[j - 1], r.dbs[j], sid, limit, used);
      }
    }
  }

  lemma SameLiving(a: Db, b: Db, sid: string, limit: real, used: real)
    requires Living(a, sid, limit, used) && SameSession(a, b, sid)
    ensures Living(b, sid, limit, used)
  {
  }

  /** A session that is used with gaps of at most the idle limit less a minute, by a person and phone that stay entitled,
      is granted exactly up to its absolute limit. */
  lemma LivesToTheLimit(r: Run, hotp: Hotp, sid: string, since: real, limit: real, k: nat, j: nat)
    requires IsRun(r, hotp) && k <= j < |r.ops| && r.ops[j] == SessionOp(sid)
    requires Living(r.dbs[k], sid, limit, since) && since <= r.times[k]
    requires OnlyUsed(r, hotp, sid, k, j + 1) && UsedOften(r, hotp, sid, since, k, j + 1)
    ensures AnswerAt(r, hotp, j).Granted? <==> r.times[j] <= limit
  {
    hide Living, Entitled, UseSession, Touches;
    LivingAt(r, hotp, sid, since, limit, k, j);
    OneUse(r.dbs[j], sid, limit, LastUse(r, hotp, sid, since, k, j), r.times[j]);
  }

  /** A fresh web session lives a week; a fresh app session no longer than its phone's token. */
  lemma Opens(db: Db, hotp: Hotp, op: Op, now: real)
    requires Allowed(db, op, now)
    requires || (op.LoginOp? && Step(db, hotp, op, now).1.SignedIn?)
             || (op.AppSessionOp? && Step(db, hotp, op, now).1 == Accepted && op.device in db.phones && db.phones[op.device].expires >= now)
    ensures var limit := if op.LoginOp? || now + SESSION_ABS < db.phones[op.device].expires then now + SESSION_ABS else db.phones[op.device].expires;
            Living(Step(db, hotp, op, now).0, op.session, limit, now)
  {
    hide CheckLogin;
    if op.LoginOp? {
      TouchedBy(db, hotp, op, now);
    }
  }

  // ---- device tokens ----

  /** Every phone expires ninety days after it was last seen. */
  ghost predicate Sliding(phones: map<string, Phone>) {
    forall id :: id in phones ==> phones[id].expires == phones[id].lastSeen + PHONE_SLIDING
  }

  lemma PatchSliding(db: Db, pid: string, f: Fields)
    requires Sliding(db.phones)
    ensures Sliding(Patch(db, pid, f).0.phones)
  {
    hide OtherAdmin;
  }

  lemma SlidingStays(db: Db, hotp: Hotp, op: Op, now: real)
    requires Allowed(db, op, now) && Sliding(db.phones)
    ensures Sliding(Step(db, hotp, op, now).0.phones)
  {
    if Phoneless(op) {
      hide Step, Allowed;
      PhonesKept(db, hotp, op, now);
    } else {
      hide CheckLogin, LimitReached, Throttle.EnrolFails, Without, OtherAdmin, TokenRow, KeyRow, CodeRow, LinkRow;
      hide Setup, NewLink, BeginSetup, NewCode, UseSession, NewAppSession, Patch;
      if op.PatchOp? {
        PatchSliding(db, op.pid, op.fields);
      } else if op.LoginOp? || op.AppLoginOp? {
        TouchedBy(db, hotp, op, now);
      }
    }
  }

  /** A token used again within ninety days less a minute is granted while it is not revoked and its person active, and
      the next ninety days count from this use, to the minute. */
  lemma TokenUse(db: Db, id: string, used: real, now: real)
    requires id in db.phones && Sliding(db.phones) && used - 60.0 <= db.phones[id].lastSeen
    requires used <= now <= used + PHONE_SLIDING - 60.0
    ensures var (d, p) := UseToken(db, Some(id), now);
            && (p.Some? <==> !db.phones[id].revoked && db.phones[id].person in db.people && db.people[db.phones[id].person].active)
            && (p.Some? ==> now - 60.0 <= d.phones[id].lastSeen && Sliding(d.phones))
            && (now - db.phones[id].lastSeen <= 60.0 ==> d == db)
  {
  }
}
