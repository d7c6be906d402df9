/** What an answer of the credential operations rests on: which request is granted to whom, and which earlier operation of
    the run made the enrolment code or the setup link that is used. */
module PeopleTraces {
  import opened Wrappers
  import opened People
  import opened PeopleRuns
  import Throttle
  import PeopleCodes

  // ---- one request ----

  /** The phone's person is active, and its token neither revoked nor expired. */
  ghost predicate InUse(db: Db, phone: string, now: real) {
    && phone in db.phones && !db.phones[phone].revoked && now <= db.phones[phone].expires
    && db.phones[phone].person in db.people && db.people[db.phones[phone].person].active
  }

  /** Whom a request is granted to: the person of the phone with this token or update key, as a device or for updates only;
      or the person of the session, within the idle and the absolute limit. */
  lemma GrantedExactly(db: Db, hotp: Hotp, op: Op, now: real, p: Principal)
    requires Allowed(db, op, now)
    ensures Step(db, hotp, op, now).1 == Granted(p) <==>
              || (op.TokenOp? && op.token.Some? && InUse(db, op.token.value, now) && db.phones[op.token.value].token == op.hash
                  && p == Principal(db.phones[op.token.value].person, op.token, Device))
              || (op.KeyOp? && op.key.Some? && InUse(db, op.key.value, now) && db.phones[op.key.value].updateKey == Some(op.hash)
                  && p == Principal(db.phones[op.key.value].person, op.key, UpdateKey))
              || (op.SessionOp? && op.session in db.sessions
                  && var s := db.sessions[op.session];
                     && now <= s.absExp && now <= s.last + 43200.0 && s.person in db.people
                     && (if s.phone.Some? then InUse(db, s.phone.value, now) else db.people[s.person].active && db.people[s.person].webLogin)
                     && p == Principal(s.person, s.phone, WebSession))
  {
    hide CheckLogin, WebLogin, AppLogin, Setup, NewCode, Enrol, ResetCredentials, NewLink, BeginSetup, Create, Patch, NewAppSession;
  }

  /** A phone is revoked for an admin or for its own person; anybody else is refused, and nothing changes. */
  lemma RevokedExactly(db: Db, hotp: Hotp, op: Op, now: real)
    requires Allowed(db, op, now) && op.RevokeOp?
    ensures var (d, a) := Step(db, hotp, op, now);
            && (a == Accepted <==> op.device in db.phones && (op.role == Admin || db.phones[op.device].person == op.person))
            && (a != Accepted ==> d == db && a == Failed(if op.device in db.phones then Forbidden else NotFound))
            && (a == Accepted ==> d.phones == db.phones[op.device := db.phones[op.device].(revoked := true)])
  {
  }

  /** What a sign-in opens is for the person of the checked account: a web session of a week, or a phone with its token and
      update key; an app session is for the person of its phone, and other sessions stay, but for that phone's dead ones. */
  lemma OpenedFor(db: Db, hotp: Hotp, op: Op, now: real)
    requires Allowed(db, op, now)
    ensures var (d, a) := Step(db, hotp, op, now);
            && (op.LoginOp? && a.SignedIn? ==>
                  && op.who.Some? && op.session !in db.sessions
                  && d.sessions == db.sessions[op.session := Session(op.who.value, now, now + 604800.0, None)])
            && (op.AppLoginOp? && a.SignedIn? ==>
                  && op.who.Some? && op.device !in db.phones && (forall id :: id in db.phones ==> db.phones[id].token != op.hash)
                  && d.phones == db.phones[op.device := Phone(op.who.value, op.hash, Some(op.updateKey), now, now + 7776000.0, false)])
            && (op.AppSessionOp? && a == Accepted ==>
                  && op.device in db.phones && op.session in d.sessions
                  && d.sessions[op.session].person == db.phones[op.device].person && d.sessions[op.session].phone == Some(op.device)
                  && (forall s :: s in db.sessions && s != op.session ==> (s !in d.sessions <==>
                        db.sessions[s].phone == Some(op.device) && (db.sessions[s].absExp < now || db.sessions[s].last + 43200.0 < now)))
                  && (forall s :: s in d.sessions && s != op.session ==> s in db.sessions && d.sessions[s] == db.sessions[s]))
  {
    hide CheckLogin, LimitReached, Setup, NewCode, Enrol, ResetCredentials, NewLink, BeginSetup, Create, Patch, UseToken, UseSession, RevokePhone;
    if op.LoginOp? || op.AppLoginOp? {
      TouchedBy(db, hotp, op, now);
    }
  }

  // ---- what each operation does ----

  /** Fewer than five active phones of the person, and fewer than twenty in all. */
  ghost predicate RoomFor(db: Db, person: string, now: real) {
    && |set id | id in db.phones && db.phones[id].person == person && !db.phones[id].revoked && db.phones[id].expires > now| < 5
    && |set id | id in db.phones && !db.phones[id].revoked && db.phones[id].expires > now| < 20
  }

  lemma RoomExactly(db: Db, person: string, now: real)
    ensures RoomFor(db, person, now) <==> !LimitReached(db, person, now)
  {
    assert ActivePhonesOf(db, person, now)
        == set id | id in db.phones && db.phones[id].person == person && !db.phones[id].revoked && db.phones[id].expires > now;
    assert ActivePhones(db, now) == set id | id in db.phones && !db.phones[id].revoked && db.phones[id].expires > now;
  }

  /** A code is traded exactly when it is live, its person active with room for a device, fewer than ten enrolments failed
      from the address within 900 seconds, and id and token are new; a wrong code, of an address that may still try, is
      recorded as a failure, and nothing else is. */
  lemma EnrolledExactly(db: Db, hotp: Hotp, op: Op, now: real)
    requires Allowed(db, op, now) && op.EnrolOp?
    ensures var (d, a) := Step(db, hotp, op, now);
            var tried := |set i | 0 <= i < |db.log| && !db.log[i].ok && db.log[i].account == "enrol" && db.log[i].ip == op.ip
                             && db.log[i].ts > now - 900.0|;
            var live := op.code.Some? && !db.codes[op.code.value].used && now <= db.codes[op.code.value].expires;
            && (a == Accepted <==>
                  && tried < 10 && op.labelOk && live
                  && db.codes[op.code.value].person in db.people && db.people[db.codes[op.code.value].person].active
                  && RoomFor(db, db.codes[op.code.value].person, now)
                  && op.device !in db.phones && forall id :: id in db.phones ==> db.phones[id].token != op.hash)
            && (a == Accepted ==> d.codes == db.codes[op.code.value := db.codes[op.code.value].(used := true)])
            && d.log == db.log + (if tried < 10 && op.labelOk && !live then [Throttle.Attempt(now, op.ip, "enrol", false, false)] else [])
            && (a != Accepted ==> d.phones == db.phones && d.codes == db.codes)
  {
    hide LimitReached, RoomFor, Throttle.EnrolFails, Throttle.EnrolRows;
    Throttle.EnrolCounts(db.log, op.ip, now - 900.0);
    assert Throttle.EnrolRows(db.log, op.ip, now - 900.0)
        == set i | 0 <= i < |db.log| && !db.log[i].ok && db.log[i].account == "enrol" && db.log[i].ip == op.ip && db.log[i].ts > now - 900.0 by {
      EnrolRowsAre(db.log, op.ip, now - 900.0);
    }
    if op.code.Some? {
      RoomExactly(db, db.codes[op.code.value].person, now);
    }
  }

  lemma EnrolRowsAre(log: seq<Throttle.Attempt>, ip: string, since: real)
    ensures Throttle.EnrolRows(log, ip, since)
            == set i | 0 <= i < |log| && !log[i].ok && log[i].account == "enrol" && log[i].ip == ip && log[i].ts > since
  {
  }

  /** A device signs in exactly with a label, for a check that succeeds and a person with room for a device; a browser for a
      check that succeeds. */
  lemma DeviceExactly(db: Db, hotp: Hotp, op: Op, now: real)
    requires Allowed(db, op, now) && (op.AppLoginOp? || op.LoginOp?)
    ensures var a := Step(db, hotp, op, now).1;
            var r := CheckLogin(db, hotp, op.account, op.who, op.pw, op.totp, op.ip, op.t0, now).1;
            && (op.AppLoginOp? ==>
                  (a.SignedIn? <==> op.labelOk && r.Ok? && op.who.Some? && RoomFor(db, op.who.value, now)
                                    && op.device !in db.phones && forall id :: id in db.phones ==> db.phones[id].token != op.hash))
            && (op.LoginOp? ==> (a.SignedIn? <==> r.Ok? && op.session !in db.sessions))
            && (a.SignedIn? ==> r == Ok(a.step))
  {
    hide CheckLogin, RoomFor, LimitReached;
    TouchedBy(db, hotp, op, now);
    if op.who.Some? {
      RoomExactly(db, op.who.value, now);
      SameRoom(db, CheckLogin(db, hotp, op.account, op.who, op.pw, op.totp, op.ip, op.t0, now).0, op.who.value, now);
    }
  }

  lemma SameRoom(a: Db, b: Db, person: string, now: real)
    requires a.phones == b.phones
    ensures LimitReached(a, person, now) == LimitReached(b, person, now)
  {
    assert ActivePhonesOf(a, person, now) == ActivePhonesOf(b, person, now) && ActivePhones(a, now) == ActivePhones(b, now);
  }

  /** A new code, for an active person with room for a device; a new setup link, for an active person with web login. Those
      that the person had are spent. */
  lemma IssuedExactly(db: Db, hotp: Hotp, op: Op, now: real)
    requires Allowed(db, op, now)
    ensures var (d, a) := Step(db, hotp, op, now);
            && (op.NewCodeOp? ==>
                  && (a == Accepted <==> op.pid in db.people && db.people[op.pid].active && RoomFor(db, op.pid, now) && op.id !in db.codes
                                         && forall c :: c in db.codes ==> db.codes[c].hash != op.hash)
                  && (a != Accepted ==> d == db)
                  && (a == Accepted ==>
                        && d.codes.Keys == db.codes.Keys + {op.id} && d.codes[op.id] == Code(op.pid, op.hash, now + 600.0, false)
                        && forall c :: c in db.codes ==>
                             d.codes[c] == if db.codes[c].person == op.pid then db.codes[c].(used := true) else db.codes[c]))
            && (op.NewLinkOp? ==>
                  && (a == Accepted <==> op.pid in db.people && db.people[op.pid].active && db.people[op.pid].webLogin && op.id !in db.links
                                         && forall l :: l in db.links ==> db.links[l].hash != op.hash)
                  && (a != Accepted ==> d == db)
                  && (a == Accepted ==>
                        && d.links.Keys == db.links.Keys + {op.id} && d.links[op.id] == Link(op.pid, op.hash, now + 3600.0, false, None)
                        && forall l :: l in db.links ==>
                             d.links[l] == if db.links[l].person == op.pid then db.links[l].(used := true) else db.links[l]))
  {
    hide LimitReached, RoomFor, CheckLogin, Setup, UseToken, UseSession, Patch, NewAppSession, Enrol;
    if op.NewCodeOp? {
      RoomExactly(db, op.pid, now);
    }
  }

  /** A person is patched unless that takes away the last active admin; the fields given replace the old ones, nobody else
      changes, and sessions and phones go only where the person is inactive or may no longer log in to the web. */
  lemma PatchedExactly(db: Db, hotp: Hotp, op: Op, now: real)
    requires Allowed(db, op, now) && op.PatchOp?
    ensures var (d, a) := Step(db, hotp, op, now);
            && (a == Accepted <==>
                  && op.pid in db.people
                  && ((db.people[op.pid].role == Admin && db.people[op.pid].active
                       && (op.fields.active == Some(false) || op.fields.role == Some(Household) || op.fields.role == Some(ReadOnly)))
                      ==> exists id :: id in db.people && id != op.pid && db.people[id].role == Admin && db.people[id].active))
            && (a != Accepted ==> d == db && a == Failed(if op.pid in db.people then LastAdmin else NotFound))
            && (a == Accepted ==>
                  var p, f := db.people[op.pid], op.fields;
                  var q := Person(if f.role == None then p.role else f.role.value, if f.parent == None then p.parent else f.parent.value,
                                  if f.active == None then p.active else f.active.value, if f.webLogin == None then p.webLogin else f.webLogin.value);
                  && d.people == db.people[op.pid := q]
                  && (forall s :: s in d.sessions <==> s in db.sessions && (db.sessions[s].person != op.pid || (q.active && (q.webLogin || db.sessions[s].phone.Some?))))
                  && (forall s :: s in d.sessions ==> d.sessions[s] == db.sessions[s])
                  && d.phones.Keys == db.phones.Keys
                  && forall id :: id in db.phones ==>
                       d.phones[id] == if db.phones[id].person == op.pid && !q.active then db.phones[id].(revoked := true) else db.phones[id])
  {
    hide CheckLogin, Setup, UseToken, UseSession, NewAppSession, Enrol, NewCode, NewLink;
  }

  /** The small operations: a new person, a new update key, the use and the end of a session, credentials forgotten, a seed drawn for
      a live link that has none. */
  lemma SmallExactly(db: Db, hotp: Hotp, op: Op, now: real)
    requires Allowed(db, op, now)
    ensures var (d, a) := Step(db, hotp, op, now);
            && (op.CreateOp? ==>
                  && (a == Accepted <==> op.nameOk && op.pid !in db.people)
                  && d == if a == Accepted then db.(people := db.people[op.pid :=
                            Person(op.role, op.parent, true, if op.web == None then op.role == Admin else op.web.value)]) else db)
            && (op.MintOp? && op.device in db.phones ==>
                  d == db.(phones := db.phones[op.device := db.phones[op.device].(updateKey := Some(op.updateKey))]))
            && (op.SessionOp? && op.session in db.sessions ==>
                  var s := db.sessions[op.session];
                  d == if a == Denied then db.(sessions := db.sessions - {op.session})
                       else if now - s.last > 60.0 then db.(sessions := db.sessions[op.session := s.(last := now)]) else db)
            && (op.WebLogoutOp? ==> d == db.(sessions := db.sessions - {op.session}))
            && (op.LogoutOp? && op.device in db.phones ==>
                  && d.phones == db.phones[op.device := db.phones[op.device].(revoked := true)]
                  && forall s :: s in d.sessions <==> s in db.sessions && db.sessions[s].phone != Some(op.device))
            && (op.ResetOp? && op.pid in db.people ==>
                  d.creds == db.creds - {op.pid} && forall s :: s in d.sessions <==> s in db.sessions && db.sessions[s].person != op.pid)
            && (op.BeginSetupOp? ==>
                  var live := op.link.Some? && !db.links[op.link.value].used && now <= db.links[op.link.value].expires;
                  && (a == Accepted <==> live)
                  && d == if live && db.links[op.link.value].seed.None?
                          then db.(links := db.links[op.link.value := db.links[op.link.value].(seed := Some(op.seed))]) else db)
  {
    hide CheckLogin, Setup, UseToken, NewAppSession, Enrol, NewCode, NewLink, Patch, LimitReached;
  }

  /** A setup is completed exactly with a live link that has a seed, a good password, for a person who exists, and with a
      code that fits the seed, which only people who are not admins may leave out. */
  lemma SetUpExactly(db: Db, hotp: Hotp, op: Op, now: real)
    requires Allowed(db, op, now) && op.SetupOp?
    ensures var (d, a) := Step(db, hotp, op, now);
            && (a.SignedIn? <==>
                  && op.link.Some? && !db.links[op.link.value].used && now <= db.links[op.link.value].expires && op.pwOk
                  && var l := db.links[op.link.value];
                     && l.seed.Some? && l.person in db.people
                     && ((db.people[l.person].role != Admin && op.proof == "")
                         || (&& |op.proof| == 6 && (forall i :: 0 <= i < 6 ==> '0' <= op.proof[i] <= '9')
                             && exists s :: PeopleCodes.Fits(hotp, l.seed.value, op.proof, 0, now, s))))
            && (!a.SignedIn? ==> d == db)
  {
    hide PeopleCodes.Fits, VerifyTotp, OddDigits;
    if op.link.Some? && db.links[op.link.value].seed.Some? {
      PeopleCodes.TotpExactly(hotp, db.links[op.link.value].seed.value, op.proof, 0, now);
    }
    NoOddDigits(hotp, op.proof);
  }

  lemma NoOddDigits(hotp: Hotp, code: string)
    ensures OddDigits(hotp, code) ==> !SixDigits(code)
  {
  }

  // ---- codes and links over a run ----

  /** An accepted new code spends every earlier one of its person: none of them is traded any more. */
  lemma EarlierCodesSpent(r: Run, hotp: Hotp, code: string, k: nat, j: nat)
    requires IsRun(r, hotp) && k < j < |r.ops| && r.ops[k].NewCodeOp? && AnswerAt(r, hotp, k) == Accepted
    requires code in r.dbs[k].codes && r.dbs[k].codes[code].person == r.ops[k].pid
    requires r.ops[j].EnrolOp? && r.ops[j].code == Some(code)
    ensures AnswerAt(r, hotp, j) != Accepted
  {
    NewCodeSpends(r.dbs[k], hotp, r.ops[k], r.times[k], code);
    hide Step, Allowed, Spent;
    SpentForever(r, hotp, code, k + 1, j);
    SpentStays(r.dbs[j], hotp, r.ops[j], r.times[j], code);
  }

  lemma NewCodeSpends(db: Db, hotp: Hotp, op: Op, now: real, code: string)
    requires Allowed(db, op, now) && op.NewCodeOp? && Step(db, hotp, op, now).1 == Accepted
    requires code in db.codes && db.codes[code].person == op.pid
    ensures Spent(Step(db, hotp, op, now).0, code)
  {
    hide LimitReached;
  }

  /** The same of setup links. */
  lemma EarlierLinksSpent(r: Run, hotp: Hotp, link: string, k: nat, j: nat)
    requires IsRun(r, hotp) && k < j < |r.ops| && r.ops[k].NewLinkOp? && AnswerAt(r, hotp, k) == Accepted
    requires link in r.dbs[k].links && r.dbs[k].links[link].person == r.ops[k].pid
    requires r.ops[j].SetupOp? && r.ops[j].link == Some(link)
    ensures !AnswerAt(r, hotp, j).SignedIn?
  {
    NewLinkSpends(r.dbs[k], hotp, r.ops[k], r.times[k], link);
    hide Step, Allowed, LinkSpent;
    LinkForever(r, hotp, link, k + 1, j);
    LinkStays(r.dbs[j], hotp, r.ops[j], r.times[j], link);
  }

  lemma NewLinkSpends(db: Db, hotp: Hotp, op: Op, now: real, link: string)
    requires Allowed(db, op, now) && op.NewLinkOp? && Step(db, hotp, op, now).1 == Accepted
    requires link in db.links && db.links[link].person == op.pid
    ensures LinkSpent(Step(db, hotp, op, now).0, link)
  {
  }

  /** Operation i issued the code to the person. */
  ghost predicate IssuedCode(r: Run, hotp: Hotp, code: string, i: nat, person: string, expires: real)
    requires IsRun(r, hotp)
  {
    && i < |r.ops| && r.ops[i].NewCodeOp? && AnswerAt(r, hotp, i) == Accepted
    && r.ops[i].id == code && r.ops[i].pid == person && expires == r.times[i] + 600.0
  }

  lemma CodeStep(db: Db, hotp: Hotp, op: Op, now: real, code: string)
    requires Allowed(db, op, now)
    ensures var (d, a) := Step(db, hotp, op, now);
            code in d.codes ==>
              || (code in db.codes && d.codes[code].person == db.codes[code].person && d.codes[code].expires == db.codes[code].expires)
              || (op.NewCodeOp? && a == Accepted && op.id == code && d.codes[code].person == op.pid && d.codes[code].expires == now + 600.0)
  {
    hide CheckLogin, LimitReached, Throttle.EnrolFails, Without, VerifyTotp, OtherAdmin, OddDigits;
    if op.LoginOp? || op.AppLoginOp? {
      TouchedBy(db, hotp, op, now);
    }
  }

  lemma {:induction false} CodeIssued(r: Run, hotp: Hotp, code: string, j: nat) returns (i: nat)
    requires IsRun(r, hotp) && j <= |r.ops| && code in r.dbs[j].codes && code !in r.dbs[0].codes
    ensures i < j && IssuedCode(r, hotp, code, i, r.dbs[j].codes[code].person, r.dbs[j].codes[code].expires)
  {
    hide Step, Allowed;
    CodeStep(r.dbs[j - 1], hotp, r.ops[j - 1], r.times[j - 1], code);
    var now, before := r.dbs[j], r.dbs[j - 1];
    if code in before.codes && now.codes[code].person == before.codes[code].person && now.codes[code].expires == before.codes[code].expires {
      i := CodeIssued(r, hotp, code, j - 1);
    } else {
      i := j - 1;
    }
  }

  lemma Enrolled(db: Db, hotp: Hotp, op: Op, now: real)
    requires Allowed(db, op, now) && op.EnrolOp? && Step(db, hotp, op, now).1 == Accepted
    ensures var d := Step(db, hotp, op, now).0;
            && op.code.Some? && op.code.value in db.codes && !db.codes[op.code.value].used && now <= db.codes[op.code.value].expires
            && db.codes[op.code.value].hash == op.typed && op.device !in db.phones
            && d.phones == db.phones[op.device := Phone(db.codes[op.code.value].person, op.hash, None, now, now + 7776000.0, false)]
  {
    hide LimitReached, Throttle.EnrolFails;
  }

  /** Whoever enrols a device with a code gets it for the person whom the code was issued to, at most ten minutes before. */
  lemma EnrolledByIssue(r: Run, hotp: Hotp, j: nat) returns (i: nat)
    requires IsRun(r, hotp) && r.dbs[0].codes == map[] && j < |r.ops| && r.ops[j].EnrolOp? && AnswerAt(r, hotp, j) == Accepted
    ensures i < j && r.ops[i].NewCodeOp? && AnswerAt(r, hotp, i) == Accepted && r.ops[j].code == Some(r.ops[i].id)
    ensures r.times[i] <= r.times[j] <= r.times[i] + 600.0
    ensures r.ops[j].device !in r.dbs[j].phones
    ensures r.dbs[j + 1].phones
            == r.dbs[j].phones[r.ops[j].device := Phone(r.ops[i].pid, r.ops[j].hash, None, r.times[j], r.times[j] + 7776000.0, false)]
  {
    hide Step, Allowed;
    Enrolled(r.dbs[j], hotp, r.ops[j], r.times[j]);
    i := CodeIssued(r, hotp, r.ops[j].code.value, j);
  }

  ghost predicate IssuedLink(r: Run, hotp: Hotp, link: string, i: nat, person: string, expires: real)
    requires IsRun(r, hotp)
  {
    && i < |r.ops| && r.ops[i].NewLinkOp? && AnswerAt(r, hotp, i) == Accepted
    && r.ops[i].id == link && r.ops[i].pid == person && expires == r.times[i] + 3600.0
  }

  lemma LinkStep(db: Db, hotp: Hotp, op: Op, now: real, link: string)
    requires Allowed(db, op, now)
    ensures var (d, a) := Step(db, hotp, op, now);
            link in d.links ==>
              || (link in db.links && d.links[link].person == db.links[link].person && d.links[link].expires == db.links[link].expires)
              || (op.NewLinkOp? && a == Accepted && op.id == link && d.links[link].person == op.pid && d.links[link].expires == now + 3600.0)
  {
    hide VerifyTotp, OddDigits;
    if !op.NewLinkOp? && !op.BeginSetupOp? && !op.SetupOp? {
      hide Step;
      LinksKept(db, hotp, op, now);
    }
  }

  lemma {:induction false} LinkIssued(r: Run, hotp: Hotp, link: string, j: nat) returns (i: nat)
    requires IsRun(r, hotp) && j <= |r.ops| && link in r.dbs[j].links && link !in r.dbs[0].links
    ensures i < j && IssuedLink(r, hotp, link, i, r.dbs[j].links[link].person, r.dbs[j].links[link].expires)
  {
    hide Step, Allowed;
    LinkStep(r.dbs[j - 1], hotp, r.ops[j - 1], r.times[j - 1], link);
    var now, before := r.dbs[j], r.dbs[j - 1];
    if link in before.links && now.links[link].person == before.links[link].person && now.links[link].expires == before.links[link].expires {
      i := LinkIssued(r, hotp, link, j - 1);
    } else {
      i := j - 1;
    }
  }

  lemma SetUp(db: Db, hotp: Hotp, op: Op, now: real)
    requires Allowed(db, op, now) && op.SetupOp? && Step(db, hotp, op, now).1.SignedIn?
    ensures var (d, a) := Step(db, hotp, op, now);
            && op.link.Some? && op.link.value in db.links && now <= db.links[op.link.value].expires && op.pwOk
            && db.links[op.link.value].hash == op.hash
            && d.creds == db.creds[db.links[op.link.value].person :=
                 Cred(op.pwHash, if a.step.Some? then db.links[op.link.value].seed else None, if a.step.Some? then a.step.value else 0)]
            && (forall s :: s in d.sessions ==> d.sessions[s].person != db.links[op.link.value].person)
            && (a.step.None? ==> db.links[op.link.value].person in db.people && db.people[db.links[op.link.value].person].role != Admin)
  {
    hide VerifyTotp, OddDigits;
  }

  /** Whoever completes a setup sets the credentials of the person whom the link was made for, at most an hour before; an
      admin only with a code that fits. */
  lemma SetUpByLink(r: Run, hotp: Hotp, j: nat) returns (i: nat)
    requires IsRun(r, hotp) && r.dbs[0].links == map[] && j < |r.ops| && r.ops[j].SetupOp? && AnswerAt(r, hotp, j).SignedIn?
    ensures i < j && r.ops[i].NewLinkOp? && AnswerAt(r, hotp, i) == Accepted && r.ops[j].link == Some(r.ops[i].id)
    ensures r.times[i] <= r.times[j] <= r.times[i] + 3600.0 && r.ops[j].pwOk
    ensures var pid, step := r.ops[i].pid, AnswerAt(r, hotp, j).step;
            && pid in r.dbs[j + 1].creds && r.dbs[j + 1].creds[pid].pwHash == r.ops[j].pwHash
            && (forall p :: p != pid ==> (p in r.dbs[j + 1].creds <==> p in r.dbs[j].creds))
            && (forall p :: p != pid && p in r.dbs[j].creds ==> r.dbs[j + 1].creds[p] == r.dbs[j].creds[p])
            && (step.None? ==> pid in r.dbs[j].people && r.dbs[j].people[pid].role != Admin)
  {
    hide Step, Allowed;
    SetUp(r.dbs[j], hotp, r.ops[j], r.times[j]);
    i := LinkIssued(r, hotp, r.ops[j].link.value, j);
  }
}
