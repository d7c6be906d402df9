/** The limits of five devices for a person and twenty in all, and the tie at which they fail. */
module PeopleLimits {
  import opened Wrappers
  import opened People
  import opened PeopleRuns
  import Throttle

  /** The phones that a limit counts: those of one person, or all. */
  function Counted(db: Db, who: Option<string>, now: real): set<string> {
    match who
    case Some(person) => ActivePhonesOf(db, person, now)
    case None => ActivePhones(db, now)
  }

  function Limit(who: Option<string>): nat {
    if who.Some? then MAX_PHONES_PER_PERSON else MAX_PHONES_TOTAL
  }

  predicate Counts(who: Option<string>, person: string) {
    who.None? || who.value == person
  }

  /** A token used at the very second it expires, which slides it: the counts no longer include it, the check still does. */
  ghost predicate Tie(db: Db, op: Op, who: Option<string>, now: real) {
    && op.TokenOp? && op.token.Some? && op.token.value in db.phones
    && var p := db.phones[op.token.value];
       Counts(who, p.person) && p.expires == now && now - p.lastSeen > 60.0 && Works(p, db.people, now)
  }

  lemma SubsetSize(a: set<string>, b: set<string>)
    requires a <= b
    ensures |a| <= |b|
  {
    if a != b {
      var x :| x in b && x !in a;
      SubsetSize(a, b - {x});
    }
  }

  /** No phone is new, none comes back, none lasts longer. */
  ghost predicate Shrinks(before: map<string, Phone>, after: map<string, Phone>) {
    forall id :: id in after ==>
      && id in before && after[id].person == before[id].person && after[id].expires == before[id].expires
      && (before[id].revoked ==> after[id].revoked)
  }

  lemma SameShrinks(phones: map<string, Phone>)
    ensures Shrinks(phones, phones)
  {
  }

  lemma PatchShrinks(db: Db, pid: string, f: Fields)
    ensures Shrinks(db.phones, Patch(db, pid, f).0.phones)
  {
    hide OtherAdmin;
  }

  lemma RevokeShrinks(db: Db, phone: string)
    ensures Shrinks(db.phones, Revoke(db, phone).phones)
  {
    hide Without;
  }

  lemma MintShrinks(db: Db, phone: string, key: string)
    ensures Shrinks(db.phones, MintKey(db, phone, key).phones)
  {
  }

  lemma OthersShrink(db: Db, hotp: Hotp, op: Op, now: real)
    requires Allowed(db, op, now) && !op.TokenOp? && !op.AppLoginOp? && !op.EnrolOp?
    ensures Shrinks(db.phones, Step(db, hotp, op, now).0.phones)
  {
    if Phoneless(op) {
      hide Step, Allowed;
      PhonesKept(db, hotp, op, now);
      SameShrinks(db.phones);
    } else {
      hide CheckLogin, Without, KeyRow, Setup, NewLink, BeginSetup, NewCode, UseSession, NewAppSession, Patch, Shrinks, Revoke, MintKey;
      if op.PatchOp? {
        PatchShrinks(db, op.pid, op.fields);
      } else if op.LogoutOp? || op.RevokeOp? {
        RevokeShrinks(db, op.device);
      } else if op.LoginOp? {
        TouchedBy(db, hotp, op, now);
      } else if op.MintOp? {
        MintShrinks(db, op.device, op.updateKey);
      }
      SameShrinks(db.phones);
    }
  }

  lemma ShrunkActive(a: Db, b: Db, who: Option<string>, now: real)
    requires Shrinks(a.phones, b.phones)
    ensures Counted(b, who, now) <= Counted(a, who, now)
  {
  }

  lemma TokenActive(db: Db, op: Op, who: Option<string>, now: real)
    requires op.TokenOp? && (op.token.Some? ==> op.token.value in db.phones)
    ensures var before, after := Counted(db, who, now), Counted(UseToken(db, op.token, now).0, who, now);
            if Tie(db, op, who, now) then op.token.value !in before && after == before + {op.token.value} else after <= before
  {
  }

  /** A device added by enrolment or sign-in adds to the counts of its person and of all. */
  lemma AddedActive(db: Db, who: Option<string>, id: string, phone: Phone, now: real)
    ensures var before, after := Counted(db, who, now), Counted(AddPhone(db, id, phone).0, who, now);
            after <= before || (Counts(who, phone.person) && after <= before + {id})
  {
  }

  lemma NewDevice(db: Db, hotp: Hotp, op: Op, now: real) returns (added: Option<Phone>)
    requires Allowed(db, op, now) && (op.AppLoginOp? || op.EnrolOp?)
    ensures added.None? ==> Step(db, hotp, op, now).0.phones == db.phones
    ensures added.Some? ==> !LimitReached(db, added.value.person, now)
    ensures added.Some? ==> Step(db, hotp, op, now).0.phones == AddPhone(db, op.device, added.value).0.phones
  {
    hide CheckLogin, Throttle.EnrolFails, LimitReached;
    added := None;
    if op.AppLoginOp? {
      var (c, r) := CheckLogin(db, hotp, op.account, op.who, op.pw, op.totp, op.ip, op.t0, now);
      TouchedBy(db, hotp, op, now);
      if op.labelOk && r.Ok? && !LimitReached(c, op.who.value, now) {
        added := Some(Phone(op.who.value, op.hash, Some(op.updateKey), now, now + PHONE_SLIDING, false));
        SameLimit(c, db, op.who.value, now);
      }
    } else if Step(db, hotp, op, now).0.phones != db.phones {
      added := Some(Phone(db.codes[op.code.value].person, op.hash, None, now, now + PHONE_SLIDING, false));
    }
  }

  lemma SameLimit(a: Db, b: Db, person: string, now: real)
    requires a.phones == b.phones
    ensures LimitReached(a, person, now) == LimitReached(b, person, now)
  {
    assert ActivePhonesOf(a, person, now) == ActivePhonesOf(b, person, now);
    assert ActivePhones(a, now) == ActivePhones(b, now);
  }

  lemma BelowLimit(db: Db, person: string, who: Option<string>, now: real)
    requires !LimitReached(db, person, now) && Counts(who, person)
    ensures |Counted(db, who, now)| < Limit(who)
  {
  }

  /** Only a new device, or the tie, adds to what a limit counts. */
  lemma ActiveAfter(db: Db, hotp: Hotp, op: Op, who: Option<string>, now: real)
    requires Allowed(db, op, now)
    ensures var before, after := Counted(db, who, now), Counted(Step(db, hotp, op, now).0, who, now);
            if Tie(db, op, who, now) then op.token.value !in before && after == before + {op.token.value}
            else after <= before || (|before| < Limit(who) && (op.AppLoginOp? || op.EnrolOp?) && after <= before + {op.device})
  {
    hide Counted, LimitReached, Limit, Counts, AppLogin, Enrol, Shrinks, AddPhone, UseToken;
    var d := Step(db, hotp, op, now).0;
    if op.TokenOp? {
      TokenActive(db, op, who, now);
    } else if op.AppLoginOp? || op.EnrolOp? {
      var added := NewDevice(db, hotp, op, now);
      if added.None? {
        SameActive(db, d, who, now);
      } else {
        AddedActive(db, who, op.device, added.value, now);
        SameActive(AddPhone(db, op.device, added.value).0, d, who, now);
        if Counts(who, added.value.person) {
          BelowLimit(db, added.value.person, who, now);
        }
      }
    } else {
      OthersShrink(db, hotp, op, now);
      ShrunkActive(db, d, who, now);
    }
  }

  lemma SameActive(a: Db, b: Db, who: Option<string>, now: real)
    requires a.phones == b.phones
    ensures Counted(a, who, now) == Counted(b, who, now)
  {
  }

  /** An operation keeps a limit - five phones of a person, or twenty in all - if and only if it is not the tie of one
      more. */
  lemma LimitKept(db: Db, hotp: Hotp, op: Op, who: Option<string>, now: real)
    requires Allowed(db, op, now) && |Counted(db, who, now)| <= Limit(who)
    ensures |Counted(Step(db, hotp, op, now).0, who, now)| <= Limit(who)
            <==> !(Tie(db, op, who, now) && |Counted(db, who, now)| == Limit(who))
  {
    hide Step, Allowed, Counted, Limit;
    ActiveAfter(db, hotp, op, who, now);
    var before, after := Counted(db, who, now), Counted(Step(db, hotp, op, now).0, who, now);
    if after <= before {
      SubsetSize(after, before);
    } else if op.AppLoginOp? || op.EnrolOp? {
      SubsetSize(after, before + {op.device});
    }
  }

  /** Time alone only takes phones away. */
  lemma ActiveLater(db: Db, who: Option<string>, t: real, now: real)
    requires t <= now
    ensures |Counted(db, who, now)| <= |Counted(db, who, t)|
  {
    SubsetSize(Counted(db, who, now), Counted(db, who, t));
  }

  /** In every run without the tie, nobody ever has more than five active phones, and there are never more than twenty. */
  lemma {:induction false} LimitAlways(r: Run, hotp: Hotp, who: Option<string>, k: nat)
    requires IsRun(r, hotp) && k < |r.ops| && |Counted(r.dbs[0], who, r.times[0])| <= Limit(who)
    requires forall i :: 0 <= i < |r.ops| ==> !Tie(r.dbs[i], r.ops[i], who, r.times[i])
    ensures |Counted(r.dbs[k], who, r.times[k])| <= Limit(who)
    ensures |Counted(r.dbs[k + 1], who, r.times[k])| <= Limit(who)
  {
    hide Step, Allowed, Tie, Counted, Limit;
    if k > 0 {
      LimitAlways(r, hotp, who, k - 1);
      ActiveLater(r.dbs[k], who, r.times[k - 1], r.times[k]);
    }
    LimitKept(r.dbs[k], hotp, r.ops[k], who, r.times[k]);
  }

  const WEEKS := PHONE_SLIDING

  function Old(token: string, expires: real): Phone {
    Phone("p", token, None, 0.0, expires, false)
  }

  /** Five phones of one person, one of which expires at this very second, and a live enrolment code. */
  function FivePhones(): Db {
    Db(map["p" := Person(Household, false, true, false)], map[],
       map["1" := Old("1", WEEKS + 1.0), "2" := Old("2", WEEKS + 1.0), "3" := Old("3", WEEKS + 1.0),
           "4" := Old("4", WEEKS + 1.0), "5" := Old("5", WEEKS)],
       map[], map["c" := Code("p", "h", WEEKS, false)], map[], [])
  }

  function Traded(): Db {
    Enrol(FivePhones(), true, Some("c"), "ip", WEEKS, "6", "6").0
  }

  lemma TradedPhones()
    ensures Traded().people == FivePhones().people
    ensures Traded().phones == FivePhones().phones["6" := Phone("p", "6", None, WEEKS, WEEKS + PHONE_SLIDING, false)]
  {
    var db := FivePhones();
    assert ActivePhonesOf(db, "p", WEEKS) == {"1", "2", "3", "4"};
    assert ActivePhones(db, WEEKS) == {"1", "2", "3", "4"};
    assert Throttle.EnrolFails([], "ip", WEEKS - Throttle.FAIL_WINDOW) == 0;
  }

  lemma SixActive(db: Db)
    requires db.people == FivePhones().people
    requires db.phones == FivePhones().phones["6" := Phone("p", "6", None, WEEKS, WEEKS + PHONE_SLIDING, false)]
    ensures ActivePhonesOf(UseToken(db, Some("5"), WEEKS).0, "p", WEEKS) == {"1", "2", "3", "4", "5", "6"}
  {
  }

  lemma TwoSteps(db: Db, hotp: Hotp, a: Op, b: Op, t: real) returns (r: Run)
    requires Allowed(db, a, t) && Allowed(Step(db, hotp, a, t).0, b, t)
    ensures IsRun(r, hotp) && r.ops == [a, b] && r.times == [t, t] && r.dbs[0] == db
    ensures r.dbs[2] == Step(Step(db, hotp, a, t).0, hotp, b, t).0
  {
    hide Step, Allowed;
    r := Run([db, Step(db, hotp, a, t).0, Step(Step(db, hotp, a, t).0, hotp, b, t).0], [a, b], [t, t]);
  }

  lemma Trade(hotp: Hotp, e: Op)
    requires e == EnrolOp(true, "h", Some("c"), "ip", "6", "6")
    ensures Allowed(FivePhones(), e, WEEKS) && Step(FivePhones(), hotp, e, WEEKS).0 == Traded()
    ensures |ActivePhonesOf(FivePhones(), "p", WEEKS)| == 4
  {
    hide Enrol;
    assert ActivePhonesOf(FivePhones(), "p", WEEKS) == {"1", "2", "3", "4"};
  }

  lemma ReturnOfTheFifth(hotp: Hotp, u: Op)
    requires u == TokenOp("5", Some("5"))
    ensures Allowed(Traded(), u, WEEKS) && |ActivePhonesOf(Step(Traded(), hotp, u, WEEKS).0, "p", WEEKS)| == 6
  {
    hide ActivePhonesOf, Traded, UseToken;
    TradedPhones();
    SixActive(Traded());
  }

  /** The failing run: the fifth phone expires this second, a code is traded for a sixth, then the fifth is used. */
  lemma SixPhones(hotp: Hotp) returns (r: Run)
    ensures IsRun(r, hotp) && |r.ops| == 2 && r.times[0] == r.times[1]
    ensures |ActivePhonesOf(r.dbs[0], "p", r.times[0])| < MAX_PHONES_PER_PERSON
    ensures |ActivePhonesOf(r.dbs[2], "p", r.times[1])| == 6
  {
    hide ActivePhonesOf, Traded, Step, Allowed, FivePhones, IsRun;
    var e, u := EnrolOp(true, "h", Some("c"), "ip", "6", "6"), TokenOp("5", Some("5"));
    Trade(hotp, e);
    ReturnOfTheFifth(hotp, u);
    r := TwoSteps(FivePhones(), hotp, e, u, WEEKS);
  }
}
