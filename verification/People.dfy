/** The gateway's credentials (portal/gateway/gw/people.py, auth.py): sign-in with password and one-time code, device
    tokens, update keys, sessions, enrolment codes, revocation and deactivation. Each operation is a function of the
    tables; the class is the code that changes them. */
module People {
  import opened Wrappers
  import opened Throttle

  const MAX_PHONES_PER_PERSON := 5
  const MAX_PHONES_TOTAL := 20
  const PHONE_SLIDING := 7776000.0
  const SESSION_IDLE := 43200.0
  const SESSION_ABS := 604800.0
  const ENROL_TTL := 600.0
  const SETUP_TTL := 3600.0

  datatype Role = Admin | Household | ReadOnly

  datatype Person = Person(role: Role, parent: bool, active: bool, webLogin: bool)

  datatype Cred = Cred(pwHash: string, seed: Option<string>, lastStep: int)

  datatype Phone = Phone(person: string, token: string, updateKey: Option<string>, lastSeen: real, expires: real, revoked: bool)

  datatype Session = Session(person: string, last: real, absExp: real, phone: Option<string>)

  datatype Code = Code(person: string, hash: string, expires: real, used: bool)

  /** A setup link, with the authenticator seed that is kept for it until it is used. */
  datatype Link = Link(person: string, hash: string, expires: real, used: bool, seed: Option<string>)

  datatype Db = Db(people: map<string, Person>, creds: map<string, Cred>, phones: map<string, Phone>,
                   sessions: map<string, Session>, codes: map<string, Code>, links: map<string, Link>, log: seq<Attempt>)

  datatype Via = Device | UpdateKey | WebSession

  datatype Principal = Principal(person: string, phone: Option<string>, via: Via)

  datatype Error =
    | Limited(gate: Gate)
    | InvalidCredentials
    | InvalidDevice
    | DeviceLimit
    | InvalidCode
    | TooManyAttempts
    | NotFound
    | Forbidden
    | LastAdmin
    | PersonInactive
    | PersonExists
    | InvalidName
    | WebLoginDisabled
    | LinkInvalid
    | WeakPassword
    | SetupNotStarted
    | BadTotp
    | CheckRaised
    | Collision

  // ---- one-time codes (auth.py) ----

  /** The code of a seed at a step, and the characters beyond ASCII that count as digits. */
  datatype Hotp = Hotp(code: (string, int) -> string, digit: char -> bool)

  predicate SixDigits(code: string) {
    |code| == 6 && forall i :: 0 <= i < 6 ==> '0' <= code[i] <= '9'
  }

  /** Six digits, not all of them ASCII. */
  predicate OddDigits(hotp: Hotp, code: string) {
    && |code| == 6 && !SixDigits(code)
    && forall i :: 0 <= i < 6 ==> '0' <= code[i] <= '9' || (code[i] as int > 127 && hotp.digit(code[i]))
  }

  /** verify_totp: the first step of the three around now that is newer than the last accepted one and gives the code. */
  function VerifyTotp(hotp: Hotp, seed: string, code: string, lastStep: int, now: real): Option<int> {
    var cur := (now / 30.0).Floor;
    if !SixDigits(code) then None
    else if cur - 1 > lastStep && hotp.code(seed, cur - 1) == code then Some(cur - 1)
    else if cur > lastStep && hotp.code(seed, cur) == code then Some(cur)
    else if cur + 1 > lastStep && hotp.code(seed, cur + 1) == code then Some(cur + 1)
    else None
  }

  /** The constant-time comparison raises for digits that are not ASCII, when a step is left to compare with. */
  predicate TotpRaises(hotp: Hotp, code: string, lastStep: int, now: real) {
    OddDigits(hotp, code) && (now / 30.0).Floor + 1 > lastStep
  }

  // ---- what a query may answer ----

  /** SELECT ... WHERE token_hash = h */
  predicate TokenRow(db: Db, h: string, row: Option<string>) {
    match row
    case None => forall id :: id in db.phones ==> db.phones[id].token != h
    case Some(id) => id in db.phones && db.phones[id].token == h
  }

  /** SELECT ... WHERE update_hash = h */
  predicate KeyRow(db: Db, h: string, row: Option<string>) {
    match row
    case None => forall id :: id in db.phones ==> db.phones[id].updateKey != Some(h)
    case Some(id) => id in db.phones && db.phones[id].updateKey == Some(h)
  }

  predicate CodeRow(db: Db, h: string, row: Option<string>) {
    match row
    case None => forall id :: id in db.codes ==> db.codes[id].hash != h
    case Some(id) => id in db.codes && db.codes[id].hash == h
  }

  predicate LinkRow(db: Db, h: string, row: Option<string>) {
    match row
    case None => forall id :: id in db.links ==> db.links[id].hash != h
    case Some(id) => id in db.links && db.links[id].hash == h
  }

  predicate Works(p: Phone, people: map<string, Person>, now: real) {
    !p.revoked && p.expires >= now && p.person in people && people[p.person].active
  }

  function Without(sessions: map<string, Session>, phone: string): map<string, Session> {
    map s | s in sessions && sessions[s].phone != Some(phone) :: sessions[s]
  }

  // ---- phones and sessions ----

  /** phone_principal: a device token, which slides its own expiry. */
  function UseToken(db: Db, row: Option<string>, now: real): (Db, Option<Principal>)
    requires row.Some? ==> row.value in db.phones
  {
    if row.None? || !Works(db.phones[row.value], db.people, now) then (db, None)
    else
      var p := db.phones[row.value];
      (if now - p.lastSeen > 60.0 then db.(phones := db.phones[row.value := p.(lastSeen := now, expires := now + PHONE_SLIDING)]) else db,
       Some(Principal(p.person, row, Device)))
  }

  /** update_key_principal: the same rules, without sliding. */
  function UseKey(db: Db, row: Option<string>, now: real): Option<Principal>
    requires row.Some? ==> row.value in db.phones
  {
    if row.None? || !Works(db.phones[row.value], db.people, now) then None
    else Some(Principal(db.phones[row.value].person, row, UpdateKey))
  }

  predicate SessionValid(db: Db, sid: string, now: real)
    requires sid in db.sessions
  {
    var s := db.sessions[sid];
    && now <= s.absExp && now <= s.last + SESSION_IDLE
    && s.person in db.people
    && (match s.phone
        case Some(phone) => phone in db.phones && Works(db.phones[phone], db.people, now)
        case None => db.people[s.person].active && db.people[s.person].webLogin)
  }

  /** session_principal: idle and absolute limits; the idle clock is written at most once a minute. */
  function UseSession(db: Db, sid: string, now: real): (Db, Option<Principal>) {
    if sid !in db.sessions then (db, None)
    else if !SessionValid(db, sid, now) then (db.(sessions := db.sessions - {sid}), None)
    else
      var s := db.sessions[sid];
      (if now - s.last > 60.0 then db.(sessions := db.sessions[sid := s.(last := now)]) else db,
       Some(Principal(s.person, s.phone, WebSession)))
  }

  /** create_app_session */
  function NewAppSession(db: Db, phone: string, sid: string, now: real): (Db, Result<(), Error>) {
    if phone !in db.phones then (db, Err(NotFound))
    else
      var p := db.phones[phone];
      var kept := map s | s in db.sessions
                    && !(db.sessions[s].phone == Some(phone) && (db.sessions[s].absExp < now || db.sessions[s].last < now - SESSION_IDLE))
                  :: db.sessions[s];
      if sid in kept then (db.(sessions := kept), Err(Collision))
      else
        var end := if now + SESSION_ABS < p.expires then now + SESSION_ABS else p.expires;
        (db.(sessions := kept[sid := Session(p.person, now, end, Some(phone))]), Ok(()))
  }

  /** The two writes of app_logout and revoke_phone. */
  function Revoke(db: Db, phone: string): Db {
    db.(phones := if phone in db.phones then db.phones[phone := db.phones[phone].(revoked := true)] else db.phones,
        sessions := Without(db.sessions, phone))
  }

  /** revoke_phone */
  function RevokePhone(db: Db, role: Role, person: string, phone: string): (Db, Result<(), Error>) {
    if phone !in db.phones then (db, Err(NotFound))
    else if role != Admin && db.phones[phone].person != person then (db, Err(Forbidden))
    else (Revoke(db, phone), Ok(()))
  }

  /** mint_update_key: a new update key for the phone, in place of the old one. */
  function MintKey(db: Db, phone: string, key: string): Db {
    if phone in db.phones then db.(phones := db.phones[phone := db.phones[phone].(updateKey := Some(key))]) else db
  }

  /** logout */
  function Logout(db: Db, sid: string): Db {
    db.(sessions := db.sessions - {sid})
  }

  // ---- people ----

  /** create: a person under a new id; web login defaults to admins. */
  function Create(db: Db, pid: string, nameOk: bool, role: Role, parent: bool, webLogin: Option<bool>): (Db, Result<(), Error>) {
    if !nameOk then (db, Err(InvalidName))
    else if pid in db.people then (db, Err(PersonExists))
    else
      var web := if webLogin.Some? then webLogin.value else role == Admin;
      (db.(people := db.people[pid := Person(role, parent, true, web)]), Ok(()))
  }

  datatype Fields = Fields(role: Option<Role>, parent: Option<bool>, active: Option<bool>, webLogin: Option<bool>)

  function Patched(p: Person, f: Fields): Person {
    Person(if f.role.Some? then f.role.value else p.role, if f.parent.Some? then f.parent.value else p.parent,
           if f.active.Some? then f.active.value else p.active, if f.webLogin.Some? then f.webLogin.value else p.webLogin)
  }

  predicate OtherAdmin(people: map<string, Person>, pid: string) {
    exists id :: id in people && id != pid && people[id].role == Admin && people[id].active
  }

  /** patch: the last active admin cannot be lost; deactivating revokes every phone and closes every session. */
  function Patch(db: Db, pid: string, f: Fields): (Db, Result<(), Error>) {
    if pid !in db.people then (db, Err(NotFound))
    else
      var cur, new' := db.people[pid], Patched(db.people[pid], f);
      if cur.role == Admin && cur.active && (new'.role != Admin || !new'.active) && !OtherAdmin(db.people, pid) then (db, Err(LastAdmin))
      else
        var sessions := if !new'.active then map s | s in db.sessions && db.sessions[s].person != pid :: db.sessions[s]
                        else if !new'.webLogin
                        then map s | s in db.sessions && !(db.sessions[s].person == pid && db.sessions[s].phone.None?) :: db.sessions[s]
                        else db.sessions;
        var phones := if new'.active then db.phones
                      else map id | id in db.phones :: if db.phones[id].person == pid then db.phones[id].(revoked := true) else db.phones[id];
        (db.(people := db.people[pid := new'], sessions := sessions, phones := phones), Ok(()))
  }

  // ---- signing in ----

  /** The row of people the account string finds, by id or by lower-cased name. */
  predicate PersonRow(db: Db, who: Option<string>) {
    who.Some? ==> who.value in db.people
  }

  /** An account string that can be stored, or one with half a surrogate pair, on which the query of the throttle raises. */
  datatype Account = Named(name: string) | Unstorable

  /** The password that was stored, another one, or one with half a surrogate pair, which cannot be encoded. */
  datatype Password = Right | Wrong | Unencodable

  /** A one-time code that is text, absent being empty, or a JSON value that is neither text nor empty. */
  datatype Typed = Text(text: string) | NotText

  predicate HasPassword(db: Db, who: Option<string>) {
    who.Some? && who.value in db.creds && db.creds[who.value].pwHash != ""
  }

  function CheckedCode(hotp: Hotp, c: Cred, code: Typed, now: real): Option<int> {
    if c.seed.Some? && code.Text? then VerifyTotp(hotp, c.seed.value, code.text, c.lastStep, now) else None
  }

  /** The verdict of _check_login after the throttle: password, one-time code where one is due, active with web login. */
  function Verdict(db: Db, hotp: Hotp, who: Option<string>, pw: Password, code: Typed, now: real): Option<Option<int>>
    requires PersonRow(db, who)
  {
    if !HasPassword(db, who) || pw != Right then None
    else
      var p, c := db.people[who.value], db.creds[who.value];
      var due := p.role == Admin || c.seed.Some?;
      var step := CheckedCode(hotp, c, code, now);
      if (due && step.None?) || !p.active || !p.webLogin then None
      else Some(step)
  }

  /** The check raises before it records anything: the time for an unknown account is spent on a password that cannot be
      encoded; or the password was right, a code is due from a seed, and it is no text or has digits that are not ASCII. */
  predicate CheckRaises(db: Db, hotp: Hotp, who: Option<string>, pw: Password, code: Typed, now: real) {
    if !HasPassword(db, who) then pw == Unencodable
    else
      && pw == Right && db.creds[who.value].seed.Some?
      && (code.NotText? || TotpRaises(hotp, code.text, db.creds[who.value].lastStep, now))
  }

  /** _check_login: throttle at t0, everything else at now. An attempt that raises is not recorded. */
  function CheckLogin(db: Db, hotp: Hotp, account: Account, who: Option<string>, pw: Password, code: Typed, ip: string, t0: real, now: real)
      : (Db, Result<Option<int>, Error>)
    requires PersonRow(db, who)
  {
    var gate := if account.Named? then Throttled(db.log, account.name, ip, t0) else AddressGate(db.log, ip, t0);
    if gate != Pass then (db, Err(Limited(gate)))
    else if account.Unstorable? || CheckRaises(db, hotp, who, pw, code, now) then (db, Err(CheckRaised))
    else
      var v := Verdict(db, hotp, who, pw, code, now);
      var logged := db.(log := db.log + [Attempt(now, ip, account.name, v.Some?, true)]);
      if v.None? then (logged, Err(InvalidCredentials))
      else if v.value.None? || v.value.value == 0 then (logged, Ok(v.value))
      else (logged.(creds := db.creds[who.value := db.creds[who.value].(lastStep := v.value.value)]), Ok(v.value))
  }

  function ActivePhones(db: Db, now: real): set<string> {
    set id | id in db.phones && !db.phones[id].revoked && db.phones[id].expires > now
  }

  function ActivePhonesOf(db: Db, person: string, now: real): set<string> {
    set id | id in db.phones && db.phones[id].person == person && !db.phones[id].revoked && db.phones[id].expires > now
  }

  predicate LimitReached(db: Db, person: string, now: real) {
    |ActivePhonesOf(db, person, now)| >= MAX_PHONES_PER_PERSON || |ActivePhones(db, now)| >= MAX_PHONES_TOTAL
  }

  /** INSERT INTO phones, with its primary key and the unique token. */
  function AddPhone(db: Db, id: string, phone: Phone): (Db, bool) {
    if id in db.phones || exists other :: other in db.phones && db.phones[other].token == phone.token then (db, false)
    else (db.(phones := db.phones[id := phone]), true)
  }

  /** app_login: the new device gets a token and an update key. */
  function AppLogin(db: Db, hotp: Hotp, labelOk: bool, account: Account, who: Option<string>, pw: Password, code: Typed, ip: string,
                    t0: real, now: real, id: string, token: string, key: string): (Db, Result<Option<int>, Error>)
    requires PersonRow(db, who)
  {
    if !labelOk then (db, Err(InvalidDevice))
    else
      var (checked, r) := CheckLogin(db, hotp, account, who, pw, code, ip, t0, now);
      if r.Err? then (checked, r)
      else if who.None? then assert false; (checked, r)
      else if LimitReached(checked, who.value, now) then (checked, Err(DeviceLimit))
      else
        var (added, ok) := AddPhone(checked, id, Phone(who.value, token, Some(key), now, now + PHONE_SLIDING, false));
        (added, if ok then r else Err(Collision))
  }

  /** login: a web session. */
  function WebLogin(db: Db, hotp: Hotp, account: Account, who: Option<string>, pw: Password, code: Typed, ip: string,
                    t0: real, now: real, sid: string): (Db, Result<Option<int>, Error>)
    requires PersonRow(db, who)
  {
    var (checked, r) := CheckLogin(db, hotp, account, who, pw, code, ip, t0, now);
    if r.Err? then (checked, r)
    else if who.None? then assert false; (checked, r)
    else if sid in checked.sessions then (checked, Err(Collision))
    else (checked.(sessions := checked.sessions[sid := Session(who.value, now, now + SESSION_ABS, None)]), r)
  }

  // ---- setup links ----

  predicate LinkUsable(db: Db, row: Option<string>, now: real)
    requires row.Some? ==> row.value in db.links
  {
    row.Some? && !db.links[row.value].used && db.links[row.value].expires >= now
  }

  /** create_setup_link: one live link per person. */
  function NewLink(db: Db, pid: string, id: string, hash: string, now: real): (Db, Result<(), Error>) {
    if pid !in db.people then (db, Err(NotFound))
    else if !db.people[pid].active then (db, Err(PersonInactive))
    else if !db.people[pid].webLogin then (db, Err(WebLoginDisabled))
    else if id in db.links || exists l :: l in db.links && db.links[l].hash == hash then (db, Err(Collision))
    else
      var spent := map l | l in db.links :: if db.links[l].person == pid then db.links[l].(used := true) else db.links[l];
      (db.(links := spent[id := Link(pid, hash, now + SETUP_TTL, false, None)]), Ok(()))
  }

  /** setup_begin: the seed is drawn once per link. */
  function BeginSetup(db: Db, row: Option<string>, seed: string, now: real): (Db, Result<(), Error>)
    requires row.Some? ==> row.value in db.links
  {
    if !LinkUsable(db, row, now) then (db, Err(LinkInvalid))
    else if db.links[row.value].seed.Some? then (db, Ok(()))
    else (db.(links := db.links[row.value := db.links[row.value].(seed := Some(seed))]), Ok(()))
  }

  /** setup_complete: the link's seed comes with a code that proves it, or - for people who are not admins - is left out;
      the link is used up. */
  function Setup(db: Db, hotp: Hotp, row: Option<string>, pwOk: bool, pwHash: string, code: string, now: real): (Db, Result<Option<int>, Error>)
    requires row.Some? ==> row.value in db.links
  {
    if !LinkUsable(db, row, now) then (db, Err(LinkInvalid))
    else if !pwOk then (db, Err(WeakPassword))
    else
      var l := db.links[row.value];
      if l.seed.None? then (db, Err(SetupNotStarted))
      else if l.person !in db.people then (db, Err(NotFound))
      else
        var skip := db.people[l.person].role != Admin && code == "";
        if !skip && TotpRaises(hotp, code, 0, now) then (db, Err(CheckRaised))
        else
          var step := if skip then None else VerifyTotp(hotp, l.seed.value, code, 0, now);
          if !skip && step.None? then (db, Err(BadTotp))
          else
            (db.(creds := db.creds[l.person := Cred(pwHash, if skip then None else l.seed, if skip then 0 else step.value)],
                 links := db.links[row.value := l.(used := true, seed := None)],
                 sessions := map s | s in db.sessions && db.sessions[s].person != l.person :: db.sessions[s]), Ok(step))
  }

  /** reset_credentials */
  function ResetCredentials(db: Db, pid: string): (Db, Result<(), Error>) {
    if pid !in db.people then (db, Err(NotFound))
    else (db.(creds := db.creds - {pid}, sessions := map s | s in db.sessions && db.sessions[s].person != pid :: db.sessions[s]), Ok(()))
  }

  // ---- enrolment ----

  /** create_enrolment_code: one live code per person. */
  function NewCode(db: Db, pid: string, id: string, hash: string, now: real): (Db, Result<(), Error>) {
    if pid !in db.people then (db, Err(NotFound))
    else if !db.people[pid].active then (db, Err(PersonInactive))
    else if LimitReached(db, pid, now) then (db, Err(DeviceLimit))
    else if id in db.codes || exists c :: c in db.codes && db.codes[c].hash == hash then (db, Err(Collision))
    else
      var spent := map c | c in db.codes :: if db.codes[c].person == pid then db.codes[c].(used := true) else db.codes[c];
      (db.(codes := spent[id := Code(pid, hash, now + ENROL_TTL, false)]), Ok(()))
  }

  /** enrol: a code for a device token. */
  function Enrol(db: Db, labelOk: bool, row: Option<string>, ip: string, now: real, id: string, token: string): (Db, Result<(), Error>)
    requires row.Some? ==> row.value in db.codes
  {
    if EnrolFails(db.log, ip, now - FAIL_WINDOW) >= ENROL_FAIL_LIMIT then (db, Err(TooManyAttempts))
    else if !labelOk then (db, Err(InvalidDevice))
    else if row.None? || db.codes[row.value].used || db.codes[row.value].expires < now then
      (db.(log := db.log + [Attempt(now, ip, "enrol", false, false)]), Err(InvalidCode))
    else
      var c := db.codes[row.value];
      if c.person !in db.people || !db.people[c.person].active then (db, Err(InvalidCode))
      else if LimitReached(db, c.person, now) then (db, Err(DeviceLimit))
      else
        var (added, ok) := AddPhone(db, id, Phone(c.person, token, None, now, now + PHONE_SLIDING, false));
        if !ok then (db, Err(Collision))
        else (added.(codes := db.codes[row.value := c.(used := true)]), Ok(()))
  }

  // ---- the code that changes the tables ----

  class Tables {
    var people: map<string, Person>
    var creds: map<string, Cred>
    var phones: map<string, Phone>
    var sessions: map<string, Session>
    var codes: map<string, Code>
    var links: map<string, Link>
    var log: seq<Attempt>

    function Abs(): Db
      reads this
    {
      Db(people, creds, phones, sessions, codes, links, log)
    }

    constructor (people: map<string, Person>)
      ensures Abs() == Db(people, map[], map[], map[], map[], map[], [])
    {
      this.people, creds, phones, sessions, codes, links, log := people, map[], map[], map[], map[], map[], [];
    }

    method PhonePrincipal(row: Option<string>, now: real) returns (r: Option<Principal>)
      requires row.Some? ==> row.value in phones
      modifies this`phones
      ensures (Abs(), r) == UseToken(old(Abs()), row, now)
    {
      if row.None? {
        return None;
      }
      var p := phones[row.value];
      if p.revoked || p.expires < now || p.person !in people || !people[p.person].active {
        return None;
      }
      if now - p.lastSeen > 60.0 {
        phones := phones[row.value := p.(lastSeen := now, expires := now + PHONE_SLIDING)];
      }
      return Some(Principal(p.person, row, Device));
    }

    method UpdateKeyPrincipal(row: Option<string>, now: real) returns (r: Option<Principal>)
      requires row.Some? ==> row.value in phones
      ensures r == UseKey(Abs(), row, now)
    {
      if row.None? {
        return None;
      }
      var p := phones[row.value];
      if p.revoked || p.expires < now || p.person !in people || !people[p.person].active {
        return None;
      }
      return Some(Principal(p.person, row, UpdateKey));
    }

    method MintUpdateKey(phone: string, key: string)
      modifies this`phones
      ensures Abs() == MintKey(old(Abs()), phone, key)
    {
      if phone in phones {
        phones := phones[phone := phones[phone].(updateKey := Some(key))];
      }
    }

    method SessionPrincipal(sid: string, now: real) returns (r: Option<Principal>)
      modifies this`sessions
      ensures (Abs(), r) == UseSession(old(Abs()), sid, now)
    {
      if sid !in sessions {
        return None;
      }
      var s := sessions[sid];
      if now > s.absExp || now > s.last + SESSION_IDLE {
        sessions := sessions - {sid};
        return None;
      }
      if s.phone.Some? {
        if s.person !in people || s.phone.value !in phones || !Works(phones[s.phone.value], people, now) {
          sessions := sessions - {sid};
          return None;
        }
      } else if s.person !in people || !people[s.person].active || !people[s.person].webLogin {
        sessions := sessions - {sid};
        return None;
      }
      if now - s.last > 60.0 {
        sessions := sessions[sid := s.(last := now)];
      }
      return Some(Principal(s.person, s.phone, WebSession));
    }

    method SignOut(sid: string)
      modifies this`sessions
      ensures Abs() == Logout(old(Abs()), sid)
    {
      sessions := sessions - {sid};
    }

    method Close(phone: string)
      modifies this`phones, this`sessions
      ensures Abs() == Revoke(old(Abs()), phone)
    {
      if phone in phones {
        phones := phones[phone := phones[phone].(revoked := true)];
      }
      sessions := map s | s in sessions && sessions[s].phone != Some(phone) :: sessions[s];
    }

    method RevokeAs(role: Role, person: string, phone: string) returns (r: Result<(), Error>)
      modifies this`phones, this`sessions
      ensures (Abs(), r) == RevokePhone(old(Abs()), role, person, phone)
    {
      if phone !in phones {
        return Err(NotFound);
      }
      if role != Admin && phones[phone].person != person {
        return Err(Forbidden);
      }
      Close(phone);
      return Ok(());
    }

    method CreatePerson(pid: string, nameOk: bool, role: Role, parent: bool, webLogin: Option<bool>) returns (r: Result<(), Error>)
      modifies this`people
      ensures (Abs(), r) == Create(old(Abs()), pid, nameOk, role, parent, webLogin)
    {
      if !nameOk {
        return Err(InvalidName);
      }
      if pid in people {
        return Err(PersonExists);
      }
      var web := role == Admin;
      if webLogin.Some? {
        web := webLogin.value;
      }
      people := people[pid := Person(role, parent, true, web)];
      return Ok(());
    }

    method PatchPerson(pid: string, f: Fields) returns (r: Result<(), Error>)
      modifies this`people, this`phones, this`sessions
      ensures (Abs(), r) == Patch(old(Abs()), pid, f)
    {
      if pid !in people {
        return Err(NotFound);
      }
      var cur := people[pid];
      var new' := Patched(cur, f);
      if cur.role == Admin && cur.active && (new'.role != Admin || !new'.active) && !OtherAdmin(people, pid) {
        return Err(LastAdmin);
      }
      people := people[pid := new'];
      if !new'.active {
        sessions := map s | s in sessions && sessions[s].person != pid :: sessions[s];
        RevokeAll(pid);
      } else if !new'.webLogin {
        sessions := map s | s in sessions && !(sessions[s].person == pid && sessions[s].phone.None?) :: sessions[s];
      }
      return Ok(());
    }

    /** The loop of patch over the person's phones. */
    method RevokeAll(pid: string)
      modifies this`phones
      ensures phones == map id | id in old(phones) :: if old(phones)[id].person == pid then old(phones)[id].(revoked := true) else old(phones)[id]
    {
      var rest := set id | id in phones && phones[id].person == pid && !phones[id].revoked;
      while rest != {}
        invariant phones.Keys == old(phones).Keys
        invariant forall id :: id in rest ==> id in phones
        invariant forall id :: id in phones ==>
                    phones[id] == if old(phones)[id].person == pid && id !in rest then old(phones)[id].(revoked := true) else old(phones)[id]
      {
        var id :| id in rest;
        phones := phones[id := phones[id].(revoked := true)];
        rest := rest - {id};
      }
    }

    method SignIn(hotp: Hotp, account: Account, who: Option<string>, pw: Password, code: Typed, ip: string, t0: real, now: real)
        returns (r: Result<Option<int>, Error>)
      requires PersonRow(Abs(), who)
      modifies this`log, this`creds
      ensures (Abs(), r) == CheckLogin(old(Abs()), hotp, account, who, pw, code, ip, t0, now)
    {
      var gate := AddressGate(log, ip, t0);
      if gate == Pass && account.Named? {
        gate := Throttled(log, account.name, ip, t0);
      }
      if gate != Pass {
        return Err(Limited(gate));
      }
      if account.Unstorable? {
        return Err(CheckRaised);
      }
      var ok, step := false, None;
      if who.Some? && who.value in creds && creds[who.value].pwHash != "" {
        ok := pw == Right;
      } else if pw == Unencodable {
        return Err(CheckRaised);
      }
      if ok {
        var c := creds[who.value];
        if people[who.value].role == Admin || c.seed.Some? {
          if c.seed.Some? {
            if code.NotText? || TotpRaises(hotp, code.text, c.lastStep, now) {
              return Err(CheckRaised);
            }
            step := VerifyTotp(hotp, c.seed.value, code.text, c.lastStep, now);
          }
          ok := step.Some?;
        }
      }
      if ok && !(people[who.value].active && people[who.value].webLogin) {
        ok := false;
      }
      log := log + [Attempt(now, ip, account.name, ok, true)];
      if !ok {
        return Err(InvalidCredentials);
      }
      if step.Some? && step.value != 0 {
        creds := creds[who.value := creds[who.value].(lastStep := step.value)];
      }
      return Ok(step);
    }

    method SignInDevice(hotp: Hotp, labelOk: bool, account: Account, who: Option<string>, pw: Password, code: Typed, ip: string,
                        t0: real, now: real, id: string, token: string, key: string) returns (r: Result<Option<int>, Error>)
      requires PersonRow(Abs(), who)
      modifies this`log, this`creds, this`phones
      ensures (Abs(), r) == AppLogin(old(Abs()), hotp, labelOk, account, who, pw, code, ip, t0, now, id, token, key)
    {
      if !labelOk {
        return Err(InvalidDevice);
      }
      r := SignIn(hotp, account, who, pw, code, ip, t0, now);
      if r.Err? {
        return;
      }
      if |ActivePhonesOf(Abs(), who.value, now)| >= MAX_PHONES_PER_PERSON || |ActivePhones(Abs(), now)| >= MAX_PHONES_TOTAL {
        return Err(DeviceLimit);
      }
      if id in phones || exists other :: other in phones && phones[other].token == token {
        return Err(Collision);
      }
      phones := phones[id := Phone(who.value, token, None, now, now + PHONE_SLIDING, false)];
      phones := phones[id := phones[id].(updateKey := Some(key))];
      assert phones == old(phones)[id := Phone(who.value, token, Some(key), now, now + PHONE_SLIDING, false)];
    }

    method SignInWeb(hotp: Hotp, account: Account, who: Option<string>, pw: Password, code: Typed, ip: string, t0: real, now: real, sid: string)
        returns (r: Result<Option<int>, Error>)
      requires PersonRow(Abs(), who)
      modifies this`log, this`creds, this`sessions
      ensures (Abs(), r) == WebLogin(old(Abs()), hotp, account, who, pw, code, ip, t0, now, sid)
    {
      r := SignIn(hotp, account, who, pw, code, ip, t0, now);
      if r.Err? {
        return;
      }
      if sid in sessions {
        return Err(Collision);
      }
      sessions := sessions[sid := Session(who.value, now, now + SESSION_ABS, None)];
    }

    method IssueLink(pid: string, id: string, hash: string, now: real) returns (r: Result<(), Error>)
      modifies this`links
      ensures (Abs(), r) == NewLink(old(Abs()), pid, id, hash, now)
    {
      if pid !in people {
        return Err(NotFound);
      }
      if !people[pid].active {
        return Err(PersonInactive);
      }
      if !people[pid].webLogin {
        return Err(WebLoginDisabled);
      }
      if id in links || exists l :: l in links && links[l].hash == hash {
        return Err(Collision);
      }
      links := map l | l in links :: if links[l].person == pid then links[l].(used := true) else links[l];
      links := links[id := Link(pid, hash, now + SETUP_TTL, false, None)];
      return Ok(());
    }

    method OpenSetup(row: Option<string>, seed: string, now: real) returns (r: Result<(), Error>)
      requires row.Some? ==> row.value in links
      modifies this`links
      ensures (Abs(), r) == BeginSetup(old(Abs()), row, seed, now)
    {
      if row.None? || links[row.value].used || links[row.value].expires < now {
        return Err(LinkInvalid);
      }
      if links[row.value].seed.None? {
        links := links[row.value := links[row.value].(seed := Some(seed))];
      }
      return Ok(());
    }

    method CompleteSetup(hotp: Hotp, row: Option<string>, pwOk: bool, pwHash: string, code: string, now: real) returns (r: Result<Option<int>, Error>)
      requires row.Some? ==> row.value in links
      modifies this`creds, this`sessions, this`links
      ensures (Abs(), r) == Setup(old(Abs()), hotp, row, pwOk, pwHash, code, now)
    {
      if row.None? || links[row.value].used || links[row.value].expires < now {
        return Err(LinkInvalid);
      }
      if !pwOk {
        return Err(WeakPassword);
      }
      var l := links[row.value];
      if l.seed.None? {
        return Err(SetupNotStarted);
      }
      if l.person !in people {
        return Err(NotFound);
      }
      var kept, step := None, None;
      if people[l.person].role == Admin || code != "" {
        if TotpRaises(hotp, code, 0, now) {
          return Err(CheckRaised);
        }
        step := VerifyTotp(hotp, l.seed.value, code, 0, now);
        if step.None? {
          return Err(BadTotp);
        }
        kept := l.seed;
      }
      creds := creds[l.person := Cred(pwHash, kept, if step.Some? then step.value else 0)];
      links := links[row.value := l.(used := true, seed := None)];
      sessions := map s | s in sessions && sessions[s].person != l.person :: sessions[s];
      return Ok(step);
    }

    method ForgetCredentials(pid: string) returns (r: Result<(), Error>)
      modifies this`creds, this`sessions
      ensures (Abs(), r) == ResetCredentials(old(Abs()), pid)
    {
      if pid !in people {
        return Err(NotFound);
      }
      creds := creds - {pid};
      sessions := map s | s in sessions && sessions[s].person != pid :: sessions[s];
      return Ok(());
    }

    method IssueCode(pid: string, id: string, hash: string, now: real) returns (r: Result<(), Error>)
      modifies this`codes
      ensures (Abs(), r) == NewCode(old(Abs()), pid, id, hash, now)
    {
      if pid !in people {
        return Err(NotFound);
      }
      if !people[pid].active {
        return Err(PersonInactive);
      }
      if |ActivePhonesOf(Abs(), pid, now)| >= MAX_PHONES_PER_PERSON || |ActivePhones(Abs(), now)| >= MAX_PHONES_TOTAL {
        return Err(DeviceLimit);
      }
      if id in codes || exists c :: c in codes && codes[c].hash == hash {
        return Err(Collision);
      }
      codes := map c | c in codes :: if codes[c].person == pid then codes[c].(used := true) else codes[c];
      codes := codes[id := Code(pid, hash, now + ENROL_TTL, false)];
      return Ok(());
    }

    method TradeCode(labelOk: bool, row: Option<string>, ip: string, now: real, id: string, token: string) returns (r: Result<(), Error>)
      requires row.Some? ==> row.value in codes
      modifies this`log, this`codes, this`phones
      ensures (Abs(), r) == Enrol(old(Abs()), labelOk, row, ip, now, id, token)
    {
      if EnrolFails(log, ip, now - FAIL_WINDOW) >= ENROL_FAIL_LIMIT {
        return Err(TooManyAttempts);
      }
      if !labelOk {
        return Err(InvalidDevice);
      }
      if row.None? || codes[row.value].used || codes[row.value].expires < now {
        log := log + [Attempt(now, ip, "enrol", false, false)];
        return Err(InvalidCode);
      }
      var c := codes[row.value];
      if c.person !in people || !people[c.person].active {
        return Err(InvalidCode);
      }
      if |ActivePhonesOf(Abs(), c.person, now)| >= MAX_PHONES_PER_PERSON || |ActivePhones(Abs(), now)| >= MAX_PHONES_TOTAL {
        return Err(DeviceLimit);
      }
      if id in phones || exists other :: other in phones && phones[other].token == token {
        return Err(Collision);
      }
      codes := codes[row.value := c.(used := true)];
      phones := phones[id := Phone(c.person, token, None, now, now + PHONE_SLIDING, false)];
      return Ok(());
    }

    method OpenAppSession(phone: string, sid: string, now: real) returns (r: Result<(), Error>)
      modifies this`sessions
      ensures (Abs(), r) == NewAppSession(old(Abs()), phone, sid, now)
    {
      if phone !in phones {
        return Err(NotFound);
      }
      var p := phones[phone];
      sessions := map s | s in sessions
                    && !(sessions[s].phone == Some(phone) && (sessions[s].absExp < now || sessions[s].last < now - SESSION_IDLE))
                  :: sessions[s];
      if sid in sessions {
        return Err(Collision);
      }
      var end := if now + SESSION_ABS < p.expires then now + SESSION_ABS else p.expires;
      sessions := sessions[sid := Session(p.person, now, end, Some(phone))];
      return Ok(());
    }
  }
}
