/** The app's update channel (portal/gateway/gw/releases.py): releases are added, published with a signed manifest, stopped
    and resumed; the channel only rolls forward. */
module Releases {
  import opened Wrappers
  import opened Bytes
  import opened Edwards
  import Ed25519

  const SCHEMA := 1
  const APP_ID := "home.minis.portal"
  const KEY_ID := "k1"
  const MAX_APK := 83886080

  datatype State = Pending | Published | Superseded

  datatype Release = Release(name: string, size: nat, sha: string, cert: string, notes: string, state: State, minSupported: Option<int>)

  datatype Payload = Payload(schema: int, appId: string, keyId: string, name: string, code: int, minSupported: int,
                             sha: string, size: nat, cert: string, changelog: string, publishedAt: string)

  datatype Manifest = Manifest(schema: int, keyId: string, payload: seq<byte>, signature: seq<byte>)

  /** The canonical text of a payload and its reading. */
  datatype Codec = Codec(encode: Payload -> seq<byte>, parse: seq<byte> -> Option<Payload>)

  ghost predicate RoundTrip(c: Codec) {
    forall p :: c.parse(c.encode(p)) == Some(p)
  }

  datatype Error =
    | BadSchema | BadSignature | BadPayload | WrongApp
    | NotPinned | BadNotes | NoFile | TooLarge | BadApk | WrongCertificate | NotHigher | Interrupted
    | BadFingerprint | AlreadyPinned
    | NotFound | NotPending | FileMismatch | BadMin | NoKey | NothingPublished

  // ---- the manifest ----

  /** verify_manifest */
  function VerifyManifest(s: Ed25519.Scheme, c: Codec, m: Manifest, keys: seq<seq<byte>>): Result<Payload, Error> {
    if m.schema != SCHEMA then Err(BadSchema)
    else if !exists i :: 0 <= i < |keys| && Ed25519.Verify(s, keys[i], m.payload, m.signature) then Err(BadSignature)
    else
      var p := c.parse(m.payload);
      if p.None? then Err(BadPayload)
      else if p.value.schema != SCHEMA || p.value.appId != APP_ID then Err(WrongApp)
      else Ok(p.value)
  }

  /** The manifest that publish signs. */
  function Signed(s: Ed25519.Scheme, c: Codec, seed: seq<byte>, p: Payload): Result<Manifest, Ed25519.Error> {
    match Ed25519.Sign(s, seed, c.encode(p))
    case Err(e) => Err(e)
    case Ok(sig) => Ok(Manifest(SCHEMA, KEY_ID, c.encode(p), sig))
  }

  lemma SignedOk(s: Ed25519.Scheme, c: Codec, seed: seq<byte>, p: Payload)
    requires |seed| == 32
    ensures Signed(s, c, seed, p).Ok?
  {
    hide Ed25519.HModQ, Ed25519.Clamp;
  }

  lemma SignedForm(s: Ed25519.Scheme, c: Codec, seed: seq<byte>, p: Payload)
    requires Signed(s, c, seed, p).Ok?
    ensures Signed(s, c, seed, p).value.schema == 1 && Signed(s, c, seed, p).value.keyId == "k1"
  {
    hide Ed25519.Sign;
  }

  function PayloadOf(code: int, r: Release, minSupported: int, at: string): Payload {
    Payload(SCHEMA, APP_ID, KEY_ID, r.name, code, minSupported, r.sha, r.size, r.cert, r.notes, at)
  }

  /** A manifest that was signed with a seed passes the check of the app under any keys that include the seed's public
      key, and gives back its payload. */
  lemma SignedPasses(s: Ed25519.Scheme, b: Affine, c: Codec, seed: seq<byte>, p: Payload, keys: seq<seq<byte>>)
    requires Ed25519.Sound(s, b) && RoundTrip(c) && |seed| == 32 && p.schema == SCHEMA && p.appId == APP_ID
    requires Ed25519.PublicKey(s, seed).Ok? && Ed25519.PublicKey(s, seed).value in keys
    ensures Signed(s, c, seed, p).Ok? && VerifyManifest(s, c, Signed(s, c, seed, p).value, keys) == Ok(p)
  {
    hide Ed25519.Sign, Ed25519.Verify, Ed25519.PublicKey, Ed25519.Sound;
    Ed25519.SignedVerifies(s, b, seed, c.encode(p));
    var i :| 0 <= i < |keys| && keys[i] == Ed25519.PublicKey(s, seed).value;
    assert Ed25519.Verify(s, keys[i], c.encode(p), Signed(s, c, seed, p).value.signature);
  }

  /** A manifest passes with a payload if and only if one of the keys signed the very bytes that the payload was parsed
      from, and payload and manifest are of this schema and this app. */
  lemma PassesSigned(s: Ed25519.Scheme, c: Codec, m: Manifest, keys: seq<seq<byte>>, p: Payload)
    ensures VerifyManifest(s, c, m, keys) == Ok(p) <==>
              && (exists key :: key in keys && Ed25519.Verify(s, key, m.payload, m.signature))
              && c.parse(m.payload) == Some(p) && m.schema == p.schema == 1 && p.appId == "home.minis.portal"
  {
    hide Ed25519.Verify;
  }

  // ---- the channel ----

  /** Sixty-four hexadecimal digits. */
  predicate IsFingerprint(s: string) {
    |s| == 64 && forall i :: 0 <= i < |s| ==> '0' <= s[i] <= '9' || 'a' <= s[i] <= 'f'
  }

  /** What inspecting an APK gives. */
  datatype Apk = Apk(package: string, code: int, name: string, certs: seq<string>)

  /** At most one release is published, and it is the current one; the superseded ones are older. */
  ghost predicate RowsAgree(rows: map<int, Release>, current: Option<int>) {
    && (forall v :: v in rows ==> v >= 0 && (rows[v].state == Published ==> current == Some(v)))
    && (forall v :: v in rows && rows[v].state == Superseded ==> current.Some? && v < current.value)
    && (current.Some? ==> current.value in rows && rows[current.value].state == Published)
  }

  ghost predicate Rising(history: seq<int>) {
    forall i, j :: 0 <= i < j < |history| ==> history[i] < history[j]
  }

  /** UPDATE releases SET state='superseded' WHERE state='published' */
  function Superseding(rows: map<int, Release>): (r: map<int, Release>)
    ensures r.Keys == rows.Keys
  {
    map v | v in rows :: if rows[v].state == Published then rows[v].(state := Superseded) else rows[v]
  }

  lemma PublishedRows(rows: map<int, Release>, current: Option<int>, code: int, row: Release)
    requires RowsAgree(rows, current) && code in rows && rows[code].state == Pending && row.state == Published
    requires current.Some? ==> code > current.value
    ensures RowsAgree(Superseding(rows)[code := row], Some(code))
  {
  }

  lemma CodesPositive(rows: map<int, Release>, current: Option<int>, code: int)
    requires RowsAgree(rows, current) && code in rows
    ensures code >= 0
  {
  }

  lemma RisingStep(history: seq<int>, code: int)
    requires Rising(history) && (history != [] ==> history[|history| - 1] < code)
    ensures Rising(history + [code])
  {
  }

  /** State and minimum are not in the payload's share of the row. */
  lemma SamePayload(code: int, r: Release, state: State, min: Option<int>, minSupported: int, at: string)
    ensures PayloadOf(code, r.(state := state, minSupported := min), minSupported, at) == PayloadOf(code, r, minSupported, at)
  {
  }

  class Channel {
    const scheme: Ed25519.Scheme
    const codec: Codec
    const hash: seq<byte> -> string
    var rows: map<int, Release>
    var disk: map<int, seq<byte>>
    var cert: Option<string>
    var current: Option<int>
    var manifest: Option<Manifest>
    var minimum: Option<int>
    var stopped: bool
    /** Every code ever published, and the seed and time of the last signature. */
    ghost var history: seq<int>
    ghost var seed: seq<byte>
    ghost var at: string

    function MinNow(): int
      reads this
    {
      if minimum.Some? then minimum.value else 0
    }

    /** The stored manifest is the signed one of the current release. */
    ghost predicate Vouched()
      reads this
    {
      current.Some? ==>
        && current.value in rows && |seed| == 32
        && var m := Signed(scheme, codec, seed, PayloadOf(current.value, rows[current.value], MinNow(), at)); m.Ok? && manifest == Some(m.value)
    }

    ghost predicate Valid()
      reads this
    {
      && RowsAgree(rows, current) && Rising(history) && Vouched()
      && (if current.Some? then history != [] && history[|history| - 1] == current.value && 0 <= MinNow() <= current.value
          else history == [] && manifest == None && minimum == None)
    }

    constructor (scheme: Ed25519.Scheme, codec: Codec, hash: seq<byte> -> string)
      ensures Valid() && rows == map[] && current == None && history == []
    {
      this.scheme, this.codec, this.hash := scheme, codec, hash;
      rows, disk, cert, current, manifest, minimum, stopped, history, seed, at := map[], map[], None, None, None, None, false, [], [], "";
    }

    /** file_ok */
    predicate FileOk(code: int)
      reads this
    {
      code in rows && code in disk && |disk[code]| == rows[code].size && hash(disk[code]) == rows[code].sha
    }

    predicate Highest(code: int)
      reads this
    {
      forall v :: v in rows ==> v < code
    }

    /** pin: the certificate is part of the trust anchor, and never changed once it is pinned. The fingerprint comes lower-cased
        and without colons. */
    method Pin(fingerprint: string) returns (r: Result<string, Error>)
      requires Valid()
      modifies this`cert
      ensures Valid()
      ensures r.Ok? <==> IsFingerprint(fingerprint) && (old(cert) == None || old(cert) == Some("") || old(cert) == Some(fingerprint))
      ensures cert == if r.Ok? then Some(fingerprint) else old(cert)
    {
      hide Signed, PayloadOf;
      if !IsFingerprint(fingerprint) {
        return Err(BadFingerprint);
      }
      if cert.Some? && cert.value != "" && cert.value != fingerprint {
        return Err(AlreadyPinned);
      }
      cert := Some(fingerprint);
      return Ok(fingerprint);
    }

    /** add: copies the file, then records it; the process may stop in between. */
    method Add(file: Option<seq<byte>>, notes: string, apk: Option<Apk>) returns (r: Result<int, Error>)
      requires Valid() && (apk.Some? ==> apk.value.code >= 0)
      modifies this`rows, this`disk
      ensures Valid()
      ensures r.Ok? || r.error == Interrupted <==>
                && cert.Some? && cert.value != "" && 1 <= |notes| <= 600 && file.Some? && |file.value| <= 83886080
                && apk.Some? && apk.value.package == "home.minis.portal" && cert.value in apk.value.certs
                && (forall x :: x in apk.value.certs ==> x == cert.value) && forall v :: v in old(rows) ==> v < apk.value.code
      ensures r.Ok? ==> cert.Some? && 1 <= |notes| <= 600 && file.Some? && |file.value| <= MAX_APK && apk.Some?
      ensures r.Ok? ==> apk.value.package == APP_ID && apk.value.certs != [] && forall x :: x in apk.value.certs ==> x == cert.value
      ensures r.Ok? ==> (forall v :: v in old(rows) ==> v < apk.value.code) && r.value == apk.value.code && FileOk(r.value)
      ensures r.Ok? ==> rows == old(rows)[r.value := Release(apk.value.name, |file.value|, hash(file.value), cert.value, notes, Pending, None)]
      ensures r.Err? ==> rows == old(rows)
      ensures forall v :: v in old(rows) ==> (v in disk <==> v in old(disk)) && (v in disk ==> disk[v] == old(disk)[v])
    {
      hide Signed, PayloadOf;
      if !cert.Some? || cert.value == "" {
        return Err(NotPinned);
      }
      if !(1 <= |notes| <= 600) {
        return Err(BadNotes);
      }
      if !file.Some? {
        return Err(NoFile);
      }
      if |file.value| > MAX_APK {
        return Err(TooLarge);
      }
      if !apk.Some? {
        return Err(BadApk);
      }
      if apk.value.package != APP_ID {
        return Err(WrongApp);
      }
      if !(cert.value in apk.value.certs && forall x, y :: x in apk.value.certs && y in apk.value.certs ==> x == y) {
        return Err(WrongCertificate);
      }
      if !Highest(apk.value.code) {
        return Err(NotHigher);
      }
      disk := disk[apk.value.code := file.value];
      var stops: bool := *;
      if stops {
        return Err(Interrupted);
      }
      rows := rows[apk.value.code := Release(apk.value.name, |file.value|, hash(file.value), cert.value, notes, Pending, None)];
      return Ok(apk.value.code);
    }

    /** The transaction of publish. */
    method Commit(code: int, mn: int, m: Manifest, ghost key: seq<byte>, ghost now: string)
      requires Valid() && code in rows && rows[code].state == Pending && (current.Some? ==> code > current.value)
      requires MinNow() <= mn && 0 <= mn <= code && |key| == 32
      requires Signed(scheme, codec, key, PayloadOf(code, rows[code], mn, now)) == Ok(m)
      modifies this`rows, this`current, this`manifest, this`minimum, this`stopped, this`history, this`seed, this`at
      ensures Valid() && current == Some(code) && manifest == Some(m) && minimum == Some(mn) && !stopped && history == old(history) + [code]
      ensures seed == key && at == now
      ensures rows == map v | v in old(rows) ::
                        if v == code then old(rows)[v].(state := Published, minSupported := Some(mn))
                        else if old(rows)[v].state == Published then old(rows)[v].(state := Superseded) else old(rows)[v]
    {
      hide Signed, PayloadOf, RowsAgree, Rising;
      var row := rows[code].(state := Published, minSupported := Some(mn));
      PublishedRows(rows, current, code, row);
      SamePayload(code, rows[code], Published, Some(mn), mn, now);
      RisingStep(history, code);
      rows := Superseding(rows)[code := row];
      current, manifest, minimum, stopped := Some(code), Some(m), Some(mn), false;
      history, seed, at := history + [code], key, now;
    }

    /** publish: the key file may be missing or malformed. */
    method Publish(code: int, minSupported: Option<int>, key: Option<seq<byte>>, now: string) returns (r: Result<Manifest, Error>)
      requires Valid()
      modifies this`rows, this`current, this`manifest, this`minimum, this`stopped, this`history, this`seed, this`at
      ensures Valid()
      ensures r.Ok? <==>
                && code in old(rows) && old(rows)[code].state == Pending && (old(current).Some? ==> code > old(current).value)
                && code in disk && |disk[code]| == old(rows)[code].size && hash(disk[code]) == old(rows)[code].sha
                && (minSupported.Some? ==> old(MinNow()) <= minSupported.value <= code && 0 <= minSupported.value)
                && key.Some? && |key.value| == 32
      ensures r.Err? ==> rows == old(rows) && current == old(current) && manifest == old(manifest) && MinNow() == old(MinNow())
      ensures r.Err? ==> stopped == old(stopped) && history == old(history)
      ensures r.Ok? ==> rows == map v | v in old(rows) ::
                          if v == code then old(rows)[v].(state := Published, minSupported := Some(MinNow()))
                          else if old(rows)[v].state == Published then old(rows)[v].(state := Superseded) else old(rows)[v]
      ensures r.Ok? ==> current == Some(code) && manifest == Some(r.value) && !stopped && history == old(history) + [code]
      ensures r.Ok? ==> MinNow() == (if minSupported.Some? then minSupported.value else old(MinNow())) && seed == key.value && at == now
      ensures rows.Keys == old(rows).Keys
    {
      hide Signed, PayloadOf, RowsAgree, Rising;
      if code !in rows {
        return Err(NotFound);
      }
      if rows[code].state != Pending {
        return Err(NotPending);
      }
      if current.Some? && code <= current.value {
        return Err(NotHigher);
      }
      if !FileOk(code) {
        return Err(FileMismatch);
      }
      var mn := MinNow();
      if minSupported.Some? {
        if !(0 <= minSupported.value <= code) || minSupported.value < mn {
          return Err(BadMin);
        }
        mn := minSupported.value;
      }
      if !key.Some? || |key.value| != 32 {
        return Err(NoKey);
      }
      CodesPositive(rows, current, code);
      SignedOk(scheme, codec, key.value, PayloadOf(code, rows[code], mn, now));
      var m := Signed(scheme, codec, key.value, PayloadOf(code, rows[code], mn, now));
      Commit(code, mn, m.value, key.value, now);
      return Ok(m.value);
    }

    /** stop: the kill switch; nothing goes back to an older release. */
    method Stop()
      requires Valid()
      modifies this`stopped
      ensures Valid() && stopped
    {
      hide Signed, PayloadOf;
      stopped := true;
    }

    method Resume() returns (r: Result<(), Error>)
      requires Valid()
      modifies this`stopped
      ensures Valid() && (r.Ok? <==> current.Some?) && (if r.Ok? then !stopped else stopped == old(stopped))
    {
      hide Signed, PayloadOf;
      if !current.Some? {
        return Err(NothingPublished);
      }
      stopped := false;
      return Ok(());
    }

    /** current_manifest: what phones see passes their own check and names the current release. */
    method CurrentManifest(ghost b: Affine, ghost keys: seq<seq<byte>>) returns (m: Option<Manifest>)
      requires Valid()
      requires Ed25519.Sound(scheme, b) && RoundTrip(codec)
      requires current.Some? ==> Ed25519.PublicKey(scheme, seed).Ok? && Ed25519.PublicKey(scheme, seed).value in keys
      ensures m.Some? <==> current.Some? && !stopped
      ensures m.Some? ==> m.value.schema == 1 && m.value.keyId == "k1"
      ensures m.Some? ==>
                var row := rows[current.value];
                VerifyManifest(scheme, codec, m.value, keys)
                == Ok(Payload(1, "home.minis.portal", "k1", row.name, current.value, MinNow(), row.sha, row.size, row.cert, row.notes, at))
    {
      hide Signed, VerifyManifest, Ed25519.Sound, Ed25519.PublicKey;
      if stopped {
        return None;
      }
      if current.Some? {
        SignedForm(scheme, codec, seed, PayloadOf(current.value, rows[current.value], MinNow(), at));
        SignedPasses(scheme, b, codec, seed, PayloadOf(current.value, rows[current.value], MinNow(), at), keys);
      }
      return manifest;
    }

    /** served_file: only the file of the current release, and only while it still has the recorded hash. */
    method ServedFile(code: int) returns (file: Option<seq<byte>>)
      requires Valid()
      ensures file.Some? <==>
                && !stopped && current == Some(code)
                && code in rows && code in disk && |disk[code]| == rows[code].size && hash(disk[code]) == rows[code].sha
      ensures file.Some? ==> rows[code].state == Published && hash(file.value) == rows[code].sha && |file.value| == rows[code].size
    {
      if stopped || current != Some(code) || !FileOk(code) {
        return None;
      }
      return Some(disk[code]);
    }

    /** Any one call, or files changing on the disk under the gateway's feet. */
    method AnyCall()
      requires Valid()
      modifies this
      ensures Valid() && old(history) <= history
      ensures MinNow() >= old(MinNow()) && (old(current).Some? ==> current.Some? && current.value >= old(current).value)
      ensures old(rows).Keys <= rows.Keys && (old(cert).Some? && old(cert).value != "" ==> cert == old(cert))
    {
      hide Signed, PayloadOf;
      var which: int := *;
      var file, text, apk := SomeFile();
      if which == 0 {
        var r := Add(file, text, apk);
      } else if which == 1 {
        var code: int, min: Option<int> := *, *;
        var r := Publish(code, min, file, text);
      } else if which == 2 {
        Stop();
      } else if which == 3 {
        var r := Resume();
      } else if which == 4 {
        var r := Pin(text);
      } else {
        disk := *;
      }
    }

    /** Any number of calls in any order. */
    method Run(calls: nat)
      requires Valid()
      modifies this
      ensures Valid() && old(history) <= history
      ensures MinNow() >= old(MinNow()) && (old(current).Some? ==> current.Some? && current.value >= old(current).value)
      ensures old(rows).Keys <= rows.Keys && (old(cert).Some? && old(cert).value != "" ==> cert == old(cert))
    {
      hide Signed, PayloadOf, RowsAgree, Rising;
      for i := 0 to calls
        invariant Valid() && old(history) <= history && old(rows).Keys <= rows.Keys
        invariant old(cert).Some? && old(cert).value != "" ==> cert == old(cert)
        invariant MinNow() >= old(MinNow()) && (old(current).Some? ==> current.Some? && current.value >= old(current).value)
      {
        AnyCall();
      }
    }
  }

  /** Any file, text and APK contents. */
  method SomeFile() returns (file: Option<seq<byte>>, notes: string, apk: Option<Apk>)
    ensures apk.Some? ==> apk.value.code >= 0
  {
    file, notes, apk := *, *, *;
    if apk.Some? && apk.value.code < 0 {
      apk := None;
    }
  }
}
