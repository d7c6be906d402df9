/** The cutover of the children's DNS policy from text files to the schedule service's snapshot, which rolls itself back
    (adguard/child-cutover.py, childsnapshot.py). Every file, service and AdGuard operation may fail. */
module ChildCutover {
  import opened Wrappers
  import opened ChildPolicy
  import opened ChildRules

  type File = seq<string>

  datatype Mode = Files | Snapshot

  // ---- source.conf ----

  predicate Space(c: char) {
    c == ' ' || c == '\t'
  }

  function Strip(s: string): string {
    if s != "" && Space(s[0]) then Strip(s[1..])
    else if s != "" && Space(s[|s| - 1]) then Strip(s[..|s| - 1])
    else s
  }

  function BeforeHash(s: string): string {
    if s == "" || s[0] == '#' then "" else [s[0]] + BeforeHash(s[1..])
  }

  /** mode: the first line that is not empty or a comment, when it says files or snapshot. */
  function ModeOf(file: File): Mode {
    if file == [] then Files
    else
      var line := Strip(BeforeHash(file[0]));
      if line == "" then ModeOf(file[1..]) else if line == "snapshot" then Snapshot else Files
  }

  /** The line without its comment, and without the space around it. */
  ghost predicate Says(line: string, word: string) {
    exists front, back, comment :: SaysAs(line, word, front, back, comment)
  }

  ghost predicate SaysAs(line: string, word: string, front: string, back: string, comment: string) {
    && line == front + word + back + comment && '#' !in front + word + back && (comment == "" || comment[0] == '#')
    && (forall c :: c in front + back ==> Space(c)) && (word != "" ==> !Space(word[0]) && !Space(word[|word| - 1]))
  }

  lemma {:induction false} StripExactly(s: string) returns (front: string, back: string)
    ensures s == front + Strip(s) + back && forall c :: c in front + back ==> Space(c)
    ensures Strip(s) != "" ==> !Space(Strip(s)[0]) && !Space(Strip(s)[|Strip(s)| - 1])
  {
    front, back := "", "";
    if s != "" && Space(s[0]) {
      front, back := StripExactly(s[1..]);
      front := [s[0]] + front;
    } else if s != "" && Space(s[|s| - 1]) {
      front, back := StripExactly(s[..|s| - 1]);
      back := back + [s[|s| - 1]];
    }
  }

  lemma {:induction false} BeforeExactly(s: string)
    ensures var b := BeforeHash(s);
            b <= s && '#' !in b && (b == s || s[|b|] == '#')
  {
    if s != "" && s[0] != '#' {
      BeforeExactly(s[1..]);
    }
  }

  lemma LineSays(line: string)
    ensures Says(line, Strip(BeforeHash(line)))
  {
    var b := BeforeHash(line);
    BeforeExactly(line);
    var front, back := StripExactly(b);
    assert line == b + line[|b|..];
    assert SaysAs(line, Strip(b), front, back, line[|b|..]);
  }

  /** The first line that says anything but nothing decides: "snapshot" is one mode, everything else the other. */
  lemma {:induction false} ModeExactly(file: File)
    ensures ModeOf(file) == Snapshot <==> exists i :: 0 <= i < |file| && Deciding(file, i, "snapshot")
  {
    if file != [] {
      hide Says;
      var word := Strip(BeforeHash(file[0]));
      LineSays(file[0]);
      ModeExactly(file[1..]);
      SaysOnce(file[0]);
      if i :| 0 <= i < |file[1..]| && Deciding(file[1..], i, "snapshot") && word == "" {
        assert Deciding(file, i + 1, "snapshot") by {
          forall j | 0 <= j < i + 1
            ensures Says(file[j], "")
          {
            assert j > 0 ==> file[j] == file[1..][j - 1];
          }
        }
      }
      if word == "snapshot" {
        assert Deciding(file, 0, "snapshot");
      }
      if i :| 0 <= i < |file| && Deciding(file, i, "snapshot") && i > 0 {
        assert Says(file[0], "");
        assert Deciding(file[1..], i - 1, "snapshot");
      }
    }
  }

  ghost predicate Deciding(file: File, i: int, word: string) {
    0 <= i < |file| && Says(file[i], word) && forall j :: 0 <= j < i ==> Says(file[j], "")
  }

  /** A line says one word only. */
  lemma SaysOnce(line: string)
    ensures forall word :: Says(line, word) ==> word == Strip(BeforeHash(line))
  {
    forall word | Says(line, word)
      ensures word == Strip(BeforeHash(line))
    {
      var front, back, comment :| SaysAs(line, word, front, back, comment);
      HashCut(front + word + back, comment);
      StripCut(front, word, back);
    }
  }

  lemma {:induction false} HashCut(s: string, comment: string)
    requires '#' !in s && (comment == "" || comment[0] == '#')
    ensures BeforeHash(s + comment) == s
  {
    if s != "" {
      assert s[0] in s && (s + comment)[1..] == s[1..] + comment;
      HashCut(s[1..], comment);
    } else {
      assert s + comment == comment;
    }
  }

  lemma {:induction false} StripCut(front: string, word: string, back: string)
    requires (forall c :: c in front + back ==> Space(c)) && (word != "" ==> !Space(word[0]) && !Space(word[|word| - 1]))
    ensures Strip(front + word + back) == word
    decreases |front| + |back|
  {
    var s := front + word + back;
    if front != "" {
      assert front[0] in front + back && s[0] == front[0] && s[1..] == front[1..] + word + back;
      StripCut(front[1..], word, back);
    } else if back != "" {
      var n := |back| - 1;
      assert back[n] in front + back && s[|s| - 1] == back[n];
      if word == "" {
        assert back[0] in front + back && s[0] == back[0] && s[1..] == front + word + back[1..];
        StripCut(front, word, back[1..]);
      } else {
        assert s[0] == word[0] && s[..|s| - 1] == front + word + back[..n];
        StripCut(front, word, back[..n]);
      }
    } else {
      assert s == word;
    }
  }

  const SOURCE := "source.conf"
  const FILES := ["allow-always.txt", "allow-weekdays.txt", "allow-extra.txt", "deny-extra.txt", "clients.conf", SOURCE]
  const CHECK_NAMES := ["youtube.com", "www.youtube.com", "roblox.com", "maps.google.com", "api.telegram.org", "t.me",
                        "never-allowed.example.net", "www.google.com"]

  function ModeIn(files: map<string, File>): Mode {
    if SOURCE in files then ModeOf(files[SOURCE]) else Files
  }

  function SwitchedFile(note: string): File {
    ["#" + note, "snapshot"]
  }

  lemma SwitchedSaysSnapshot(note: string)
    ensures ModeOf(SwitchedFile(note)) == Snapshot
  {
    var f := SwitchedFile(note);
    assert BeforeHash(f[0]) == "";
    var s := "snapshot";
    assert BeforeHash(s) == s by {
      HashFree(s);
    }
    assert !Space(s[0]) && !Space(s[7]);
    assert ModeOf(f) == ModeOf(f[1..]);
  }

  lemma {:induction false} HashFree(s: string)
    requires '#' !in s
    ensures BeforeHash(s) == s
  {
    if s != "" {
      assert s[0] in s;
      HashFree(s[1..]);
    }
  }

  // ---- what is not modelled is a function ----

  /** What the files render to at a moment (None when they cannot be read), the clients they list, AdGuard's answer to
      check_host, and the hash of a block. */
  datatype World = World(render: (map<string, File>, Option<File>, Moment) -> Option<Rules>, clients: map<string, File> -> Option<seq<string>>,
                         answer: (Rules, string, string) -> string, hash: Rules -> string)

  datatype Status = Status(ok: bool, source: Mode, hash: string)

  type Answers = map<(string, string), string>

  /** The answers for every client and every name of the fixed list. */
  function AnswersFor(w: World, rules: Rules, clients: seq<string>): Answers {
    map c, n | c in clients && n in CHECK_NAMES :: (c, n) := w.answer(rules, c, n)
  }

  datatype Outcome =
    | Refused            // exit 2 or 1 before anything was changed
    | Crashed            // an exception before the point of no return
    | Switched           // exit 0
    | RolledBack         // exit 1 after a rollback that ended well
    | RollbackFailed     // exit 1, or an exception, in the rollback

  /** The bundle: the files and the overrides that were there. */
  datatype Bundle = Bundle(files: map<string, File>, overrides: Option<File>)

  /** A job run that raised nothing: the rules are merged with the block of the source in use; the status is written, or -
      as a failure to write it is swallowed - is the one from before. */
  ghost predicate Ran(w: World, files: map<string, File>, overrides: Option<File>, now: Moment, before: Rules, was: Option<Status>,
                      rules: Rules, status: Option<Status>, rendered: Rules, wrote: bool) {
    && IsBlock(rendered) && rules == Merged(before, rendered)
    && (ModeIn(files) == Files ==> w.render(files, overrides, now) == Some(rendered))
    && status == if wrote then Some(Status(true, ModeIn(files), w.hash(rendered))) else was
  }

  /** In mode files there is something to render; the service's snapshot is asked for. */
  predicate Renders(w: World, files: map<string, File>, overrides: Option<File>, now: Moment) {
    ModeIn(files) == Snapshot || (w.render(files, overrides, now).Some? && IsBlock(w.render(files, overrides, now).value))
  }

  function Only(files: map<string, File>, names: seq<string>): map<string, File> {
    map f | f in files && f in names :: files[f]
  }

  lemma OnlyStep(from: map<string, File>, to: map<string, File>, names: seq<string>, f: string)
    ensures to + Only(from, names + [f]) == if f in from then (to + Only(from, names))[f := from[f]] else to + Only(from, names)
  {
  }

  lemma OnlyAgain(files: map<string, File>, names: seq<string>)
    ensures Only(Only(files, names), names) == Only(files, names)
  {
  }

  class Host {
    const world: World
    var files: map<string, File>
    var overrides: Option<File>
    var rules: Rules
    var status: Option<Status>
    var flag: bool
    var mismatches: nat
    /** The block the last job run rendered, and whether it wrote its status. */
    ghost var rendered: Rules
    ghost var wrote: bool
    /** How many calls to the world failed: reading or writing a file, the service, AdGuard. */
    ghost var faults: nat

    constructor (world: World, files: map<string, File>, overrides: Option<File>, rules: Rules)
      ensures this.world == world && this.files == files && this.overrides == overrides && this.rules == rules
    {
      this.world, this.files, this.overrides, this.rules := world, files, overrides, rules;
      status, flag, mismatches, rendered, wrote, faults := None, false, 0, [], false, 0;
    }

    /** childpolicy.run: renders from the source that source.conf names, merges, writes the status as best it can. */
    method RunJob(now: Moment) returns (ok: bool)
      modifies this`rules, this`status, this`mismatches, this`rendered, this`wrote, this`faults
      ensures faults >= old(faults) && (faults == old(faults) ==> (ok <==> Renders(world, files, overrides, now)) && (ok ==> wrote))
      ensures ModeIn(files) == Snapshot ==> mismatches == old(mismatches)
      ensures ok ==> Ran(world, files, overrides, now, old(rules), old(status), rules, status, rendered, wrote)
      ensures !ok ==> rules == old(rules) || exists b :: IsBlock(b) && rules == Merged(old(rules), b)
    {
      var mode := ModeIn(files);
      var block: Option<Rules>;
      if mode == Files {
        block := world.render(files, overrides, now);
        var differs: bool := *;
        mismatches := mismatches + if differs then 1 else 0;
      } else {
        block := *;                                    // what the service's snapshot renders to
        if !block.Some? || !IsBlock(block.value) {
          faults := faults + 1;
        }
      }
      if !block.Some? || !IsBlock(block.value) {
        status := *;
        return false;
      }
      rendered, wrote := block.value, false;
      var merged := MergeRules(rules, block.value);
      var reached, carriedOut, written: bool := *, *, *;
      if carriedOut || reached {
        rules := merged;
      }
      if !reached || !written {
        faults := faults + 1;
      }
      if !reached {
        return false;
      }
      if written {
        wrote, status := true, Some(Status(true, mode, world.hash(block.value)));
      }
      return true;
    }

    /** child_answers: the clients come from the source in use. */
    method ChildAnswers() returns (a: Option<Answers>, ghost clients: seq<string>)
      modifies this`faults
      ensures faults >= old(faults) && (faults == old(faults) ==> a.Some? || (ModeIn(files) == Files && world.clients(files).None?))
      ensures a.Some? ==> a.value == AnswersFor(world, rules, clients)
      ensures a.Some? && ModeIn(files) == Files ==> world.clients(files) == Some(clients)
    {
      var reached: bool := *;
      var cs: Option<seq<string>> := *;
      if ModeIn(files) == Files {
        cs := world.clients(files);
      }
      if !reached || (!cs.Some? && ModeIn(files) == Snapshot) {
        faults := faults + 1;
      }
      if !reached || !cs.Some? {
        return None, [];
      }
      return Some(AnswersFor(world, rules, cs.value)), cs.value;
    }

    /** The loop over FILES, of make_bundle and of rollback. */
    method CopyFiles(from: map<string, File>, to: map<string, File>) returns (ok: bool, copied: map<string, File>)
      modifies this`faults
      ensures faults == old(faults) + if ok then 0 else 1
      ensures ok ==> copied == to + Only(from, FILES)
      ensures SOURCE !in from && SOURCE in to ==> SOURCE in copied && copied[SOURCE] == to[SOURCE]
    {
      copied, ok := to, true;
      for i := 0 to |FILES|
        invariant copied == to + Only(from, FILES[..i]) && faults == old(faults)
        invariant SOURCE !in from && SOURCE in to ==> SOURCE in copied && copied[SOURCE] == to[SOURCE]
      {
        OnlyStep(from, to, FILES[..i], FILES[i]);
        assert FILES[..i + 1] == FILES[..i] + [FILES[i]];
        if FILES[i] in from {
          var fails: bool := *;
          if fails {
            faults := faults + 1;
            return false, copied;
          }
          copied := copied[FILES[i] := from[FILES[i]]];
        }
      }
      assert FILES[..|FILES|] == FILES;
    }

    /** make_bundle */
    method MakeBundle() returns (b: Option<Bundle>)
      modifies this`faults
      ensures faults >= old(faults) && (b.None? <==> faults > old(faults))
      ensures b.Some? ==> b.value == Bundle(Only(files, FILES), overrides)
    {
      var ok, copied := CopyFiles(files, map[]);
      assert map[] + Only(files, FILES) == Only(files, FILES);
      return if ok then Some(Bundle(copied, overrides)) else None;
    }

    /** PUT of the cutover flag. */
    method PutFlag(done: bool) returns (ok: bool)
      modifies this`flag, this`faults
      ensures faults == old(faults) + if ok then 0 else 1
      ensures flag == old(flag) || flag == done
      ensures ok ==> flag == done
    {
      var carriedOut: bool := *;
      ok := *;
      if carriedOut || ok {
        flag := done;
      }
      if !ok {
        faults := faults + 1;
      }
    }

    /** rollback with a bundle: its files come back, others stay as they are. */
    method Rollback(b: Bundle, now: Moment) returns (ok: bool)
      requires Only(b.files, FILES) == b.files
      modifies this
      ensures ok ==> files == old(files) + b.files
      ensures ok ==> overrides == if b.overrides.Some? then b.overrides else old(overrides)
      ensures ok ==> IsBlock(rendered) && rules == Merged(old(rules), rendered)
      ensures ok && ModeIn(files) == Files ==> world.render(files, overrides, now) == Some(rendered)
      ensures SOURCE !in b.files && SOURCE in old(files) ==> SOURCE in files && files[SOURCE] == old(files)[SOURCE]
      ensures faults >= old(faults) && (faults == old(faults) ==> files == old(files) + b.files)
      ensures faults == old(faults) ==> overrides == if b.overrides.Some? then b.overrides else old(overrides)
      ensures faults == old(faults) ==> (ok <==> ModeIn(files) == Files && Renders(world, files, overrides, now)) && (ok ==> !flag)
      ensures ok && wrote ==> ModeIn(files) == Files && status == Some(Status(true, Files, world.hash(rendered)))
    {
      var done, copied := CopyFiles(b.files, files);
      if !done {
        files := copied;
        return false;
      }
      files := copied;
      if b.overrides.Some? {
        var fails: bool := *;
        if fails {
          faults := faults + 1;
          return false;
        }
        overrides := b.overrides;
      }
      var cleared := PutFlag(false);                 // a refusal is only reported
      ok := RunJob(now);
      if ok {
        ok := status.Some? && status.value.ok && status.value.source == Files;
      }
    }

    /** preflight, of which the switch needs that source.conf says files; the other conditions are unseen state. */
    method Preflight() returns (ok: bool)
      ensures ok ==> ModeIn(files) == Files && status.Some? && status.value.ok && status.value.source == Files
    {
      var others: bool := *;
      ok := ModeIn(files) == Files && others && status.Some? && status.value.ok && status.value.source == Files;
    }

    /** The try block of cutover, after the point of no return. */
    method Switch(note: string, now: Moment, hash: string, before: Answers) returns (ok: bool, ghost switched: bool, ghost clients: seq<string>)
      requires ModeIn(files) == Files
      modifies this`flag, this`files, this`rules, this`status, this`mismatches, this`rendered, this`wrote, this`faults
      ensures faults >= old(faults)
      ensures faults == old(faults) ==> switched && flag && wrote && IsBlock(rendered) && rules == Merged(old(rules), rendered)
      ensures faults == old(faults) ==> (ok <==> world.hash(rendered) == hash && AnswersFor(world, rules, clients) == before)
      ensures switched ==> files == old(files)[SOURCE := SwitchedFile(note)]
      ensures !switched ==> files == old(files)
      ensures ok ==> switched && flag && ModeIn(files) == Snapshot && mismatches == old(mismatches)
      ensures ok ==> status == Some(Status(true, Snapshot, hash)) && AnswersFor(world, rules, clients) == before
      ensures ok && wrote ==> IsBlock(rendered) && rules == Merged(old(rules), rendered) && world.hash(rendered) == hash
      ensures !ok ==> rules == old(rules) || exists block :: IsBlock(block) && rules == Merged(old(rules), block)
      ensures ok && (old(status).Some? ==> old(status).value.source == Files) ==> wrote
    {
      switched, clients := false, [];
      ok := PutFlag(true);
      if !ok {
        return;
      }
      ok := *;
      if !ok {
        faults := faults + 1;
        return;
      }
      files, switched := files[SOURCE := SwitchedFile(note)], true;
      SwitchedSaysSnapshot(note);
      ok := RunJob(now);
      if !ok {
        return;
      }
      ok := status.Some? && status.value.ok && status.value.source == Snapshot && status.value.hash == hash;
      if !ok {
        return;
      }
      var after;
      after, clients := ChildAnswers();
      ok := after.Some? && after.value == before;
    }

    /** cutover up to the point of no return: a fresh pass from the files, its hash and the answers it gives. */
    method Refer(now: Moment) returns (r: Option<(string, Answers)>, crashed: bool, ghost ref: Reference)
      requires ModeIn(files) == Files && status.Some? && status.value.source == Files
      modifies this`rules, this`status, this`mismatches, this`rendered, this`wrote, this`faults
      ensures faults >= old(faults)
      ensures crashed && faults == old(faults) ==> !Renders(world, files, overrides, now) || world.clients(files).None?
      ensures r.Some? ==> status.Some? && status.value.source == Files
      ensures r.Some? ==> IsReference(world, files, overrides, now, old(rules), ref) && rules == ref.rules
      ensures r.Some? ==> r.value.1 == AnswersFor(world, ref.rules, ref.clients) && (ref.sure ==> r.value.0 == world.hash(ref.block))
      ensures (r.Some? ==> mismatches == 0) && (r.None? && !crashed ==> mismatches != 0)
      ensures r.Some? && !ref.sure ==> old(status).Some? && r.value.0 == old(status).value.hash
    {
      var ran := RunJob(now);
      if !ran || !status.Some? {
        return None, true, Reference([], [], [], false);
      }
      var hash := status.value.hash;
      var before;
      ghost var clients;
      before, clients := ChildAnswers();
      if !before.Some? {
        return None, true, Reference([], [], [], false);
      }
      if mismatches != 0 {
        return None, false, Reference([], [], [], false);
      }
      return Some((hash, before.value)), false, Reference(rendered, rules, clients, wrote);
    }

    /** The rollback after a failed switch: with source.conf in the bundle everything is back. */
    method Undo(b: Bundle, note: string, now: Moment, ghost f0: map<string, File>, ghost r0: Rules, ghost ref: Reference) returns (ok: bool)
      requires b == Bundle(Only(f0, FILES), overrides) && (files == f0 || files == f0[SOURCE := SwitchedFile(note)])
      requires ModeIn(f0) == Files && IsReference(world, f0, overrides, now, r0, ref)
      requires rules == ref.rules || exists block :: IsBlock(block) && rules == Merged(ref.rules, block)
      modifies this
      ensures ok && (SOURCE in f0 || old(files) == f0) ==> files == f0 && ModeIn(files) == Files && overrides == old(overrides) && rules == ref.rules
      ensures SOURCE !in f0 && old(files) != f0 ==> ModeIn(files) == Snapshot
      ensures faults >= old(faults) && (faults == old(faults) ==> (ok <==> SOURCE in f0 || old(files) == f0))
    {
      hide Merged, IsBlock, ModeOf;
      OnlyAgain(f0, FILES);
      FilesBack(f0, note);
      SwitchedSaysSnapshot(note);
      ok := Rollback(b, now);
      if ok && ModeIn(files) == Files {
        BackToReference(r0, ref.block, old(rules));
      }
    }

    /** cutover */
    method Cutover(go: bool, note: string, now: Moment) returns (r: Outcome, ghost switched: bool, ghost ref: Reference)
      modifies this
      ensures r == Refused || r == Crashed ==> files == old(files) && overrides == old(overrides) && flag == old(flag)
      ensures r == Switched || r == RolledBack ==> IsReference(world, old(files), old(overrides), now, old(rules), ref)
      ensures r == Switched ==> files == old(files)[SOURCE := SwitchedFile(note)] && ModeIn(files) == Snapshot && flag
      ensures r == Switched ==> SameAnswers(world, rules, ref) && IsBlock(rendered) && rules == Merged(ref.rules, rendered)
      ensures r == Switched ==> (world.hash(rendered) == world.hash(ref.block) <==>
                                   ref.sure || (old(status).Some? && old(status).value.hash == world.hash(ref.block)))
      ensures r == Switched ==> mismatches == 0
      ensures r == Switched && ref.sure ==> SameBlock(world, rules, ref, rendered)
      ensures r == RolledBack && (SOURCE in old(files) || !switched) ==> files == old(files) && ModeIn(files) == Files
      ensures r == RolledBack && (SOURCE in old(files) || !switched) ==> overrides == old(overrides) && rules == ref.rules
      ensures (r == RolledBack || r == RollbackFailed) && SOURCE !in old(files) && switched ==> ModeIn(files) == Snapshot
      ensures faults >= old(faults)
      ensures r == Crashed && faults == old(faults) ==> !Renders(world, files, overrides, now) || world.clients(files).None?
      ensures r == RollbackFailed && faults == old(faults) ==> SOURCE !in old(files)
    {
      hide IsReference, ModeOf, Merged, IsBlock, AnswersFor, Renders;
      switched, ref := false, Reference([], [], [], false);
      if !go {
        return Refused, switched, ref;
      }
      var clear := Preflight();
      if !clear {
        return Refused, switched, ref;
      }
      var bundle := MakeBundle();
      if !bundle.Some? {
        return Crashed, switched, ref;
      }
      var first, crashed;
      first, crashed, ref := Refer(now);
      if !first.Some? {
        return if crashed then Crashed else Refused, switched, ref;
      }
      var ok;
      ghost var clients;
      ok, switched, clients := Switch(note, now, first.value.0, first.value.1);
      if ok {
        AnswersAgree(world, rules, clients, ref);
        return Switched, switched, ref;
      }
      ok := Undo(bundle.value, note, now, old(files), old(rules), ref);
      r := if ok then RolledBack else RollbackFailed;
    }
  }

  /** What the switch is compared with: the block of a fresh pass, AdGuard's rules after it, the clients asked about, and
      whether that pass wrote its status. */
  datatype Reference = Reference(block: Rules, rules: Rules, clients: seq<string>, sure: bool)

  ghost predicate IsReference(w: World, files: map<string, File>, overrides: Option<File>, now: Moment, before: Rules, ref: Reference) {
    && w.render(files, overrides, now) == Some(ref.block) && IsBlock(ref.block)
    && ref.rules == Merged(before, ref.block) && w.clients(files) == Some(ref.clients)
  }

  /** AdGuard answers as the reference did, for the clients of the reference and every name of the list. */
  ghost predicate SameAnswers(w: World, rules: Rules, ref: Reference) {
    forall c, n :: c in ref.clients && n in CHECK_NAMES ==> w.answer(rules, c, n) == w.answer(ref.rules, c, n)
  }

  /** The rules are the hand-written ones with a block of the same hash; with an injective hash they are the reference. */
  ghost predicate SameBlock(w: World, rules: Rules, ref: Reference, block: Rules) {
    && IsBlock(block) && rules == Merged(ref.rules, block) && w.hash(block) == w.hash(ref.block)
  }

  lemma AnswersAgree(w: World, rules: Rules, clients: seq<string>, ref: Reference)
    requires AnswersFor(w, rules, clients) == AnswersFor(w, ref.rules, ref.clients)
    ensures SameAnswers(w, rules, ref)
  {
    forall c, n | c in ref.clients && n in CHECK_NAMES
      ensures w.answer(rules, c, n) == w.answer(ref.rules, c, n)
    {
      assert (c, n) in AnswersFor(w, ref.rules, ref.clients);
      assert AnswersFor(w, rules, clients)[(c, n)] == AnswersFor(w, ref.rules, ref.clients)[(c, n)];
    }
  }

  lemma FilesBack(f0: map<string, File>, note: string)
    ensures f0 + Only(f0, FILES) == f0
    ensures SOURCE in f0 ==> f0[SOURCE := SwitchedFile(note)] + Only(f0, FILES) == f0
    ensures SOURCE !in f0 ==> f0[SOURCE := SwitchedFile(note)] + Only(f0, FILES) == f0[SOURCE := SwitchedFile(note)]
  {
    assert SOURCE in FILES by {
      assert FILES[5] == SOURCE;
    }
  }

  lemma BackToReference(before: Rules, block: Rules, now: Rules)
    requires IsBlock(block)
    requires now == Merged(before, block) || exists b :: IsBlock(b) && now == Merged(Merged(before, block), b)
    ensures Merged(now, block) == Merged(before, block)
  {
    hide Merged, IsBlock;
    MergeReplaces(before, block, block);
    if now != Merged(before, block) {
      var b :| IsBlock(b) && now == Merged(Merged(before, block), b);
      MergeReplaces(before, block, b);
      MergeReplaces(before, b, block);
    }
  }

  /** A switch that was certain of its reference leaves AdGuard's rules byte for byte as they were, or the hash of two
      different blocks is the same. */
  lemma SameRules(w: World, files: map<string, File>, overrides: Option<File>, now: Moment, before: Rules, rules: Rules, ref: Reference, block: Rules)
    requires IsReference(w, files, overrides, now, before, ref) && SameBlock(w, rules, ref, block)
    ensures rules == ref.rules || (block != ref.block && w.hash(block) == w.hash(ref.block))
  {
    MergeReplaces(before, ref.block, ref.block);
  }

  // ---- the reference that is not certain ----

  const NEWER := [Begin, CatchAll("a"), Block("x.cz", "a"), End]
  const OLDER := [Begin, CatchAll("a"), End]

  /** A world with one client, whose files now render to the newer block; the two blocks have different hashes. AdGuard
      answers as its rules mean. */
  function TwoBlocks(): World {
    World((files, overrides, now) => Some(NEWER), files => Some(["a"]),
          (rules, client, name) => if Blocked(rules, client, name) then "blocked" else "open",
          block => if block == NEWER then "newer" else "older")
  }

  lemma BothBlock(name: string)
    ensures Blocked(NEWER, "a", name) && Blocked(OLDER, "a", name)
  {
    assert Blocks(CatchAll("a"), "a", name) && NEWER[1] == CatchAll("a") == OLDER[1];
  }

  lemma TwoRuns(now: Moment, note: string)
    ensures Ran(TwoBlocks(), map[], None, now, OLDER, Some(Status(true, Files, "older")), NEWER, Some(Status(true, Files, "older")), NEWER, false)
    ensures Ran(TwoBlocks(), map[SOURCE := SwitchedFile(note)], None, now, NEWER, Some(Status(true, Files, "older")),
                OLDER, Some(Status(true, Snapshot, "older")), OLDER, true)
  {
    assert NEWER[1..3] == [CatchAll("a"), Block("x.cz", "a")] && OLDER[1..2] == [CatchAll("a")];
    assert IsBlock(NEWER) && IsBlock(OLDER);
    KeptBlock([], NEWER, []);
    KeptBlock([], OLDER, []);
    assert [] + NEWER + [] == NEWER && [] + OLDER + [] == OLDER;
    SwitchedSaysSnapshot(note);
  }

  /** A switch that passes every comparison and changes the rules: the status of the fresh files pass could not be written,
      so the hash that is read is the one of an older block, and the snapshot still renders that older block. */
  lemma StaleHash(now: Moment, note: string)
    ensures var w, old', read := TwoBlocks(), Some(Status(true, Files, "older")), Some(Status(true, Snapshot, "older"));
            && Ran(w, map[], None, now, OLDER, old', NEWER, old', NEWER, false)
            && Ran(w, map[SOURCE := SwitchedFile(note)], None, now, NEWER, old', OLDER, read, OLDER, true)
            && read.value.hash == old'.value.hash && AnswersFor(w, OLDER, ["a"]) == AnswersFor(w, NEWER, ["a"])
            && OLDER != NEWER
  {
    TwoRuns(now, note);
    hide Ran, Blocked;
    forall n | n in CHECK_NAMES
      ensures TwoBlocks().answer(OLDER, "a", n) == TwoBlocks().answer(NEWER, "a", n)
    {
      BothBlock(n);
    }
    assert |OLDER| != |NEWER|;
  }
}
