/** The hash-chained audit table (portal/gateway/gw/db.py): appending, verifying, and what a verified table proves. */
module Audit {
  import opened Wrappers

  /** The audited content of a row. before and after are any values the source turns into canonical JSON. */
  datatype Entry = Entry(ts: Option<string>, person: Option<string>, phone: Option<string>, action: string, target: Option<string>,
                         before: string, after: string, ok: bool, ip: Option<string>)

  datatype Row = Row(number: int, entry: Entry, prev: string, hash: string)

  type Table = seq<Row>

  const ZEROS := "0000000000000000000000000000000000000000000000000000000000000000"

  /** canon of the fields, the hash, which gives 64 characters, and which texts are JSON. */
  datatype Chain = Chain(body: Entry -> string, sha: string -> Digest, json: string -> bool)

  type Digest = s: string | |s| == 64 witness ZEROS

  const GENESIS: Digest := ZEROS

  /** The canonical text tells entries apart. Nothing is asked of the hash. */
  ghost predicate Canonical(c: Chain) {
    forall e, f :: c.body(e) == c.body(f) ==> e == f
  }

  function LastHash(t: Table): string {
    if t == [] then GENESIS else t[|t| - 1].hash
  }

  predicate RowOk(c: Chain, prev: string, r: Row) {
    r.prev == prev && r.hash == c.sha(prev + c.body(r.entry))
  }

  /** Row i is chained to the row before it. */
  predicate Linked(c: Chain, t: Table, i: nat)
    requires i < |t|
  {
    RowOk(c, if i == 0 then GENESIS else t[i - 1].hash, t[i])
  }

  predicate Intact(c: Chain, t: Table) {
    forall i :: 0 <= i < |t| ==> Linked(c, t, i)
  }

  /** before and after can be read back; canonical text always can. */
  predicate Readable(c: Chain, e: Entry) {
    c.json(e.before) && c.json(e.after)
  }

  predicate AllReadable(c: Chain, t: Table) {
    forall i :: 0 <= i < |t| ==> Readable(c, t[i].entry)
  }

  predicate RowPasses(c: Chain, t: Table, i: nat)
    requires i < |t|
  {
    Linked(c, t, i) && Readable(c, t[i].entry)
  }

  lemma RowDecides(c: Chain, t: Table, i: nat, prev: string)
    requires i < |t| && prev == if i == 0 then GENESIS else t[i - 1].hash
    ensures RowPasses(c, t, i) <==> Linked(c, t, i) && Readable(c, t[i].entry)
    ensures Linked(c, t, i) <==> t[i].prev == prev && t[i].hash == c.sha(prev + c.body(t[i].entry))
    ensures Readable(c, t[i].entry) <==> c.json(t[i].entry.before) && c.json(t[i].entry.after)
    ensures !RowPasses(c, t, i) ==> !(Intact(c, t) && AllReadable(c, t))
  {
  }

  lemma AllPass(c: Chain, t: Table)
    requires forall i :: 0 <= i < |t| ==> RowPasses(c, t, i)
    ensures Intact(c, t) && AllReadable(c, t)
  {
    forall i | 0 <= i < |t|
      ensures Linked(c, t, i) && Readable(c, t[i].entry)
    {
      assert RowPasses(c, t, i);
    }
  }

  // ---- appending ----

  /** What verify_audit ends with: all rows passed, the first broken row after the rows that passed, or an exception at
      one. */
  datatype Answer = Passed(rows: nat) | Broken(rows: nat, at: int) | Raised(rows: nat)

  class Log {
    const chain: Chain
    var rows: Table

    constructor (chain: Chain)
      ensures rows == [] && this.chain == chain
    {
      this.chain, rows := chain, [];
    }

    /** audit: one row chained to the last one. */
    method Append(e: Entry) returns (id: int)
      requires Intact(chain, rows) && AllReadable(chain, rows) && Readable(chain, e)
      requires forall i :: 0 <= i < |rows| ==> rows[i].number == i + 1
      modifies this
      ensures id == |rows| && rows == old(rows) + [Row(id, e, LastHash(old(rows)), chain.sha(LastHash(old(rows)) + chain.body(e)))]
      ensures Intact(chain, rows) && AllReadable(chain, rows) && forall i :: 0 <= i < |rows| ==> rows[i].number == i + 1
    {
      var prev := if rows == [] then GENESIS else rows[|rows| - 1].hash;
      id := |rows| + 1;
      ghost var before := rows;
      rows := rows + [Row(id, e, prev, chain.sha(prev + chain.body(e)))];
      forall i | 0 <= i < |rows|
        ensures Linked(chain, rows, i)
      {
        assert i < |before| ==> Linked(chain, before, i);
      }
    }

    /** verify_audit. It goes through the rows in order and raises at one whose before or after is not JSON. */
    method Verify() returns (r: Answer)
      ensures r.Passed? <==> Intact(chain, rows) && AllReadable(chain, rows)
      ensures r.Passed? ==> r.rows == |rows|
      ensures !r.Passed? ==> r.rows < |rows| && forall j :: 0 <= j < r.rows ==> RowPasses(chain, rows, j)
      ensures r.Broken? ==> !Linked(chain, rows, r.rows) && Readable(chain, rows[r.rows].entry) && r.at == rows[r.rows].number
      ensures r.Raised? ==> !Readable(chain, rows[r.rows].entry)
    {
      var prev: string := GENESIS;
      var n := 0;
      while n < |rows|
        invariant n <= |rows| && prev == (if n == 0 then GENESIS else rows[n - 1].hash)
        invariant forall j :: 0 <= j < n ==> RowPasses(chain, rows, j)
      {
        hide RowPasses, Linked, Readable, Intact, AllReadable;
        var row := rows[n];
        RowDecides(chain, rows, n, prev);
        if !chain.json(row.entry.before) || !chain.json(row.entry.after) {
          return Raised(n);
        }
        if row.prev != prev || chain.sha(prev + chain.body(row.entry)) != row.hash {
          return Broken(n, row.number);
        }
        prev, n := row.hash, n + 1;
      }
      AllPass(chain, rows);
      return Passed(n);
    }

    /** Every table that audit calls made passes. */
    method Record(entries: seq<Entry>)
      requires rows == [] && forall e :: e in entries ==> Readable(chain, e)
      modifies this
      ensures |rows| == |entries| && forall i :: 0 <= i < |rows| ==> rows[i].entry == entries[i] && rows[i].number == i + 1
      ensures Intact(chain, rows) && AllReadable(chain, rows)
    {
      for k := 0 to |entries|
        invariant |rows| == k && Intact(chain, rows) && AllReadable(chain, rows)
        invariant forall i :: 0 <= i < k ==> rows[i].entry == entries[i] && rows[i].number == i + 1
      {
        var id := Append(entries[k]);
      }
    }
  }

  // ---- what a passing table proves ----

  /** The text that a row's hash is taken of. */
  function Hashed(c: Chain, r: Row): string {
    r.prev + c.body(r.entry)
  }

  /** A collision of the hash, exhibited by two rows. */
  ghost predicate Clash(c: Chain, r: Row, s: Row) {
    Hashed(c, r) != Hashed(c, s) && c.sha(Hashed(c, r)) == c.sha(Hashed(c, s))
  }

  /** Rows at the same place of two tables collide. */
  ghost predicate ClashUpTo(c: Chain, t: Table, u: Table, n: nat)
    requires n <= |t| && n <= |u|
  {
    exists i :: 0 <= i < n && Clash(c, t[i], u[i])
  }

  /** The fields of a row that the chain covers: everything but its number. */
  predicate SameFields(r: Row, s: Row) {
    r.entry == s.entry && r.prev == s.prev && r.hash == s.hash
  }

  predicate SameUpTo(t: Table, u: Table, n: nat)
    requires n <= |t| && n <= |u|
  {
    forall i :: 0 <= i < n ==> SameFields(t[i], u[i])
  }

  /** Two chained rows with the same hash hold the same entry and follow the same hash, or their texts collide. */
  lemma SameRow(c: Chain, p: Digest, q: Digest, r: Row, s: Row)
    requires Canonical(c) && RowOk(c, p, r) && RowOk(c, q, s) && r.hash == s.hash
    ensures SameFields(r, s) || Clash(c, r, s)
  {
    var a, b := Hashed(c, r), Hashed(c, s);
    if a == b {
      assert p == a[..|p|] && q == b[..|q|];
      assert c.body(r.entry) == a[|p|..] && c.body(s.entry) == b[|q|..];
    }
  }

  /** In a passing table every hash a row follows is a digest. */
  lemma LastIsDigest(c: Chain, t: Table)
    requires Intact(c, t)
    ensures |LastHash(t)| == 64
  {
    if t != [] {
      assert Linked(c, t, |t| - 1);
    }
  }

  /** Two tables that pass, the first n rows of which end with the same hash, agree in those rows, or some row of one and
      the row at the same place of the other exhibit a collision of the hash. */
  lemma {:induction false} KnownHashFixesPrefix(c: Chain, t: Table, u: Table, n: nat)
    requires Canonical(c) && Intact(c, t) && Intact(c, u) && n <= |t| && n <= |u| && LastHash(t[..n]) == LastHash(u[..n])
    ensures SameUpTo(t, u, n) || ClashUpTo(c, t, u, n)
  {
    if n > 0 {
      var m := n - 1;
      TruncationPasses(c, t, m);
      TruncationPasses(c, u, m);
      LastIsDigest(c, t[..m]);
      LastIsDigest(c, u[..m]);
      assert Linked(c, t, m) && Linked(c, u, m);
      SameRow(c, LastHash(t[..m]), LastHash(u[..m]), t[m], u[m]);
      if SameFields(t[m], u[m]) {
        KnownHashFixesPrefix(c, t, u, m);
        if ClashUpTo(c, t, u, m) {
          var i :| 0 <= i < m && Clash(c, t[i], u[i]);
          assert ClashUpTo(c, t, u, n);
        }
      }
    }
  }

  /** Rows cut off the end leave a table that passes: truncation is not detected. */
  lemma TruncationPasses(c: Chain, t: Table, n: nat)
    requires Intact(c, t) && n <= |t|
    ensures Intact(c, t[..n])
  {
    forall i | 0 <= i < n
      ensures Linked(c, t[..n], i)
    {
      assert Linked(c, t, i);
    }
  }

  /** Two tables that pass, of the same length and with the same last hash, agree in every covered field of every row, or
      exhibit a collision. */
  lemma SameHistory(c: Chain, t: Table, u: Table)
    requires Canonical(c) && Intact(c, t) && Intact(c, u) && |t| == |u| && LastHash(t) == LastHash(u)
    ensures (forall i :: 0 <= i < |t| ==> SameFields(t[i], u[i])) || exists i :: 0 <= i < |t| && Clash(c, t[i], u[i])
  {
    assert t[..|t|] == t && u[..|u|] == u;
    KnownHashFixesPrefix(c, t, u, |t|);
  }

  /** Whoever changes any covered field of any row, keeping the length, must also change the last hash or find a collision
      - or the table no longer passes. */
  lemma ChangeShows(c: Chain, t: Table, u: Table, i: nat)
    requires Canonical(c) && Intact(c, t) && |t| == |u| && i < |t| && !SameFields(t[i], u[i])
    ensures !Intact(c, u) || LastHash(u) != LastHash(t) || ClashUpTo(c, t, u, |t|)
  {
    if Intact(c, u) && LastHash(u) == LastHash(t) {
      SameHistory(c, t, u);
      assert ClashUpTo(c, t, u, |t|) <==> exists j :: 0 <= j < |t| && Clash(c, t[j], u[j]);
    }
  }

  // ---- the hypothesis can be met ----

  /** A text behind its length in unary: readable from the front. */
  function Framed(s: string): string {
    seq(|s|, i => '1') + "0" + s
  }

  lemma FramedApart(a: string, x: string, b: string, y: string)
    requires Framed(a) + x == Framed(b) + y
    ensures a == b && x == y
  {
    var m, n := Framed(a) + x, Framed(b) + y;
    assert forall i :: 0 <= i < |a| ==> m[i] == '1';
    assert forall i :: 0 <= i < |b| ==> n[i] == '1';
    assert m[|a|] == '0' && n[|b|] == '0';
    assert a == m[|a| + 1..2 * |a| + 1] && b == n[|b| + 1..2 * |b| + 1];
    assert x == m[2 * |a| + 1..] && y == n[2 * |b| + 1..];
  }

  function Maybe(o: Option<string>): string {
    if o.None? then "" else "s" + o.value
  }

  function Plain(e: Entry): string {
    Framed(Maybe(e.ts)) + (Framed(Maybe(e.person)) + (Framed(Maybe(e.phone)) + (Framed(e.action) + (Framed(Maybe(e.target))
      + (Framed(e.before) + (Framed(e.after) + ((if e.ok then "t" else "f") + Maybe(e.ip))))))))
  }

  lemma MaybeApart(a: Option<string>, b: Option<string>)
    requires Maybe(a) == Maybe(b)
    ensures a == b
  {
    if a.Some? && b.Some? {
      assert a.value == Maybe(a)[1..] && b.value == Maybe(b)[1..];
    }
  }

  /** There is a chain that meets the hypothesis, with any hash. */
  lemma CanonicalMet(sha: string -> Digest, json: string -> bool)
    ensures Canonical(Chain(Plain, sha, json))
  {
    forall e: Entry, f: Entry | Plain(e) == Plain(f)
      ensures e == f
    {
      PlainApart(e, f);
    }
  }

  lemma PlainApart(e: Entry, f: Entry)
    requires Plain(e) == Plain(f)
    ensures e == f
  {
    hide Framed, Maybe;
    var e7, f7 := (if e.ok then "t" else "f") + Maybe(e.ip), (if f.ok then "t" else "f") + Maybe(f.ip);
    var e6, f6 := Framed(e.after) + e7, Framed(f.after) + f7;
    var e5, f5 := Framed(e.before) + e6, Framed(f.before) + f6;
    var e4, f4 := Framed(Maybe(e.target)) + e5, Framed(Maybe(f.target)) + f5;
    var e3, f3 := Framed(e.action) + e4, Framed(f.action) + f4;
    var e2, f2 := Framed(Maybe(e.phone)) + e3, Framed(Maybe(f.phone)) + f3;
    var e1, f1 := Framed(Maybe(e.person)) + e2, Framed(Maybe(f.person)) + f2;
    FramedApart(Maybe(e.ts), e1, Maybe(f.ts), f1);
    FramedApart(Maybe(e.person), e2, Maybe(f.person), f2);
    FramedApart(Maybe(e.phone), e3, Maybe(f.phone), f3);
    FramedApart(e.action, e4, f.action, f4);
    FramedApart(Maybe(e.target), e5, Maybe(f.target), f5);
    FramedApart(e.before, e6, f.before, f6);
    FramedApart(e.after, e7, f.after, f7);
    assert e7[0] == f7[0] && e7[1..] == Maybe(e.ip) && f7[1..] == Maybe(f.ip);
    MaybeApart(e.ts, f.ts);
    MaybeApart(e.person, f.person);
    MaybeApart(e.phone, f.phone);
    MaybeApart(e.target, f.target);
    MaybeApart(e.ip, f.ip);
  }
}
