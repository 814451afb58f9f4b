// The audit log's hash chain: the canonical row encoding, the chain walk, the append-only
// guard of the database and the restamping script.
//
// The digest is a parameter everywhere: any function into 64 hexadecimal digits.  Nothing is
// assumed about collisions, so tamper evidence is stated by computing one.

module AuditChain {
  import opened Options
  import opened Texts

  const HEX := "0123456789abcdef"
  const ID_LENGTH := 36
  const STAMP_LENGTH := 27

  predicate IsDigest(s: string) {
    |s| == 64 && forall c | c in s :: c in HEX
  }

  type Digest = s: string | IsDigest(s) witness seq(64, _ => '0')

  /** `details` is the JSON text of the column, absent for NULL; `createdAt` the canonical UTC stamp. */
  datatype Row = Row(
    id: string,
    userId: Option<string>,
    action: string,
    resourceType: string,
    resourceId: string,
    workspaceId: Option<string>,
    details: Option<string>,
    createdAt: string
  )

  datatype Entry = Entry(row: Row, prevHash: string, entryHash: string)

  // ---------- Encoding ----------

  function OrEmpty(t: Option<string>): string {
    match t case None => "" case Some(v) => v
  }

  function DetailsCanonical(details: Option<string>): string {
    match details case None => "null" case Some(text) => text
  }

  function Middle(row: Row): (parts: seq<string>)
    ensures |parts| == 6
  {
    [OrEmpty(row.userId), row.action, row.resourceType, row.resourceId, OrEmpty(row.workspaceId),
     DetailsCanonical(row.details)]
  }

  /** The eight joined fields, which are all of a row up to NULL against the empty string. */
  function Fields(row: Row): (parts: seq<string>)
    ensures |parts| == 8
  {
    [row.id] + Middle(row) + [row.createdAt]
  }

  function Canonical(row: Row): string {
    Join(Fields(row), '|')
  }

  function Coalesce(t: Option<string>, default: string): string {
    if t.Some? then t.value else default
  }

  /** SQL's `concat_ws('|', ...)` of texts that are not null. */
  function ConcatWs(parts: seq<string>): string
    requires parts != []
  {
    if |parts| == 1 then parts[0] else ConcatWs(parts[..|parts| - 1]) + "|" + parts[|parts| - 1]
  }

  /** `audit_logs_canonical`, the database's own writing of a row. */
  function SqlCanonical(row: Row): string {
    ConcatWs([row.id, Coalesce(row.userId, ""), row.action, row.resourceType, row.resourceId,
              Coalesce(row.workspaceId, ""), Coalesce(row.details, "null"), row.createdAt])
  }

  lemma {:induction false} ConcatIsJoin(parts: seq<string>)
    requires parts != []
    ensures ConcatWs(parts) == Join(parts, '|')
  {
    var n := |parts| - 1;
    if n > 0 {
      ConcatIsJoin(parts[..n]);
      JoinEnd(parts[..n], parts[n]);
      assert parts[..n] + [parts[n]] == parts;
    }
  }

  /** The application and the database write a row the same way. */
  lemma WritersAgree(row: Row)
    ensures Canonical(row) == SqlCanonical(row)
  {
    ConcatIsJoin(Fields(row));
    hide Join, ConcatWs;
    assert Fields(row) == [row.id, Coalesce(row.userId, ""), row.action, row.resourceType, row.resourceId,
                           Coalesce(row.workspaceId, ""), Coalesce(row.details, "null"), row.createdAt];
  }

  /** How an entry hash is made from the previous hash and the row. */
  type Stamper = (string, Row) -> Digest

  /** The repository's stampers: a digest (plain or keyed) of the two texts put together. */
  function HashOf(h: string -> Digest): Stamper {
    (prev: string, row: Row) => h(prev + Canonical(row))
  }

  predicate Shaped(row: Row) {
    |row.id| == ID_LENGTH && |row.createdAt| == STAMP_LENGTH
  }

  /** A row whose id, user, action, resource type, resource id and workspace hold no separator. */
  predicate PipeFree(row: Row) {
    && '|' !in row.id && '|' !in OrEmpty(row.userId) && '|' !in row.action
    && '|' !in row.resourceType && '|' !in row.resourceId && '|' !in OrEmpty(row.workspaceId)
  }

  predicate WellFormed(row: Row) {
    Shaped(row) && PipeFree(row)
  }

  predicate IsLink(prev: string) {
    prev == "" || IsDigest(prev)
  }

  /** Separators may only hide in the second to last part, and the last part has a fixed width. */
  lemma {:induction false} JoinReading(xs: seq<string>, ys: seq<string>)
    requires |xs| == |ys| >= 2
    requires forall i | 0 <= i < |xs| - 2 :: '|' !in xs[i] && '|' !in ys[i]
    requires |xs[|xs| - 1]| == |ys[|ys| - 1]|
    requires Join(xs, '|') == Join(ys, '|')
    ensures xs == ys
  {
    assert xs == [xs[0]] + xs[1..] && ys == [ys[0]] + ys[1..];
    if |xs| == 2 {
      var s, t := xs[0] + "|" + xs[1], ys[0] + "|" + ys[1];
      assert Join(xs, '|') == s && Join(ys, '|') == t;
      assert xs[0] == s[..|xs[0]|] && ys[0] == t[..|ys[0]|];
      assert xs[1] == s[|xs[0]| + 1..] && ys[1] == t[|ys[0]| + 1..];
    } else {
      SameHeads(xs[0], Join(xs[1..], '|'), ys[0], Join(ys[1..], '|'), '|');
      JoinReading(xs[1..], ys[1..]);
    }
  }

  lemma JoinPrepend(prev: string, xs: seq<string>)
    requires |xs| >= 2
    ensures prev + Join(xs, '|') == Join([prev + xs[0]] + xs[1..], '|')
  {
    var ys := [prev + xs[0]] + xs[1..];
    var rest := Join(xs[1..], '|');
    assert ys[1..] == xs[1..];
    assert Join(ys, '|') == prev + xs[0] + "|" + rest && Join(xs, '|') == xs[0] + "|" + rest;
    ConcatAssociates(prev, xs[0], "|");
    ConcatAssociates(prev, xs[0] + "|", rest);
  }

  /** The hashed text determines the previous hash and every field of the row. */
  lemma HashedTextIsUnambiguous(p: string, r: Row, q: string, s: Row)
    requires IsLink(p) && WellFormed(r) && IsLink(q) && WellFormed(s)
    requires p + Canonical(r) == q + Canonical(s)
    ensures p == q && Fields(r) == Fields(s)
  {
    var xs, ys := [p + r.id] + Fields(r)[1..], [q + s.id] + Fields(s)[1..];
    JoinPrepend(p, Fields(r));
    JoinPrepend(q, Fields(s));
    JoinReading(xs, ys);
    assert xs[0] == ys[0];
    assert |p| == |q|;
    assert p == xs[0][..|p|] && q == ys[0][..|q|];
    assert r.id == xs[0][|p|..] && s.id == ys[0][|q|..];
    forall i | 0 <= i < 8 ensures Fields(r)[i] == Fields(s)[i] {
      if i > 0 {
        assert xs[i] == Fields(r)[i] && ys[i] == Fields(s)[i];
      }
    }
  }

  // ---------- Exactly which rows have one reading ----------

  /** No other row with a 36-character id and a 27-character stamp is written the same way. */
  ghost predicate SoleReading(r: Row) {
    forall s | Shaped(s) && Canonical(s) == Canonical(r) :: Fields(s) == Fields(r)
  }

  predicate NoPipeInside(r: Row) {
    forall i | 0 <= i < 6 :: '|' !in Middle(r)[i]
  }

  lemma {:induction false} JoinLength(xs: seq<string>)
    requires |xs| > 0
    ensures |Split(Join(xs, '|'), '|')| >= |xs|
    ensures |Split(Join(xs, '|'), '|')| == |xs| ==> forall i | 0 <= i < |xs| :: '|' !in xs[i]
  {
    if |xs| == 1 {
      SplitCount(xs[0], '|');
    } else {
      JoinLength(xs[1..]);
      SplitConcat(xs[0], Join(xs[1..], '|'), '|');
      SplitCount(xs[0], '|');
      assert forall i | 1 <= i < |xs| :: xs[i] == xs[1..][i - 1];
    }
  }

  lemma {:induction false} JoinAround(a: string, xs: seq<string>, b: string)
    requires |xs| > 0
    ensures Join([a] + xs + [b], '|') == a + "|" + Join(xs, '|') + "|" + b
  {
    assert ([a] + xs + [b])[1..] == xs + [b];
    JoinEnd(xs, b);
  }

  lemma {:induction false} JoinEnd(xs: seq<string>, b: string)
    requires |xs| > 0
    ensures Join(xs + [b], '|') == Join(xs, '|') + "|" + b
  {
    if |xs| == 1 {
      assert (xs + [b])[1..] == [b];
    } else {
      JoinEnd(xs[1..], b);
      assert (xs + [b])[1..] == xs[1..] + [b];
      assert xs[0] + "|" + (Join(xs[1..], '|') + "|" + b) == (xs[0] + "|" + Join(xs[1..], '|')) + "|" + b;
    }
  }

  lemma CanonicalParts(r: Row)
    ensures Canonical(r) == r.id + "|" + Join(Middle(r), '|') + "|" + r.createdAt
  {
    JoinAround(r.id, Middle(r), r.createdAt);
  }

  /** The same text cut at other separators. */
  function Recut(r: Row, parts: seq<string>): (s: Row)
    requires |parts| == 6
    ensures Shaped(r) ==> Shaped(s)
    ensures Middle(s) == parts
  {
    Row(r.id, Some(parts[0]), parts[1], parts[2], parts[3], Some(parts[4]), Some(parts[5]), r.createdAt)
  }

  lemma CutAt(s: string) returns (a: string, b: string)
    requires '|' in s
    ensures s == a + "|" + b
  {
    var i :| 0 <= i < |s| && s[i] == '|';
    a, b := s[..i], s[i + 1..];
  }

  /** The last two parts written as one. */
  function MergeLast(xs: seq<string>): (out: seq<string>)
    requires |xs| >= 2
    ensures |out| == |xs| - 1
  {
    if |xs| == 2 then [xs[0] + "|" + xs[1]] else [xs[0]] + MergeLast(xs[1..])
  }

  lemma {:induction false} MergeLastJoin(xs: seq<string>)
    requires |xs| >= 2
    ensures Join(MergeLast(xs), '|') == Join(xs, '|')
  {
    if |xs| > 2 {
      MergeLastJoin(xs[1..]);
      assert MergeLast(xs)[1..] == MergeLast(xs[1..]);
    } else {
      assert Join(xs[1..], '|') == xs[1];
    }
  }

  /** A separator inside any part lets the same text be cut differently into as many parts. */
  lemma {:induction false} AnotherCut(m: seq<string>) returns (n: seq<string>)
    requires |m| >= 2
    requires exists i | 0 <= i < |m| :: '|' in m[i]
    ensures |n| == |m| && n != m && Join(n, '|') == Join(m, '|')
  {
    if '|' in m[0] {
      var a, b := CutAt(m[0]);
      var tail := [b] + m[1..];
      MergeLastJoin(tail);
      n := [a] + MergeLast(tail);
      assert |n[0]| < |m[0]|;
      assert n[1..] == MergeLast(tail) && tail[1..] == m[1..];
      assert (a + "|" + b) + "|" + Join(m[1..], '|') == a + "|" + (b + "|" + Join(m[1..], '|'));
    } else if |m| == 2 {
      var a, b := CutAt(m[1]);
      n := [m[0] + "|" + a, b];
      assert |n[0]| > |m[0]|;
      assert m[1..] == [m[1]] && n[1..] == [b];
      assert m[0] + "|" + (a + "|" + b) == (m[0] + "|" + a) + "|" + b;
    } else {
      var i :| 0 <= i < |m| && '|' in m[i];
      assert m[1..][i - 1] == m[i];
      var rest := AnotherCut(m[1..]);
      n := [m[0]] + rest;
      assert n[1..] == rest;
    }
  }

  /** A row has exactly one reading when, and only when, its inner fields hold no separator. */
  lemma SoleReadingExactly(r: Row)
    requires Shaped(r)
    ensures SoleReading(r) <==> NoPipeInside(r)
  {
    CanonicalParts(r);
    if NoPipeInside(r) {
      forall s | Shaped(s) && Canonical(s) == Canonical(r) ensures Fields(s) == Fields(r) {
        CanonicalParts(s);
        var x, y := Join(Middle(r), '|'), Join(Middle(s), '|');
        assert r.id == Canonical(r)[..36] && s.id == Canonical(s)[..36];
        assert |x| == |y|;
        assert x == Canonical(r)[37..37 + |x|] && y == Canonical(s)[37..37 + |x|];
        assert r.createdAt == Canonical(r)[38 + |x|..] && s.createdAt == Canonical(s)[38 + |x|..];
        SplitJoin(Middle(r), '|');
        JoinLength(Middle(s));
        SplitJoin(Middle(s), '|');
      }
    } else {
      var n := AnotherCut(Middle(r));
      var s := Recut(r, n);
      CanonicalParts(s);
      assert Fields(s)[1..7] == n && Fields(r)[1..7] == Middle(r);
      assert Canonical(s) == Canonical(r) && Fields(s) != Fields(r);
    }
  }

  // ---------- The chain walk and tamper evidence ----------

  function Head(prev: string, log: seq<Entry>): string {
    if log == [] then prev else log[|log| - 1].entryHash
  }

  /** Every row names its predecessor's hash: what the database itself enforces. */
  predicate Linked(log: seq<Entry>) {
    forall i | 0 <= i < |log| :: log[i].prevHash == Head("", log[..i])
  }

  predicate Authentic(f: Stamper, e: Entry) {
    e.entryHash == f(e.prevHash, e.row)
  }

  /** The verifier finds nothing to report. */
  predicate Accepts(f: Stamper, log: seq<Entry>) {
    Linked(log) && forall e | e in log :: Authentic(f, e)
  }

  predicate SameContent(a: seq<Entry>, b: seq<Entry>) {
    |a| == |b| && forall i | 0 <= i < |a| :: Fields(a[i].row) == Fields(b[i].row)
  }

  predicate AllWellFormed(log: seq<Entry>) {
    forall e | e in log :: WellFormed(e.row)
  }

  lemma AcceptsPrefix(f: Stamper, log: seq<Entry>, n: nat)
    requires Accepts(f, log) && n <= |log|
    ensures Accepts(f, log[..n])
  {
    forall i | 0 <= i < n ensures log[..n][i].prevHash == Head("", log[..n][..i]) {
      assert log[..n][..i] == log[..i];
    }
  }

  function HashInput(e: Entry): string {
    e.prevHash + Canonical(e.row)
  }

  /** Two hash inputs recovered by walking both logs back from their ends until they part. */
  function Collision(a: seq<Entry>, b: seq<Entry>): (string, string) {
    if a == [] || b == [] then ("", "")
    else
      var e, f := a[|a| - 1], b[|b| - 1];
      if HashInput(e) != HashInput(f) then (HashInput(e), HashInput(f)) else Collision(a[..|a| - 1], b[..|b| - 1])
  }

  /** Tamper evidence: accepted logs with one head hold the same rows, or expose a hash collision. */
  lemma {:induction false} TamperEvidence(h: string -> Digest, a: seq<Entry>, b: seq<Entry>)
    requires Accepts(HashOf(h), a) && Accepts(HashOf(h), b) && AllWellFormed(a) && AllWellFormed(b)
    requires Head("", a) == Head("", b)
    ensures SameContent(a, b) || IsCollision(h, Collision(a, b))
    decreases |a|
  {
    HeadOfNonempty(HashOf(h), a);
    HeadOfNonempty(HashOf(h), b);
    if a != [] {
      var m, n := |a| - 1, |b| - 1;
      if HashInput(a[m]) == HashInput(b[n]) {
        LastRowsAgree(h, a, b);
        assert AllWellFormed(a[..m]) && AllWellFormed(b[..n]);
        TamperEvidence(h, a[..m], b[..n]);
        SameContentExtends(a, b);
      } else {
        assert Authentic(HashOf(h), a[m]) && Authentic(HashOf(h), b[n]);
      }
    }
  }

  lemma HeadOfNonempty(f: Stamper, log: seq<Entry>)
    requires Accepts(f, log)
    ensures log == [] <==> Head("", log) == ""
  {
    if log != [] {
      assert Authentic(f, log[|log| - 1]);
    }
  }

  predicate IsCollision(h: string -> Digest, inputs: (string, string)) {
    inputs.0 != inputs.1 && h(inputs.0) == h(inputs.1)
  }

  lemma SameContentExtends(a: seq<Entry>, b: seq<Entry>)
    requires a != [] && b != [] && Fields(a[|a| - 1].row) == Fields(b[|b| - 1].row)
    ensures SameContent(a[..|a| - 1], b[..|b| - 1]) ==> SameContent(a, b)
  {
    var m, n := |a| - 1, |b| - 1;
    if SameContent(a[..m], b[..n]) {
      forall i | 0 <= i < |a| ensures Fields(a[i].row) == Fields(b[i].row) {
        if i < m {
          assert a[i] == a[..m][i] && b[i] == b[..n][i];
        }
      }
    }
  }

  lemma LastRowsAgree(h: string -> Digest, a: seq<Entry>, b: seq<Entry>)
    requires Accepts(HashOf(h), a) && Accepts(HashOf(h), b) && AllWellFormed(a) && AllWellFormed(b) && a != [] &&
             b != []
    requires HashInput(a[|a| - 1]) == HashInput(b[|b| - 1])
    ensures var m, n := |a| - 1, |b| - 1;
            && Accepts(HashOf(h), a[..m]) && Accepts(HashOf(h), b[..n]) && Head("", a[..m]) == Head("", b[..n])
            && Fields(a[m].row) == Fields(b[n].row)
  {
    var m, n := |a| - 1, |b| - 1;
    assert a[m] in a && b[n] in b;
    LinkShape(HashOf(h), a, m);
    LinkShape(HashOf(h), b, n);
    HashedTextIsUnambiguous(a[m].prevHash, a[m].row, b[n].prevHash, b[n].row);
    AcceptsPrefix(HashOf(h), a, m);
    AcceptsPrefix(HashOf(h), b, n);
  }

  lemma LinkShape(f: Stamper, log: seq<Entry>, i: nat)
    requires Accepts(f, log) && i < |log|
    ensures IsLink(log[i].prevHash)
  {
    if i > 0 {
      assert log[i - 1] in log;
      assert log[..i][i - 1] == log[i - 1];
    }
  }

  // ---------- The verifier ----------

  /** The rows the verifier reports: a wrong link to the stored predecessor or a wrong digest. */
  predicate BrokenAt(f: Stamper, log: seq<Entry>, i: nat)
    requires i < |log|
  {
    log[i].prevHash != Head("", log[..i]) || log[i].entryHash != f(Head("", log[..i]), log[i].row)
  }

  function BrokenIds(f: Stamper, log: seq<Entry>, n: nat): seq<string>
    requires n <= |log|
  {
    if n == 0 then []
    else BrokenIds(f, log, n - 1) + (if BrokenAt(f, log, n - 1) then [log[n - 1].row.id] else [])
  }

  /** The ids stand for these rows, in the order of the log, and these are the first `n` rows' bad ones. */
  predicate Reports(f: Stamper, log: seq<Entry>, n: nat, broken: seq<string>, at: seq<nat>) {
    && n <= |log| && |at| == |broken| && (forall k | 0 <= k < |at| :: at[k] < n && broken[k] == log[at[k]].row.id)
    && (forall k, m | 0 <= k < m < |at| :: at[k] < at[m])
    && (forall i | 0 <= i < n :: i in at <==> BrokenAt(f, log, i))
  }

  lemma {:induction false} BrokenRows(f: Stamper, log: seq<Entry>, n: nat) returns (at: seq<nat>)
    requires n <= |log|
    ensures Reports(f, log, n, BrokenIds(f, log, n), at)
  {
    at := [];
    hide BrokenAt;
    if n > 0 {
      at := BrokenRows(f, log, n - 1);
      if BrokenAt(f, log, n - 1) {
        at := at + [n - 1];
      }
    }
  }

  /**
   * The report names the bad rows among the first `n`, in their order: an id is in it exactly when a row
   * with that id has a wrong link to its stored predecessor, or a wrong digest for it.
   */
  ghost predicate NamesBadRows(f: Stamper, log: seq<Entry>, n: nat, broken: seq<string>) {
    && n <= |log| && (exists at :: Reports(f, log, n, broken, at))
    && forall id :: id in broken <==> exists i | 0 <= i < n ::
         log[i].row.id == id &&
         (log[i].prevHash != Head("", log[..i]) || log[i].entryHash != f(Head("", log[..i]), log[i].row))
  }

  lemma BrokenAreNamed(f: Stamper, log: seq<Entry>, n: nat)
    requires n <= |log|
    ensures NamesBadRows(f, log, n, BrokenIds(f, log, n))
  {
    var at := BrokenRows(f, log, n);
    ReportedIds(f, log, n, BrokenIds(f, log, n), at);
  }

  lemma ReportedIds(f: Stamper, log: seq<Entry>, n: nat, broken: seq<string>, at: seq<nat>)
    requires Reports(f, log, n, broken, at)
    ensures NamesBadRows(f, log, n, broken)
  {
    forall i | 0 <= i < n && BrokenAt(f, log, i) ensures log[i].row.id in broken {
      var k :| 0 <= k < |at| && at[k] == i;
      assert broken[k] == log[i].row.id;
    }
    forall id | id in broken ensures exists i | 0 <= i < n :: log[i].row.id == id && BrokenAt(f, log, i) {
      var k :| 0 <= k < |broken| && broken[k] == id;
      assert at[k] in at && log[at[k]].row.id == id;
    }
  }

  lemma {:induction false} NoneBroken(f: Stamper, log: seq<Entry>, n: nat)
    requires n <= |log|
    ensures BrokenIds(f, log, n) == [] <==> forall i | 0 <= i < n :: !BrokenAt(f, log, i)
  {
    if n > 0 {
      NoneBroken(f, log, n - 1);
    }
  }

  lemma UnbrokenIsAccepted(f: Stamper, log: seq<Entry>)
    ensures Accepts(f, log) <==> forall i | 0 <= i < |log| :: !BrokenAt(f, log, i)
  {
    if forall i | 0 <= i < |log| :: !BrokenAt(f, log, i) {
      forall e | e in log ensures Authentic(f, e) {
        var i :| 0 <= i < |log| && log[i] == e;
        assert !BrokenAt(f, log, i);
      }
      forall i | 0 <= i < |log| ensures log[i].prevHash == Head("", log[..i]) {
        assert !BrokenAt(f, log, i);
      }
    } else {
      var i :| 0 <= i < |log| && BrokenAt(f, log, i);
      assert log[i] in log;
    }
  }

  lemma {:induction false} BrokenGrows(f: Stamper, log: seq<Entry>, m: nat, n: nat)
    requires m <= n <= |log|
    ensures BrokenIds(f, log, m) <= BrokenIds(f, log, n)
  {
    if m < n {
      BrokenGrows(f, log, m, n - 1);
    }
  }

  /** The oldest rows, as many as the query may return. */
  function Limited(table: seq<Entry>, limit: Option<nat>): seq<Entry> {
    if limit.Some? && limit.value < |table| then table[..limit.value] else table
  }

  /** A walk that stops at a limit never rejects what the whole walk accepts. */
  lemma LimitedIsAccepted(f: Stamper, table: seq<Entry>, limit: Option<nat>)
    requires Accepts(f, table)
    ensures Accepts(f, Limited(table, limit))
  {
    AcceptsPrefix(f, table, |Limited(table, limit)|);
  }

  /** The walk stops after five broken rows; its verdict is the acceptance of the whole log. */
  method VerifyChain(f: Stamper, table: seq<Entry>, limit: Option<nat>)
    returns (ok: bool, total: nat, broken: seq<string>)
    ensures var log := if limit.Some? && limit.value < |table| then table[..limit.value] else table;
            && (ok <==> Accepts(f, log))
            && NamesBadRows(f, log, total, broken) && |broken| <= 5 && (total < |log| ==> |broken| == 5)
  {
    hide NamesBadRows;
    var log := Limited(table, limit);
    var prev := "";
    total, broken := 0, [];
    while total < |log|
      invariant total <= |log| && prev == Head("", log[..total])
      invariant broken == BrokenIds(f, log, total) && |broken| < 5
    {
      var e := log[total];
      assert log[..total + 1][total] == e;
      if e.prevHash != prev || e.entryHash != f(prev, e.row) {
        broken := broken + [e.row.id];
        if |broken| >= 5 {
          total := total + 1;
          BrokenGrows(f, log, total, |log|);
          NoneBroken(f, log, |log|);
          UnbrokenIsAccepted(f, log);
          BrokenAreNamed(f, log, total);
          return false, total, broken;
        }
      }
      prev := e.entryHash;
      total := total + 1;
    }
    NoneBroken(f, log, |log|);
    UnbrokenIsAccepted(f, log);
    BrokenAreNamed(f, log, total);
    ok := broken == [];
  }

  // ---------- The table, listed by (created_at, id) ----------

  predicate SortsBefore(a: Row, b: Row) {
    Less(a.createdAt, b.createdAt) || (a.createdAt == b.createdAt && Less(a.id, b.id))
  }

  predicate Sorted(rows: seq<Entry>) {
    forall i, j | 0 <= i < j < |rows| :: SortsBefore(rows[i].row, rows[j].row)
  }

  predicate UniqueIds(rows: seq<Entry>) {
    forall i, j | 0 <= i < j < |rows| :: rows[i].row.id != rows[j].row.id
  }

  predicate FreshId(rows: seq<Entry>, id: string) {
    forall i | 0 <= i < |rows| :: rows[i].row.id != id
  }

  predicate SortsLast(rows: seq<Entry>, e: Entry) {
    forall i | 0 <= i < |rows| :: SortsBefore(rows[i].row, e.row)
  }

  function Place(rows: seq<Entry>, row: Row): (p: nat)
    ensures p <= |rows|
    ensures forall i | 0 <= i < p :: !SortsBefore(row, rows[i].row)
    ensures p < |rows| ==> SortsBefore(row, rows[p].row)
  {
    if rows == [] || SortsBefore(row, rows[0].row) then 0 else 1 + Place(rows[1..], row)
  }

  /** By time; by id only where the times are the same. */
  lemma TimeThenId(a: Row, b: Row)
    ensures a.createdAt != b.createdAt ==> (SortsBefore(a, b) <==> Less(a.createdAt, b.createdAt))
    ensures a.createdAt == b.createdAt ==> (SortsBefore(a, b) <==> Less(a.id, b.id))
  {
    LessTrichotomy(a.createdAt, b.createdAt);
  }

  function Inserted(rows: seq<Entry>, e: Entry): seq<Entry> {
    var p := Place(rows, e.row);
    rows[..p] + [e] + rows[p..]
  }

  lemma SortsBeforeOrder(a: Row, b: Row)
    ensures a.id != b.id ==> SortsBefore(a, b) || SortsBefore(b, a)
    ensures !(SortsBefore(a, b) && SortsBefore(b, a))
  {
    LessTrichotomy(a.createdAt, b.createdAt);
    LessTrichotomy(a.id, b.id);
  }

  lemma SortsBeforeTransitive(a: Row, b: Row, c: Row)
    requires SortsBefore(a, b) && SortsBefore(b, c)
    ensures SortsBefore(a, c)
  {
    if Less(a.createdAt, b.createdAt) && Less(b.createdAt, c.createdAt) {
      LessTransitive(a.createdAt, b.createdAt, c.createdAt);
    }
    if Less(a.id, b.id) && Less(b.id, c.id) {
      LessTransitive(a.id, b.id, c.id);
    }
  }

  lemma PlaceSplits(rows: seq<Entry>, e: Entry)
    requires Sorted(rows) && FreshId(rows, e.row.id)
    ensures var p := Place(rows, e.row);
            && (forall i | 0 <= i < p :: SortsBefore(rows[i].row, e.row))
            && (forall i | p <= i < |rows| :: SortsBefore(e.row, rows[i].row))
    ensures SortsLast(rows, e) <==> Place(rows, e.row) == |rows|
  {
    var p := Place(rows, e.row);
    forall i | 0 <= i < |rows|
      ensures if i < p then SortsBefore(rows[i].row, e.row) else SortsBefore(e.row, rows[i].row)
    {
      SortsBeforeOrder(rows[i].row, e.row);
      if p < i {
        SortsBeforeTransitive(e.row, rows[p].row, rows[i].row);
      }
    }
    if p < |rows| {
      SortsBeforeOrder(rows[p].row, e.row);
    }
  }

  lemma InsertKeepsTable(rows: seq<Entry>, e: Entry)
    requires Sorted(rows) && UniqueIds(rows) && FreshId(rows, e.row.id)
    ensures Sorted(Inserted(rows, e)) && UniqueIds(Inserted(rows, e))
  {
    PlaceSplits(rows, e);
    var p, t := Place(rows, e.row), Inserted(rows, e);
    forall i, j | 0 <= i < j < |t|
      ensures SortsBefore(t[i].row, t[j].row) && t[i].row.id != t[j].row.id
    {
      assert t[i] == if i < p then rows[i] else if i == p then e else rows[i - 1];
      assert t[j] == if j < p then rows[j] else if j == p then e else rows[j - 1];
    }
  }

  datatype Attempt = Insert(entry: Entry) | Update(id: string) | Delete(id: string)

  /** The guard: an insert with a fresh id must name the latest hash; updates and deletes are refused. */
  predicate Permitted(rows: seq<Entry>, op: Attempt) {
    op.Insert? && FreshId(rows, op.entry.row.id) && op.entry.prevHash == Head("", rows)
  }

  function After(rows: seq<Entry>, op: Attempt): seq<Entry> {
    if Permitted(rows, op) then Inserted(rows, op.entry) else rows
  }

  /** The log is append-only: nothing but an insert gets through, and that adds its own row and takes none away. */
  lemma OnlyInsertsGetThrough(rows: seq<Entry>, op: Attempt)
    ensures Permitted(rows, op) <==>
            && op.Insert? && (forall e | e in rows :: e.row.id != op.entry.row.id)
            && op.entry.prevHash == if rows == [] then "" else rows[|rows| - 1].entryHash
    ensures multiset(After(rows, op)) == multiset(rows) + if Permitted(rows, op) then multiset{op.entry} else multiset{}
    ensures !Permitted(rows, op) ==> After(rows, op) == rows
  {
    if Permitted(rows, op) {
      var p := Place(rows, op.entry.row);
      assert rows == rows[..p] + rows[p..];
    }
  }

  function AfterAll(rows: seq<Entry>, ops: seq<Attempt>): seq<Entry>
    decreases |ops|
  {
    if ops == [] then rows else AfterAll(After(rows, ops[0]), ops[1..])
  }

  /** Every accepted insert sorts after all rows present when it arrives. */
  predicate Chronological(rows: seq<Entry>, ops: seq<Attempt>)
    decreases |ops|
  {
    ops == [] ||
    ((Permitted(rows, ops[0]) ==> SortsLast(rows, ops[0].entry)) && Chronological(After(rows, ops[0]), ops[1..]))
  }

  /** What one accepted insert does to the links, wherever it sorts. */
  lemma InsertKeepsLinksExactly(rows: seq<Entry>, e: Entry)
    requires Sorted(rows) && Linked(rows) && Permitted(rows, Insert(e))
    requires forall i | 0 <= i < |rows| :: rows[i].entryHash != ""
    requires forall i, j | 0 <= i < j < |rows| :: rows[i].entryHash != rows[j].entryHash
    ensures Linked(Inserted(rows, e)) <==> SortsLast(rows, e)
  {
    PlaceSplits(rows, e);
    var p := Place(rows, e.row);
    var t := Inserted(rows, e);
    if p == |rows| {
      AppendLinks(rows, e);
      assert t == rows + [e];
    } else {
      assert t[p] == e && t[..p] == rows[..p];
      InnerHeadDiffers(rows, p);
    }
  }

  lemma InnerHeadDiffers(rows: seq<Entry>, p: nat)
    requires p < |rows|
    requires forall i | 0 <= i < |rows| :: rows[i].entryHash != ""
    requires forall i, j | 0 <= i < j < |rows| :: rows[i].entryHash != rows[j].entryHash
    ensures Head("", rows[..p]) != Head("", rows)
  {
    if p > 0 {
      assert rows[..p][p - 1] == rows[p - 1];
    }
  }

  lemma AppendLinks(rows: seq<Entry>, e: Entry)
    requires Linked(rows) && e.prevHash == Head("", rows)
    ensures Linked(rows + [e])
  {
    var t := rows + [e];
    forall i | 0 <= i < |t| ensures t[i].prevHash == Head("", t[..i]) {
      if i < |rows| {
        assert t[..i] == rows[..i];
      } else {
        assert t[..i] == rows;
      }
    }
  }

  /** Over any run of attempts the log only grows at its end and stays one linked chain. */
  lemma {:induction false} GuardedHistory(rows: seq<Entry>, ops: seq<Attempt>)
    requires Sorted(rows) && UniqueIds(rows) && Linked(rows) && Chronological(rows, ops)
    ensures rows <= AfterAll(rows, ops)
    ensures Sorted(AfterAll(rows, ops)) && UniqueIds(AfterAll(rows, ops)) && Linked(AfterAll(rows, ops))
    decreases |ops|
  {
    if ops != [] {
      if Permitted(rows, ops[0]) {
        var e := ops[0].entry;
        PlaceSplits(rows, e);
        InsertKeepsTable(rows, e);
        AppendLinks(rows, e);
        assert Inserted(rows, e) == rows + [e];
      }
      GuardedHistory(After(rows, ops[0]), ops[1..]);
    }
  }

  lemma {:induction false} RowsStay(rows: seq<Entry>, ops: seq<Attempt>, e: Entry)
    requires e in rows
    ensures e in AfterAll(rows, ops)
    decreases |ops|
  {
    if ops != [] {
      if Permitted(rows, ops[0]) {
        InsertedHas(rows, ops[0].entry, e);
      }
      RowsStay(After(rows, ops[0]), ops[1..], e);
    }
  }

  lemma InsertedHas(rows: seq<Entry>, e: Entry, x: Entry)
    ensures x in Inserted(rows, e) <==> x == e || x in rows
  {
    var p := Place(rows, e.row);
    assert rows == rows[..p] + rows[p..];
  }

  /** A row whose digest is wrong is there for good: no run of attempts at all makes the walk accept. */
  lemma ForgedRowStaysVisible(f: Stamper, rows: seq<Entry>, ops: seq<Attempt>, e: Entry)
    requires e in rows && !Authentic(f, e)
    ensures !Accepts(f, AfterAll(rows, ops))
  {
    RowsStay(rows, ops, e);
  }

  /** A linked log that the walk rejects holds such a row: back-dated inserts cannot talk it away either. */
  lemma ForgeryStaysVisible(f: Stamper, rows: seq<Entry>, ops: seq<Attempt>)
    requires Linked(rows)
    ensures !Accepts(f, rows) ==> !Accepts(f, AfterAll(rows, ops))
  {
    if !Accepts(f, rows) {
      var e :| e in rows && !Authentic(f, e);
      ForgedRowStaysVisible(f, rows, ops, e);
    }
  }

  // ---------- What back-dated inserts do ----------

  predicate DistinctHashes(log: seq<Entry>) {
    forall i, j | 0 <= i < j < |log| :: log[i].entryHash != log[j].entryHash
  }

  predicate NoEmptyHash(log: seq<Entry>) {
    forall i | 0 <= i < |log| :: log[i].entryHash != ""
  }

  lemma {:induction false} TableStays(rows: seq<Entry>, ops: seq<Attempt>)
    requires Sorted(rows) && UniqueIds(rows)
    ensures Sorted(AfterAll(rows, ops)) && UniqueIds(AfterAll(rows, ops))
    decreases |ops|
  {
    if ops != [] {
      if Permitted(rows, ops[0]) {
        InsertKeepsTable(rows, ops[0].entry);
      }
      TableStays(After(rows, ops[0]), ops[1..]);
    }
  }

  /** In a linked log a row that names another's hash stands right behind it. */
  lemma StandsBehind(log: seq<Entry>, last: Entry, e: Entry)
    requires Linked(log) && Sorted(log) && DistinctHashes(log) && NoEmptyHash(log)
    requires last in log && e in log && e.prevHash == last.entryHash
    ensures SortsBefore(last.row, e.row)
  {
    var i :| 0 <= i < |log| && log[i] == last;
    var k :| 0 <= k < |log| && log[k] == e;
    assert k > 0 && log[..k][k - 1] == log[k - 1];
    assert log[k - 1].entryHash == log[i].entryHash;
  }

  /** So if the log ends up linked, no insert was back-dated. */
  lemma {:induction false} LinkedIsChronological(rows: seq<Entry>, ops: seq<Attempt>)
    requires Sorted(rows) && UniqueIds(rows)
    requires var log := AfterAll(rows, ops); Linked(log) && DistinctHashes(log) && NoEmptyHash(log)
    ensures Chronological(rows, ops)
    decreases |ops|
  {
    if ops != [] {
      if Permitted(rows, ops[0]) {
        InsertKeepsTable(rows, ops[0].entry);
        LinkedInsertIsLast(rows, ops);
      }
      LinkedIsChronological(After(rows, ops[0]), ops[1..]);
    }
  }

  lemma LinkedInsertIsLast(rows: seq<Entry>, ops: seq<Attempt>)
    requires Sorted(rows) && UniqueIds(rows) && ops != [] && Permitted(rows, ops[0])
    requires var log := AfterAll(rows, ops); Linked(log) && DistinctHashes(log) && NoEmptyHash(log)
    ensures SortsLast(rows, ops[0].entry)
  {
    var e := ops[0].entry;
    PlaceSplits(rows, e);
    if rows != [] {
      var last := rows[|rows| - 1];
      InsertedHas(rows, e, e);
      RowsStay(After(rows, ops[0]), ops[1..], e);
      RowsStay(rows, ops, last);
      TableStays(rows, ops);
      StandsBehind(AfterAll(rows, ops), last, e);
      SortsBeforeOrder(last.row, e.row);
    }
  }

  lemma LinkedPrefix(log: seq<Entry>, n: nat)
    requires Linked(log) && n <= |log|
    ensures Linked(log[..n])
  {
    forall i | 0 <= i < n ensures log[..n][i].prevHash == Head("", log[..n][..i]) {
      assert log[..n][..i] == log[..i];
    }
  }

  /**
   * Where no two hashes agree, a run of attempts leaves a linked log exactly when the log was linked
   * and every accepted insert sorted last when it arrived.
   */
  lemma LinkedHistoryExactly(rows: seq<Entry>, ops: seq<Attempt>)
    requires Sorted(rows) && UniqueIds(rows)
    requires DistinctHashes(AfterAll(rows, ops)) && NoEmptyHash(AfterAll(rows, ops))
    ensures Linked(AfterAll(rows, ops)) <==> Linked(rows) && Chronological(rows, ops)
  {
    if Linked(AfterAll(rows, ops)) {
      LinkedIsChronological(rows, ops);
      OnlyGrows(rows, ops);
      LinkedPrefix(AfterAll(rows, ops), |rows|);
      assert AfterAll(rows, ops)[..|rows|] == rows;
    }
    if Linked(rows) && Chronological(rows, ops) {
      GuardedHistory(rows, ops);
    }
  }

  lemma {:induction false} OnlyGrows(rows: seq<Entry>, ops: seq<Attempt>)
    requires Sorted(rows) && UniqueIds(rows) && Chronological(rows, ops)
    ensures rows <= AfterAll(rows, ops)
    decreases |ops|
  {
    if ops != [] {
      if Permitted(rows, ops[0]) {
        PlaceSplits(rows, ops[0].entry);
        InsertKeepsTable(rows, ops[0].entry);
        assert Inserted(rows, ops[0].entry) == rows + [ops[0].entry];
      }
      OnlyGrows(After(rows, ops[0]), ops[1..]);
    }
  }

  /** The application's stamp: name the latest hash, then hash it with the row. */
  function Stamped(f: Stamper, rows: seq<Entry>, row: Row): Entry {
    var prev := Head("", rows);
    Entry(row, prev, f(prev, row))
  }

  /** Inserts the application stamped; anything else may be attempted but not inserted. */
  predicate OnlyStampedInserts(f: Stamper, rows: seq<Entry>, ops: seq<Attempt>)
    decreases |ops|
  {
    ops == [] ||
    ((ops[0].Insert? ==> ops[0].entry == Stamped(f, rows, ops[0].entry.row)) &&
     OnlyStampedInserts(f, After(rows, ops[0]), ops[1..]))
  }

  /** The guard never refuses a stamped row with a fresh id. */
  lemma GuardAdmitsStamped(f: Stamper, rows: seq<Entry>, row: Row)
    requires Sorted(rows) && FreshId(rows, row.id)
    ensures Permitted(rows, Insert(Stamped(f, rows, row)))
    ensures After(rows, Insert(Stamped(f, rows, row))) == rows + [Stamped(f, rows, row)] <==>
            SortsLast(rows, Stamped(f, rows, row))
  {
    var e := Stamped(f, rows, row);
    PlaceSplits(rows, e);
    var p := Place(rows, row);
    if p < |rows| {
      assert Inserted(rows, e)[p] == e && (rows + [e])[p] == rows[p];
    }
  }

  /** A log that only receives stamped rows, each later than all before it, stays accepted. */
  lemma {:induction false} StampedLogIsAccepted(f: Stamper, rows: seq<Entry>, ops: seq<Attempt>)
    requires Sorted(rows) && UniqueIds(rows) && Accepts(f, rows)
    requires Chronological(rows, ops) && OnlyStampedInserts(f, rows, ops)
    ensures Accepts(f, AfterAll(rows, ops))
    decreases |ops|
  {
    if ops != [] {
      if Permitted(rows, ops[0]) {
        var e := ops[0].entry;
        GuardAdmitsStamped(f, rows, e.row);
        InsertKeepsTable(rows, e);
        AppendLinks(rows, e);
      }
      StampedLogIsAccepted(f, After(rows, ops[0]), ops[1..]);
    }
  }

  /**
   * The order is needed, and it is all that is: where no two hashes agree, the walk accepts the log
   * at the end exactly when it accepted it at the start and no stamped insert was back-dated.
   */
  lemma StampedHistoryExactly(f: Stamper, rows: seq<Entry>, ops: seq<Attempt>)
    requires Sorted(rows) && UniqueIds(rows) && OnlyStampedInserts(f, rows, ops)
    requires DistinctHashes(AfterAll(rows, ops))
    ensures Accepts(f, AfterAll(rows, ops)) <==> Accepts(f, rows) && Chronological(rows, ops)
  {
    var log := AfterAll(rows, ops);
    if Accepts(f, log) {
      assert NoEmptyHash(log) by {
        forall i | 0 <= i < |log| ensures log[i].entryHash != "" {
          assert Authentic(f, log[i]);
        }
      }
      LinkedHistoryExactly(rows, ops);
      OnlyGrows(rows, ops);
      AcceptsPrefix(f, log, |rows|);
      assert log[..|rows|] == rows;
    }
    if Accepts(f, rows) && Chronological(rows, ops) {
      StampedLogIsAccepted(f, rows, ops);
    }
  }

  /** Two rows stamped in the wrong order: the guard admits the second, and the walk rejects the log. */
  lemma BackdatedStampBreaksWalk(f: Stamper, late: Row, early: Row)
    requires SortsBefore(early, late) && early.id != late.id
    ensures var first := Stamped(f, [], late);
            var second := Stamped(f, [first], early);
            var ops := [Insert(first), Insert(second)];
            && OnlyStampedInserts(f, [], ops) && Permitted([first], Insert(second))
            && AfterAll([], ops) == [second, first] && !Accepts(f, AfterAll([], ops))
  {
    var first := Stamped(f, [], late);
    var second := Stamped(f, [first], early);
    var ops := [Insert(first), Insert(second)];
    assert ops[1..] == [Insert(second)] && ops[1..][1..] == [];
    assert After([], ops[0]) == [first];
    assert After([first], ops[1]) == [second, first];
    assert AfterAll([second, first], []) == [second, first];
    assert AfterAll([first], ops[1..]) == [second, first];
    assert OnlyStampedInserts(f, [second, first], []) && OnlyStampedInserts(f, [first], ops[1..]);
    assert [second, first][..0] == [] && [second, first][0].prevHash == first.entryHash != "";
  }

  /** For one: any two rows of which the second is stamped a second too early. */
  lemma EarlierStampSorts(first: Row, second: Row)
    ensures SortsBefore(second.(createdAt := "2026-01-01T00:00:00.000000Z"),
                        first.(createdAt := "2026-01-01T00:00:01.000000Z"))
  {
    var a, b := "2026-01-01T00:00:00.000000Z", "2026-01-01T00:00:01.000000Z";
    var start := "2026-01-01T00:00:0";
    assert a == start + "0.000000Z" && b == start + "1.000000Z";
    LessBehind(start, "0.000000Z", "1.000000Z");
  }

  lemma {:induction false} LessBehind(start: string, a: string, b: string)
    requires Less(a, b)
    ensures Less(start + a, start + b)
  {
    if start == "" {
      assert start + a == a && start + b == b;
    } else {
      LessBehind(start[1..], a, b);
      assert (start + a)[1..] == start[1..] + a && (start + b)[1..] == start[1..] + b;
    }
  }

  // ---------- Restamping ----------

  function Restamped(f: Stamper, rows: seq<Entry>): (out: seq<Entry>)
    ensures |out| == |rows|
    decreases |rows|
  {
    if rows == [] then []
    else
      var done := Restamped(f, rows[..|rows| - 1]);
      done + [Stamped(f, done, rows[|rows| - 1].row)]
  }

  lemma {:induction false} RestampedLog(f: Stamper, rows: seq<Entry>)
    ensures Accepts(f, Restamped(f, rows))
    ensures forall i | 0 <= i < |rows| :: Restamped(f, rows)[i].row == rows[i].row
    decreases |rows|
  {
    if rows != [] {
      var n := |rows| - 1;
      RestampedLog(f, rows[..n]);
      AppendLinks(Restamped(f, rows[..n]), Restamped(f, rows)[n]);
    }
  }

  /** A restamped table is accepted by the walk, has the same rows, and a second pass changes nothing. */
  lemma RestampIsSound(f: Stamper, rows: seq<Entry>)
    ensures var out := Restamped(f, rows); Accepts(f, out) && SameContent(rows, out) && Restamped(f, out) == out
    ensures Accepts(f, rows) ==> Restamped(f, rows) == rows
  {
    RestampedLog(f, rows);
    AcceptedIsFixed(f, Restamped(f, rows));
    if Accepts(f, rows) {
      AcceptedIsFixed(f, rows);
    }
  }

  lemma {:induction false} AcceptedIsFixed(f: Stamper, rows: seq<Entry>)
    requires Accepts(f, rows)
    ensures Restamped(f, rows) == rows
    decreases |rows|
  {
    if rows != [] {
      var n := |rows| - 1;
      AcceptsPrefix(f, rows, n);
      var done := rows[..n];
      AcceptedIsFixed(f, done);
      assert Authentic(f, rows[n]);
      assert rows == done + [rows[n]] && rows[n] == Stamped(f, done, rows[n].row);
    }
  }

  /**
   * The script stamps with one digest and the application verifies with another, keyed one.
   * The verifier accepts a restamped table exactly when the two agree on every chained pair.
   */
  lemma RestampedUnderAnotherKey(f: Stamper, g: Stamper, rows: seq<Entry>)
    ensures Accepts(g, Restamped(f, rows)) <==> StampersAgree(f, g, Restamped(f, rows))
  {
    RestampedLog(f, rows);
    AcceptedByBoth(f, g, Restamped(f, rows));
  }

  /** One row for which the digests differ is enough. */
  lemma RestampedRowIsRejected(f: Stamper, g: Stamper, e: Entry)
    requires f("", e.row) != g("", e.row)
    ensures Restamped(f, [e]) == [Entry(e.row, "", f("", e.row))] && !Accepts(g, Restamped(f, [e]))
  {
    assert [e][..0] == [] && Restamped(f, []) == [];
    assert Restamped(f, [e])[0] == Entry(e.row, "", f("", e.row));
    assert Restamped(f, [e])[0] in Restamped(f, [e]);
    RestampedUnderAnotherKey(f, g, [e]);
  }

  function Inserts(rows: seq<Entry>): seq<Attempt> {
    seq(|rows|, i requires 0 <= i < |rows| => Insert(rows[i]))
  }

  /** The guard accepts a restamped table: inserting its rows one by one into an empty table rebuilds it. */
  lemma GuardAcceptsRestamped(f: Stamper, rows: seq<Entry>)
    requires Sorted(rows) && UniqueIds(rows)
    ensures AfterAll([], Inserts(Restamped(f, rows))) == Restamped(f, rows)
  {
    RestampedLog(f, rows);
    var out := Restamped(f, rows);
    assert Sorted(out) && UniqueIds(out) by {
      forall i, j | 0 <= i < j < |out| ensures SortsBefore(out[i].row, out[j].row) && out[i].row.id != out[j].row.id {
        assert rows[i].row == out[i].row && rows[j].row == out[j].row;
      }
    }
    Replays(out, 0);
    assert out[..0] == [] && out[0..] == out;
  }

  lemma {:induction false} Replays(rows: seq<Entry>, n: nat)
    requires Sorted(rows) && UniqueIds(rows) && Linked(rows) && n <= |rows|
    ensures AfterAll(rows[..n], Inserts(rows[n..])) == rows
    decreases |rows| - n
  {
    if n == |rows| {
      assert rows[..n] == rows && rows[n..] == [];
    } else {
      var e, ops := rows[n], Inserts(rows[n..]);
      assert ops[0] == Insert(e) && ops[1..] == Inserts(rows[n + 1..]);
      NextIsPermitted(rows, n);
      Replays(rows, n + 1);
    }
  }

  lemma NextIsPermitted(rows: seq<Entry>, n: nat)
    requires Sorted(rows) && UniqueIds(rows) && Linked(rows) && n < |rows|
    ensures After(rows[..n], Insert(rows[n])) == rows[..n + 1]
  {
    hide SortsBefore;
    NextSortsLast(rows, n);
    PlaceSplits(rows[..n], rows[n]);
    assert rows[n].prevHash == Head("", rows[..n]);
    assert rows[..n + 1] == rows[..n] + [rows[n]];
  }

  lemma NextSortsLast(rows: seq<Entry>, n: nat)
    requires Sorted(rows) && UniqueIds(rows) && n < |rows|
    ensures Sorted(rows[..n]) && FreshId(rows[..n], rows[n].row.id) && SortsLast(rows[..n], rows[n])
  {
  }

  predicate StampersAgree(f: Stamper, g: Stamper, log: seq<Entry>) {
    forall e | e in log :: f(e.prevHash, e.row) == g(e.prevHash, e.row)
  }

  lemma AcceptedByBoth(f: Stamper, g: Stamper, log: seq<Entry>)
    requires Accepts(f, log)
    ensures Accepts(g, log) <==> StampersAgree(f, g, log)
  {
    assert forall e | e in log :: Authentic(f, e);
  }

  lemma OneMoreRestamped(f: Stamper, rows: seq<Entry>, n: nat)
    requires n < |rows|
    ensures var done := Restamped(f, rows[..n]);
            var prev := Head("", done);
            Restamped(f, rows[..n + 1]) == done + [Entry(rows[n].row, prev, f(prev, rows[n].row))]
  {
    assert rows[..n + 1][..n] == rows[..n];
  }

  /** Every row with the id has the two hashes, and the others are as they were. */
  predicate Updated(was: seq<Entry>, now: seq<Entry>, id: string, prev: string, ent: string) {
    && |now| == |was|
    && forall i | 0 <= i < |now| :: now[i] == if was[i].row.id == id then Entry(was[i].row, prev, ent) else was[i]
  }

  /** The first `n` rows are restamped, the others as they were. */
  predicate HalfStamped(f: Stamper, snapshot: seq<Entry>, rows: seq<Entry>, n: nat) {
    && n <= |snapshot| == |rows| && rows[..n] == Restamped(f, snapshot[..n])
    && (forall i | n <= i < |rows| :: rows[i] == snapshot[i])
    && (forall i | 0 <= i < |rows| :: rows[i].row == snapshot[i].row)
  }

  lemma UpdateStamps(f: Stamper, snapshot: seq<Entry>, was: seq<Entry>, now: seq<Entry>, n: nat)
    requires UniqueIds(snapshot) && n < |snapshot| && HalfStamped(f, snapshot, was, n)
    requires var row, prev := snapshot[n].row, Head("", was[..n]); Updated(was, now, row.id, prev, f(prev, row))
    ensures HalfStamped(f, snapshot, now, n + 1) && Head("", now[..n + 1]) == f(Head("", was[..n]), snapshot[n].row)
  {
    var row, prev := snapshot[n].row, Head("", was[..n]);
    OneMoreRestamped(f, snapshot, n);
    forall i | 0 <= i < |now| && i != n ensures now[i] == was[i] {
      assert was[i].row == snapshot[i].row && snapshot[i].row.id != row.id;
    }
    assert now[..n] == was[..n];
    assert now[..n + 1] == was[..n] + [Entry(row, prev, f(prev, row))];
  }

  class AuditTable {
    var rows: seq<Entry>

    ghost predicate Valid()
      reads this
    {
      Sorted(rows) && UniqueIds(rows)
    }

    constructor ()
      ensures Valid() && rows == []
    {
      rows := [];
    }

    /** INSERT under the chain guard; UPDATE and DELETE always raise. */
    method Try(op: Attempt) returns (ok: bool)
      requires Valid()
      modifies this
      ensures Valid()
      ensures ok == Permitted(old(rows), op) && rows == After(old(rows), op)
    {
      match op {
        case Insert(e) =>
          var expectedPrev := if rows == [] then "" else rows[|rows| - 1].entryHash;
          var taken := exists i :: 0 <= i < |rows| && rows[i].row.id == e.row.id;
          if taken || e.prevHash != expectedPrev {
            return false;
          }
          InsertKeepsTable(rows, e);
          rows := Inserted(rows, e);
          return true;
        case _ =>
          return false;
      }
    }

    /** UPDATE ... SET prev_hash, entry_hash WHERE id, with the triggers off. */
    method SetHashes(id: string, prev: string, ent: string)
      modifies this
      ensures Updated(old(rows), rows, id, prev, ent)
    {
      var was := rows;
      rows := seq(|was|, i requires 0 <= i < |was| =>
        if was[i].row.id == id then Entry(was[i].row, prev, ent) else was[i]);
    }

    method Restamp(f: Stamper) returns (n: nat)
      requires Valid()
      modifies this
      ensures Valid() && n == |rows|
      ensures rows == Restamped(f, old(rows))
    {
      var snapshot := rows;
      var prev := "";
      n := 0;
      assert snapshot[..0] == [] && Restamped(f, []) == [];
      while n < |snapshot|
        invariant HalfStamped(f, snapshot, rows, n) && prev == Head("", rows[..n])
      {
        var row := snapshot[n].row;
        var ent := f(prev, row);
        ghost var was := rows;
        SetHashes(row.id, prev, ent);
        UpdateStamps(f, snapshot, was, rows, n);
        prev := ent;
        n := n + 1;
      }
      assert snapshot[..n] == snapshot && rows[..n] == rows;
    }
  }
}
