// The API side of drift: storing reports and paging on rising edges, choosing the latest report of
// a workspace, and retention, which deletes all but the newest reports of each.

module DriftReports {
  import opened Options
  import opened Texts

  datatype Counts = Counts(modified: int, untracked: int, deleted: int, mismatch: int)

  const NO_COUNTS := Counts(0, 0, 0, 0)

  function Plus(a: Counts, b: Counts): Counts {
    Counts(a.modified + b.modified, a.untracked + b.untracked, a.deleted + b.deleted, a.mismatch + b.mismatch)
  }

  datatype Report = Report(id: string, workspaceId: string, hasDrift: bool, counts: Counts, detectedAt: int)

  predicate DistinctIds(t: set<Report>) {
    forall a, b | a in t && b in t && a.id == b.id :: a == b
  }

  // ---------- Ingest ----------

  datatype Status = Unknown | Clean | Drifted

  datatype Workspace = Workspace(businessUnit: string, status: Status)

  datatype Body = Body(workspaceId: string, hasDrift: bool, driftChecked: bool, counts: Counts)

  /** `Internal` is the collector's route; `Submit` and `Scan` are the administrators'. */
  datatype Call =
    | Internal(path: string, body: Body, id: string, now: int)
    | Submit(path: string, body: Body, scope: Option<string>, id: string, now: int)
    | Scan(path: string, scope: Option<string>, id: string, now: int)

  datatype Outcome = Stored | WrongWorkspace | NotFound | Failed

  /** `pages` logs the bot-channel alerts of the collector's route, `mails` those of the other. */
  datatype Desk = Desk(workspaces: map<string, Workspace>, reports: set<Report>, pages: seq<string>, mails: seq<string>)

  predicate Visible(d: Desk, c: Call) {
    c.path in d.workspaces && (c.Internal? || c.scope.None? || d.workspaces[c.path].businessUnit == c.scope.value)
  }

  function Answer(d: Desk, c: Call): Outcome {
    if !c.Scan? && c.body.workspaceId != c.path then WrongWorkspace
    else if !Visible(d, c) then NotFound
    else if exists r :: r in d.reports && r.id == c.id then Failed
    else Stored
  }

  function StoredReport(c: Call): Report {
    if c.Scan? then Report(c.id, c.path, false, NO_COUNTS, c.now)
    else Report(c.id, c.path, c.body.hasDrift, c.body.counts, c.now)
  }

  predicate Sets(c: Call) {
    c.Submit? || (c.Internal? && c.body.driftChecked)
  }

  predicate SaysDrift(c: Call) {
    !c.Scan? && c.body.hasDrift
  }

  function Step(d: Desk, c: Call): Desk {
    if Answer(d, c) != Stored then d
    else
      var ws := d.workspaces[c.path];
      var status := if SaysDrift(c) then Drifted else Clean;
      var pages := c.Internal? && c.body.driftChecked && SaysDrift(c) && ws.status != Drifted;
      Desk(if Sets(c) then d.workspaces[c.path := ws.(status := status)] else d.workspaces,
           d.reports + {StoredReport(c)},
           if pages then d.pages + [c.path] else d.pages,
           if c.Submit? && SaysDrift(c) then d.mails + [c.path] else d.mails)
  }

  /** Which calls are answered how: a body of another workspace, one that is not there or not theirs, an id in use. */
  lemma AnswersExactly(d: Desk, c: Call)
    ensures var theirs := c.path in d.workspaces &&
                          (c.Internal? || c.scope.None? || c.scope.value == d.workspaces[c.path].businessUnit);
            var taken := exists r :: r in d.reports && r.id == c.id;
            && (Answer(d, c) == WrongWorkspace <==> !c.Scan? && c.body.workspaceId != c.path)
            && (Answer(d, c) == NotFound <==> (c.Scan? || c.body.workspaceId == c.path) && !theirs)
            && (Answer(d, c) == Failed <==> (c.Scan? || c.body.workspaceId == c.path) && theirs && taken)
            && (Answer(d, c) == Stored <==> (c.Scan? || c.body.workspaceId == c.path) && theirs && !taken)
            && (Answer(d, c) != Stored ==> Step(d, c) == d)
  {
  }

  /**
   * What a stored call does to the desk, route by route. The collector's decides the status when it could
   * look, and pages when that makes it drifted; the administrators' decides it always, and mails on
   * drift; a queued scan leaves both. The report has the body's finding and counts, or none.
   */
  lemma StoresExactly(d: Desk, c: Call)
    requires Answer(d, c) == Stored
    ensures var t, was := Step(d, c), d.workspaces[c.path];
            && t.workspaces.Keys == d.workspaces.Keys
            && (forall ws | ws in d.workspaces && ws != c.path :: t.workspaces[ws] == d.workspaces[ws])
            && match c
               case Internal(_, body, id, now) =>
                 && t.workspaces[c.path] == Workspace(was.businessUnit, if !body.driftChecked then was.status
                                                                        else if body.hasDrift then Drifted else Clean)
                 && t.reports == d.reports + {Report(id, c.path, body.hasDrift, body.counts, now)}
                 && t.pages == d.pages +
                    (if body.driftChecked && body.hasDrift && was.status in {Unknown, Clean} then [c.path] else [])
                 && t.mails == d.mails
               case Submit(_, body, _, id, now) =>
                 && t.workspaces[c.path] == Workspace(was.businessUnit, if body.hasDrift then Drifted else Clean)
                 && t.reports == d.reports + {Report(id, c.path, body.hasDrift, body.counts, now)}
                 && t.pages == d.pages && t.mails == d.mails + (if body.hasDrift then [c.path] else [])
               case Scan(_, _, id, now) =>
                 && t == d.(reports := d.reports + {Report(id, c.path, false, Counts(0, 0, 0, 0), now)})
  {
  }

  function After(d: Desk, calls: seq<Call>): Desk {
    if calls == [] then d else Step(After(d, calls[..|calls| - 1]), calls[|calls| - 1])
  }

  class DriftApi {
    var workspaces: map<string, Workspace>
    var reports: set<Report>
    var pages: seq<string>
    var mails: seq<string>

    ghost function State(): Desk
      reads this
    {
      Desk(workspaces, reports, pages, mails)
    }

    constructor (workspaces: map<string, Workspace>)
      ensures State() == Desk(workspaces, {}, [], [])
    {
      this.workspaces := workspaces;
      reports, pages, mails := {}, [], [];
    }

    method Store(r: Report) returns (ok: bool)
      modifies this`reports
      ensures ok == forall x | x in old(reports) :: x.id != r.id
      ensures reports == if ok then old(reports) + {r} else old(reports)
    {
      ok := forall x | x in reports :: x.id != r.id;
      if ok {
        reports := reports + {r};
      }
    }

    method SubmitInternal(path: string, body: Body, id: string, now: int) returns (r: Outcome)
      modifies this
      ensures r == Answer(old(State()), Internal(path, body, id, now))
      ensures State() == Step(old(State()), Internal(path, body, id, now))
    {
      if body.workspaceId != path {
        return WrongWorkspace;
      }
      if path !in workspaces {
        return NotFound;
      }
      var stored := Store(Report(id, path, body.hasDrift, body.counts, now));
      if !stored {
        return Failed;
      }
      var previous := workspaces[path].status;
      if body.driftChecked {
        workspaces := workspaces[path := workspaces[path].(status := if body.hasDrift then Drifted else Clean)];
      }
      if body.driftChecked && body.hasDrift && previous != Drifted {
        pages := pages + [path];
      }
      r := Outcome.Stored;
    }

    method SubmitReport(path: string, body: Body, scope: Option<string>, id: string, now: int) returns (r: Outcome)
      modifies this
      ensures r == Answer(old(State()), Submit(path, body, scope, id, now))
      ensures State() == Step(old(State()), Submit(path, body, scope, id, now))
    {
      if body.workspaceId != path {
        return WrongWorkspace;
      }
      if path !in workspaces || (scope.Some? && workspaces[path].businessUnit != scope.value) {
        return NotFound;
      }
      var stored := Store(Report(id, path, body.hasDrift, body.counts, now));
      if !stored {
        return Failed;
      }
      workspaces := workspaces[path := workspaces[path].(status := if body.hasDrift then Drifted else Clean)];
      if body.hasDrift {
        mails := mails + [path];
      }
      r := Outcome.Stored;
    }

    method TriggerScan(path: string, scope: Option<string>, id: string, now: int) returns (r: Outcome)
      modifies this
      ensures r == Answer(old(State()), Scan(path, scope, id, now))
      ensures State() == Step(old(State()), Scan(path, scope, id, now))
    {
      if path !in workspaces || (scope.Some? && workspaces[path].businessUnit != scope.value) {
        return NotFound;
      }
      var stored := Store(Report(id, path, false, NO_COUNTS, now));
      r := if stored then Outcome.Stored else Failed;
    }

    /** One bounded delete; `limit` is the database's choice of at most `batch` of the rows to go. */
    method PruneDriftReports(keep: int, batch: int, limit: Limit) returns (deleted: nat)
      requires IsLimit(limit)
      modifies this`reports
      ensures var gone := limit(Victims(old(reports), AtLeastOne(keep)), AtLeastOne(batch));
              reports == old(reports) - gone && deleted == |gone|
    {
      var gone := limit(Victims(reports, AtLeastOne(keep)), AtLeastOne(batch));
      reports := reports - gone;
      deleted := |gone|;
    }

    /**
     * The sweep, followed for at most `rounds` batches. However the batches fall, it spares the newest
     * `keep` reports of every workspace, and when it ends it has left exactly these. With a setting of
     * at least one it ends; below that it never does, because no batch is short.
     */
    method RetentionSweep(keep: int, batch: int, limit: Limit, rounds: nat) returns (total: nat, ended: bool)
      requires IsLimit(limit) && DistinctIds(reports)
      modifies this`reports
      ensures Kept(old(reports), AtLeastOne(keep)) <= reports <= old(reports)
      ensures total == |old(reports)| - |reports|
      ensures ended ==> reports == Kept(old(reports), AtLeastOne(keep))
      ensures batch >= 1 && rounds > |old(reports)| ==> ended
      ensures batch < 1 ==> !ended
    {
      total, ended := 0, false;
      ghost var start := reports;
      var round := 0;
      while !ended && round < rounds
        invariant Kept(start, AtLeastOne(keep)) <= reports <= start && total + |reports| == |start|
        invariant round <= rounds && (ended ==> batch >= 1 && reports == Kept(start, AtLeastOne(keep)))
        invariant batch >= 1 && !ended ==> round <= total
      {
        SweepStep(start, reports, limit(Victims(reports, AtLeastOne(keep)), AtLeastOne(batch)),
                  AtLeastOne(keep), AtLeastOne(batch));
        var n := PruneDriftReports(keep, batch, limit);
        total := total + n;
        ended := n < batch;
        round := round + 1;
      }
    }
  }

  // ---------- Pages are rising edges ----------

  /** The `k`th call is the one that gave the workspace its status. */
  predicate SetsAt(d: Desk, calls: seq<Call>, k: nat, ws: string) {
    k < |calls| && calls[k].path == ws && Sets(calls[k]) && Answer(After(d, calls[..k]), calls[k]) == Stored
  }

  predicate PagesAt(d: Desk, calls: seq<Call>, n: nat) {
    && n < |calls| && calls[n].Internal? && Answer(After(d, calls[..n]), calls[n]) == Stored
    && calls[n].body.driftChecked && calls[n].body.hasDrift
    && calls[n].path in After(d, calls[..n]).workspaces
    && After(d, calls[..n]).workspaces[calls[n].path].status != Drifted
  }

  /** Of the first `n` calls the last that set the status said drift, or none set it and it was drifted before. */
  predicate LastSaidDrift(d: Desk, calls: seq<Call>, n: nat, ws: string)
    requires n <= |calls| && ws in d.workspaces
  {
    || (exists k :: 0 <= k < n && LastSetAt(d, calls, k, n, ws) && SaysDrift(calls[k]))
    || ((forall j | 0 <= j < n :: !SetsAt(d, calls, j, ws)) && d.workspaces[ws].status == Drifted)
  }

  predicate LastSetAt(d: Desk, calls: seq<Call>, k: nat, n: nat, ws: string) {
    SetsAt(d, calls, k, ws) && forall j | k < j < n :: !SetsAt(d, calls, j, ws)
  }

  lemma {:induction false} SameWorkspaces(d: Desk, calls: seq<Call>)
    ensures After(d, calls).workspaces.Keys == d.workspaces.Keys
  {
    if calls != [] {
      SameWorkspaces(d, calls[..|calls| - 1]);
    }
  }

  lemma {:induction false} StatusRemembers(d: Desk, calls: seq<Call>, n: nat, ws: string)
    requires n <= |calls| && ws in d.workspaces
    ensures ws in After(d, calls[..n]).workspaces
    ensures After(d, calls[..n]).workspaces[ws].status == Drifted <==> LastSaidDrift(d, calls, n, ws)
  {
    SameWorkspaces(d, calls[..n]);
    if n > 0 {
      StatusRemembers(d, calls, n - 1, ws);
      assert calls[..n][..n - 1] == calls[..n - 1];
      OneMoreCall(d, calls, n, ws);
    }
  }

  lemma StatusStep(d: Desk, calls: seq<Call>, n: nat, ws: string)
    requires 0 < n <= |calls| && ws in After(d, calls[..n - 1]).workspaces
    ensures var was := After(d, calls[..n - 1]).workspaces[ws];
            && ws in After(d, calls[..n]).workspaces
            && After(d, calls[..n]).workspaces[ws] == if !SetsAt(d, calls, n - 1, ws) then was
                                                      else if SaysDrift(calls[n - 1]) then was.(status := Drifted)
                                                      else was.(status := Clean)
  {
    assert calls[..n][..n - 1] == calls[..n - 1];
  }

  lemma {:induction false} StatusSince(d: Desk, calls: seq<Call>, k: nat, n: nat, ws: string)
    requires k < n <= |calls| && ws in d.workspaces && LastSetAt(d, calls, k, n, ws)
    ensures ws in After(d, calls[..n]).workspaces
    ensures After(d, calls[..n]).workspaces[ws].status == if SaysDrift(calls[k]) then Drifted else Clean
  {
    SameWorkspaces(d, calls[..n - 1]);
    if k < n - 1 {
      StatusSince(d, calls, k, n - 1, ws);
    }
    StatusStep(d, calls, n, ws);
  }

  lemma {:induction false} StatusUnset(d: Desk, calls: seq<Call>, n: nat, ws: string)
    requires n <= |calls| && ws in d.workspaces && forall k | 0 <= k < n :: !SetsAt(d, calls, k, ws)
    ensures ws in After(d, calls[..n]).workspaces && After(d, calls[..n]).workspaces[ws] == d.workspaces[ws]
  {
    if n == 0 {
      assert calls[..0] == [];
    } else {
      StatusUnset(d, calls, n - 1, ws);
      StatusStep(d, calls, n, ws);
    }
  }

  /** The last accepted call that set a status gave it, drifted or clean; before any did it is what it was. */
  lemma StatusExactly(d: Desk, calls: seq<Call>, n: nat, ws: string)
    requires n <= |calls| && ws in d.workspaces
    ensures ws in After(d, calls[..n]).workspaces
    ensures forall k | 0 <= k < n && LastSetAt(d, calls, k, n, ws) ::
              After(d, calls[..n]).workspaces[ws].status == if SaysDrift(calls[k]) then Drifted else Clean
    ensures (forall k | 0 <= k < n :: !SetsAt(d, calls, k, ws)) ==>
              After(d, calls[..n]).workspaces[ws] == d.workspaces[ws]
  {
    SameWorkspaces(d, calls[..n]);
    hide After, SetsAt, SaysDrift;
    forall k | 0 <= k < n && LastSetAt(d, calls, k, n, ws)
      ensures After(d, calls[..n]).workspaces[ws].status == if SaysDrift(calls[k]) then Drifted else Clean
    {
      StatusSince(d, calls, k, n, ws);
    }
    if forall k | 0 <= k < n :: !SetsAt(d, calls, k, ws) {
      StatusUnset(d, calls, n, ws);
    }
  }

  lemma OneMoreCall(d: Desk, calls: seq<Call>, n: nat, ws: string)
    requires 0 < n <= |calls| && ws in d.workspaces
    ensures LastSaidDrift(d, calls, n, ws) <==>
            if SetsAt(d, calls, n - 1, ws) then SaysDrift(calls[n - 1]) else LastSaidDrift(d, calls, n - 1, ws)
  {
    if SetsAt(d, calls, n - 1, ws) {
      assert LastSetAt(d, calls, n - 1, n, ws);
    } else {
      forall k | 0 <= k < n - 1 ensures LastSetAt(d, calls, k, n, ws) <==> LastSetAt(d, calls, k, n - 1, ws) {
      }
    }
  }

  /** A page goes out exactly at a checked drifted report whose last status-setting predecessor did not say drift. */
  lemma PagesAreRisingEdges(d: Desk, calls: seq<Call>, n: nat)
    requires n < |calls|
    ensures PagesAt(d, calls, n) <==>
            && calls[n].Internal? && Answer(After(d, calls[..n]), calls[n]) == Stored && calls[n].path in d.workspaces
            && calls[n].body.driftChecked && calls[n].body.hasDrift && !LastSaidDrift(d, calls, n, calls[n].path)
    ensures After(d, calls[..n + 1]).pages ==
            After(d, calls[..n]).pages + if PagesAt(d, calls, n) then [calls[n].path] else []
  {
    SameWorkspaces(d, calls[..n]);
    if calls[n].path in d.workspaces {
      StatusRemembers(d, calls, n, calls[n].path);
    }
    assert calls[..n + 1][..n] == calls[..n];
  }

  /** Between two pages for a workspace some report said it was clean. */
  lemma CleanBetweenPages(d: Desk, calls: seq<Call>, m: nat, n: nat)
    requires m < n && PagesAt(d, calls, m) && PagesAt(d, calls, n) && calls[m].path == calls[n].path
    ensures exists k :: m < k < n && SetsAt(d, calls, k, calls[m].path) && !SaysDrift(calls[k])
  {
    var ws := calls[m].path;
    SameWorkspaces(d, calls[..m]);
    StatusRemembers(d, calls, n, ws);
    var k := LastSetter(d, calls, m, n, ws);
    assert LastSetAt(d, calls, k, n, ws);
  }

  lemma {:induction false} LastSetter(d: Desk, calls: seq<Call>, m: nat, n: nat, ws: string) returns (k: nat)
    requires m < n <= |calls| && SetsAt(d, calls, m, ws)
    ensures m <= k < n && LastSetAt(d, calls, k, n, ws)
    decreases n
  {
    if SetsAt(d, calls, n - 1, ws) {
      k := n - 1;
    } else {
      k := LastSetter(d, calls, m, n - 1, ws);
    }
  }

  /** A report of a scan that could not look is stored and does nothing else. */
  lemma UncheckedIsQuiet(d: Desk, c: Call)
    requires c.Internal? && !c.body.driftChecked
    ensures Step(d, c) == d.(reports := Step(d, c).reports)
    ensures Step(d, c).reports == if Answer(d, c) == Stored then d.reports + {StoredReport(c)} else d.reports
  {
  }

  lemma {:induction false} IdsStayDistinct(d: Desk, calls: seq<Call>)
    requires DistinctIds(d.reports)
    ensures DistinctIds(After(d, calls).reports)
  {
    if calls != [] {
      IdsStayDistinct(d, calls[..|calls| - 1]);
    }
  }

  // ---------- The latest report ----------

  /** By time, and by id where times agree. */
  predicate Newer(a: Report, b: Report) {
    a.detectedAt > b.detectedAt || (a.detectedAt == b.detectedAt && Less(b.id, a.id))
  }

  lemma NewerIsTotal(a: Report, b: Report)
    ensures a.id != b.id ==> Newer(a, b) || Newer(b, a)
    ensures !(Newer(a, b) && Newer(b, a)) && !Newer(a, a)
  {
    LessTrichotomy(a.id, b.id);
    LessTrichotomy(a.id, a.id);
  }

  lemma NewerIsTransitive(a: Report, b: Report, c: Report)
    requires Newer(a, b) && Newer(b, c)
    ensures Newer(a, c)
  {
    if a.detectedAt == b.detectedAt == c.detectedAt {
      LessTransitive(c.id, b.id, a.id);
    }
  }

  function Of(t: set<Report>, ws: string): set<Report> {
    set r | r in t && r.workspaceId == ws
  }

  predicate IsNewest(s: set<Report>, r: Report) {
    r in s && forall x | x in s :: x == r || Newer(r, x)
  }

  lemma {:induction false} NewestExists(s: set<Report>)
    requires s != {} && DistinctIds(s)
    ensures exists m :: IsNewest(s, m)
    decreases |s|
  {
    var r :| r in s;
    var rest := s - {r};
    if rest == {} {
      assert s == {r};
      assert IsNewest(s, r);
    } else {
      NewestExists(rest);
      var m :| IsNewest(rest, m);
      NewerIsTotal(r, m);
      if Newer(r, m) {
        forall x | x in rest ensures Newer(r, x) {
          if x != m {
            NewerIsTransitive(r, m, x);
          }
        }
        assert IsNewest(s, r);
      } else {
        assert IsNewest(s, m);
      }
    }
  }

  /** The report that is greatest by time and id, over the whole history of the workspace. */
  ghost function Latest(t: set<Report>, ws: string): Option<Report> {
    NewestIn(Of(t, ws))
  }

  ghost function NewestIn(s: set<Report>): Option<Report> {
    if r :| IsNewest(s, r) then Some(r) else None
  }

  lemma LatestExactly(t: set<Report>, ws: string, r: Report)
    requires DistinctIds(t)
    ensures Latest(t, ws) == Some(r) <==> IsNewest(Of(t, ws), r)
    ensures Latest(t, ws).None? <==> Of(t, ws) == {}
    ensures Latest(t, ws) == Some(r) <==>
            && r in t && r.workspaceId == ws
            && forall x | x in t && x.workspaceId == ws && x != r ::
                 x.detectedAt < r.detectedAt || (x.detectedAt == r.detectedAt && Less(x.id, r.id))
  {
    forall a, b | IsNewest(Of(t, ws), a) && IsNewest(Of(t, ws), b) ensures a == b {
      NewerIsTotal(a, b);
    }
    if Of(t, ws) != {} {
      NewestExists(Of(t, ws));
    }
    NewestExactly(t, ws, r);
  }

  lemma NewestExactly(t: set<Report>, ws: string, r: Report)
    ensures IsNewest(Of(t, ws), r) <==>
            && r in t && r.workspaceId == ws
            && forall x | x in t && x.workspaceId == ws && x != r ::
                 x.detectedAt < r.detectedAt || (x.detectedAt == r.detectedAt && Less(x.id, r.id))
  {
    forall x ensures x in Of(t, ws) <==> x in t && x.workspaceId == ws {
    }
  }

  /** The subquery: the greatest time of each of the workspaces. */
  function MaxTimes(t: set<Report>, ids: seq<string>): set<(string, int)> {
    set r | r in t && r.workspaceId in ids && forall x | x in Of(t, r.workspaceId) :: x.detectedAt <= r.detectedAt ::
      (r.workspaceId, r.detectedAt)
  }

  /** The reports joined to it. */
  function Joined(t: set<Report>, ids: seq<string>): set<Report> {
    set r | r in t && (r.workspaceId, r.detectedAt) in MaxTimes(t, ids)
  }

  /** What the query may return: the joined rows by workspace, and by id descending within one. */
  predicate IsAnswer(t: set<Report>, ids: seq<string>, rows: seq<Report>) {
    && (forall r | r in rows :: r in Joined(t, ids)) && (forall r | r in Joined(t, ids) :: r in rows)
    && (forall i, j | 0 <= i < j < |rows| ::
          Less(rows[i].workspaceId, rows[j].workspaceId)
          || (rows[i].workspaceId == rows[j].workspaceId && Less(rows[j].id, rows[i].id)))
  }

  /** The dictionary keeps the first row of every workspace. */
  predicate KeepsFirst(latest: map<string, Report>, rows: seq<Report>) {
    && (forall r | r in rows :: r.workspaceId in latest)
    && (forall ws | ws in latest :: latest[ws] in rows && latest[ws].workspaceId == ws)
    && (forall r | r in rows :: r == latest[r.workspaceId] || Less(r.id, latest[r.workspaceId].id))
  }

  method LatestReports(t: set<Report>, ids: seq<string>, rows: seq<Report>) returns (latest: map<string, Report>)
    requires DistinctIds(t) && IsAnswer(t, ids, rows)
    ensures latest.Keys == set ws | ws in ids && Latest(t, ws).Some?
    ensures forall ws | ws in latest :: Latest(t, ws) == Some(latest[ws])
  {
    latest := map[];
    if ids != [] {
      for n := 0 to |rows|
        invariant KeepsFirst(latest, rows[..n])
      {
        assert rows[..n + 1] == rows[..n] + [rows[n]];
        assert forall r | r in rows[..n] :: r.workspaceId == rows[n].workspaceId ==> Less(rows[n].id, r.id) by {
          forall r | r in rows[..n] && r.workspaceId == rows[n].workspaceId ensures Less(rows[n].id, r.id) {
            var i :| 0 <= i < n && rows[..n][i] == r;
            LessTrichotomy(r.workspaceId, r.workspaceId);
          }
        }
        if rows[n].workspaceId !in latest {
          latest := latest[rows[n].workspaceId := rows[n]];
        }
      }
      assert rows[..|rows|] == rows;
    }
    AnswerIsLatest(t, ids, rows, latest);
  }

  lemma AnswerIsLatest(t: set<Report>, ids: seq<string>, rows: seq<Report>, latest: map<string, Report>)
    requires DistinctIds(t) && IsAnswer(t, ids, rows)
    requires if ids == [] then latest == map[] else KeepsFirst(latest, rows)
    ensures latest.Keys == set ws | ws in ids && Latest(t, ws).Some?
    ensures forall ws | ws in latest :: Latest(t, ws) == Some(latest[ws])
  {
    forall ws | ws in latest ensures ws in ids && Latest(t, ws) == Some(latest[ws]) {
      FirstRowIsNewest(t, ids, rows, latest, ws);
      LatestExactly(t, ws, latest[ws]);
    }
    forall ws | ws in ids && Latest(t, ws).Some? ensures ws in latest {
      LatestExactly(t, ws, Latest(t, ws).value);
      NewestIsJoined(t, ids, ws, Latest(t, ws).value);
    }
  }

  lemma NewestIsJoined(t: set<Report>, ids: seq<string>, ws: string, r: Report)
    requires ws in ids && IsNewest(Of(t, ws), r)
    ensures r in Joined(t, ids)
  {
    assert (r.workspaceId, r.detectedAt) in MaxTimes(t, ids);
  }

  lemma FirstRowIsNewest(t: set<Report>, ids: seq<string>, rows: seq<Report>, latest: map<string, Report>, ws: string)
    requires DistinctIds(t) && IsAnswer(t, ids, rows) && KeepsFirst(latest, rows) && ws in latest
    ensures ws in ids && IsNewest(Of(t, ws), latest[ws])
  {
    var m := latest[ws];
    assert m in Joined(t, ids);
    forall x | x in Of(t, ws) ensures x == m || Newer(m, x) {
      assert x.detectedAt <= m.detectedAt;
      if x.detectedAt == m.detectedAt {
        assert x in Joined(t, ids);
      }
    }
  }

  // ---------- The summary ----------

  datatype Listed = Listed(id: string, status: Status)

  datatype Summary = Summary(counts: Counts, total: nat, drifted: nat, rows: seq<(string, Counts)>)

  ghost function CountsOf(t: set<Report>, ws: string): Counts {
    var latest := Latest(t, ws);
    if latest.Some? then latest.value.counts else NO_COUNTS
  }

  ghost function TotalCounts(t: set<Report>, workspaces: seq<Listed>): Counts {
    if workspaces == [] then NO_COUNTS
    else Plus(TotalCounts(t, workspaces[..|workspaces| - 1]), CountsOf(t, workspaces[|workspaces| - 1].id))
  }

  function Sum(numbers: seq<int>): int {
    if numbers == [] then 0 else Sum(numbers[..|numbers| - 1]) + numbers[|numbers| - 1]
  }

  ghost function EachCount(t: set<Report>, workspaces: seq<Listed>, part: Counts -> int): seq<int> {
    seq(|workspaces|, i requires 0 <= i < |workspaces| => part(CountsOf(t, workspaces[i].id)))
  }

  /** Each total is the sum of that number over the latest reports of the workspaces. */
  lemma {:induction false} TotalsAreSums(t: set<Report>, workspaces: seq<Listed>)
    ensures var totals := TotalCounts(t, workspaces);
            && totals.modified == Sum(EachCount(t, workspaces, (c: Counts) => c.modified))
            && totals.untracked == Sum(EachCount(t, workspaces, (c: Counts) => c.untracked))
            && totals.deleted == Sum(EachCount(t, workspaces, (c: Counts) => c.deleted))
            && totals.mismatch == Sum(EachCount(t, workspaces, (c: Counts) => c.mismatch))
  {
    if workspaces != [] {
      TotalsAreSums(t, workspaces[..|workspaces| - 1]);
      OneMoreCount(t, workspaces, (c: Counts) => c.modified);
      OneMoreCount(t, workspaces, (c: Counts) => c.untracked);
      OneMoreCount(t, workspaces, (c: Counts) => c.deleted);
      OneMoreCount(t, workspaces, (c: Counts) => c.mismatch);
    }
  }

  lemma OneMoreCount(t: set<Report>, workspaces: seq<Listed>, part: Counts -> int)
    requires workspaces != []
    ensures var n := |workspaces| - 1;
            Sum(EachCount(t, workspaces, part)) ==
            Sum(EachCount(t, workspaces[..n], part)) + part(CountsOf(t, workspaces[n].id))
  {
    var n := |workspaces| - 1;
    assert EachCount(t, workspaces, part)[..n] == EachCount(t, workspaces[..n], part);
  }

  function DriftedIn(workspaces: seq<Listed>): nat {
    if workspaces == [] then 0
    else DriftedIn(workspaces[..|workspaces| - 1]) + if workspaces[|workspaces| - 1].status == Drifted then 1 else 0
  }

  lemma {:induction false} DriftedExactly(workspaces: seq<Listed>)
    ensures DriftedIn(workspaces) == |set i: nat | i < |workspaces| && workspaces[i].status == Drifted|
  {
    var drifted := set i: nat | i < |workspaces| && workspaces[i].status == Drifted;
    if workspaces == [] {
      assert drifted == {};
    } else {
      var n := |workspaces| - 1;
      DriftedExactly(workspaces[..n]);
      var before := set i: nat | i < n && workspaces[..n][i].status == Drifted;
      assert drifted == before + if workspaces[n].status == Drifted then {n} else {};
    }
  }

  ghost function RowsOf(t: set<Report>, workspaces: seq<Listed>): seq<(string, Counts)> {
    seq(|workspaces|, i requires 0 <= i < |workspaces| => (workspaces[i].id, CountsOf(t, workspaces[i].id)))
  }

  /** What the summary must say of the first workspaces of its list. */
  ghost predicate Summarizes(out: Summary, t: set<Report>, workspaces: seq<Listed>) {
    && out.counts == TotalCounts(t, workspaces) && out.rows == RowsOf(t, workspaces)
    && out.total == |workspaces| && out.drifted == DriftedIn(workspaces)
  }

  function IdsOf(workspaces: seq<Listed>): seq<string> {
    seq(|workspaces|, i requires 0 <= i < |workspaces| => workspaces[i].id)
  }

  method DriftSummary(t: set<Report>, workspaces: seq<Listed>, rows: seq<Report>) returns (out: Summary)
    requires DistinctIds(t) && IsAnswer(t, IdsOf(workspaces), rows)
    ensures Summarizes(out, t, workspaces)
  {
    var latest := LatestReports(t, IdsOf(workspaces), rows);
    out := Summary(NO_COUNTS, |workspaces|, 0, []);
    assert workspaces[..0] == [] && RowsOf(t, []) == [];
    for n := 0 to |workspaces|
      invariant out.total == |workspaces| && Summarizes(out.(total := n), t, workspaces[..n])
    {
      var ws := workspaces[n];
      assert IdsOf(workspaces)[n] == ws.id;
      var counts := if ws.id in latest then latest[ws.id].counts else NO_COUNTS;
      OneMoreRow(out.(total := n), t, workspaces, n);
      out := out.(rows := out.rows + [(ws.id, counts)], counts := Plus(out.counts, counts));
      if ws.status == Drifted {
        out := out.(drifted := out.drifted + 1);
      }
    }
    assert workspaces[..|workspaces|] == workspaces;
  }

  lemma OneMoreRow(out: Summary, t: set<Report>, workspaces: seq<Listed>, n: nat)
    requires n < |workspaces| && Summarizes(out, t, workspaces[..n])
    ensures var counts := CountsOf(t, workspaces[n].id);
            Summarizes(Summary(Plus(out.counts, counts), n + 1,
                               out.drifted + if workspaces[n].status == Drifted then 1 else 0,
                               out.rows + [(workspaces[n].id, counts)]),
                       t, workspaces[..n + 1])
  {
    assert workspaces[..n + 1][..n] == workspaces[..n];
    assert RowsOf(t, workspaces[..n + 1]) == RowsOf(t, workspaces[..n]) +
           [(workspaces[n].id, CountsOf(t, workspaces[n].id))];
  }

  // ---------- Retention ----------

  function AtLeastOne(n: int): nat {
    if n >= 1 then n else 1
  }

  function NewerThan(t: set<Report>, r: Report): set<Report> {
    set x | x in t && x.workspaceId == r.workspaceId && Newer(x, r)
  }

  /** The rows whose number within their workspace, newest first, is at most `keep`. */
  function Kept(t: set<Report>, keep: nat): set<Report> {
    set r | r in t && |NewerThan(t, r)| < keep
  }

  predicate IsOldest(s: set<Report>, r: Report) {
    r in s && forall x | x in s :: x == r || Newer(x, r)
  }

  lemma {:induction false} OldestExists(s: set<Report>)
    requires s != {} && DistinctIds(s)
    ensures exists m :: IsOldest(s, m)
    decreases |s|
  {
    var r :| r in s;
    var rest := s - {r};
    if rest == {} {
      assert s == {r};
      assert IsOldest(s, r);
    } else {
      OldestExists(rest);
      var m :| IsOldest(rest, m);
      NewerIsTotal(r, m);
      if Newer(m, r) {
        forall x | x in rest ensures Newer(x, r) {
          if x != m {
            NewerIsTransitive(x, m, r);
          }
        }
        assert IsOldest(s, r);
      } else {
        assert IsOldest(s, m);
      }
    }
  }

  /** The members of `s` that have fewer than `keep` newer ones. */
  function Top(s: set<Report>, keep: nat): set<Report> {
    set r | r in s && |NewerIn(s, r)| < keep
  }

  function NewerIn(s: set<Report>, r: Report): set<Report> {
    set x | x in s && Newer(x, r)
  }

  lemma {:induction false} TopSize(s: set<Report>, keep: nat)
    requires DistinctIds(s)
    ensures |Top(s, keep)| == if |s| <= keep then |s| else keep
    decreases |s|
  {
    if s == {} {
      assert Top(s, keep) == {};
    } else {
      OldestExists(s);
      var m :| IsOldest(s, m);
      TopSize(s - {m}, keep);
      OldestLast(s, m, keep);
    }
  }

  lemma OldestLast(s: set<Report>, m: Report, keep: nat)
    requires DistinctIds(s) && IsOldest(s, m)
    ensures Top(s, keep) == Top(s - {m}, keep) + if |s| - 1 < keep then {m} else {}
  {
    NewerIsTotal(m, m);
    assert NewerIn(s, m) == s - {m};
    forall r | r in s && r != m ensures NewerIn(s, r) == NewerIn(s - {m}, r) {
      NewerIsTotal(r, m);
    }
  }

  /**
   * What retention keeps of each workspace: as many reports as it may, or all there are, and each of
   * them newer than every one it does not keep.
   */
  lemma KeptAreTheNewest(t: set<Report>, keep: nat, ws: string)
    requires DistinctIds(t)
    ensures |Of(Kept(t, keep), ws)| == if |Of(t, ws)| <= keep then |Of(t, ws)| else keep
    ensures Kept(t, keep) <= t
    ensures forall a, b | a in Of(Kept(t, keep), ws) && b in Of(t, ws) && b !in Kept(t, keep) :: Newer(a, b)
  {
    var s := Of(t, ws);
    TopSize(s, keep);
    forall r | r in s ensures NewerThan(t, r) == NewerIn(s, r) {
    }
    assert Of(Kept(t, keep), ws) == Top(s, keep);
    forall a, b | a in Top(s, keep) && b in s && b !in Top(s, keep) ensures Newer(a, b) {
      NewerIsTotal(a, b);
      if Newer(b, a) {
        forall x | x in NewerIn(s, b) ensures x in NewerIn(s, a) {
          NewerIsTransitive(x, b, a);
        }
        SmallerSet(NewerIn(s, b), NewerIn(s, a));
      }
    }
  }

  function Victims(t: set<Report>, keep: nat): set<Report> {
    t - Kept(t, keep)
  }

  /** A LIMIT without an order: the database takes any rows, as many as it may. */
  type Limit = (set<Report>, nat) -> set<Report>

  predicate Limited(s: set<Report>, n: nat, out: set<Report>) {
    out <= s && |out| == if |s| <= n then |s| else n
  }

  ghost predicate IsLimit(limit: Limit) {
    forall s: set<Report>, n: nat :: Limited(s, n, limit(s, n))
  }

  lemma SmallerSet<T>(a: set<T>, b: set<T>)
    requires a <= b
    ensures |a| <= |b| && |b - a| == |b| - |a|
  {
    assert b == a + (b - a);
  }

  lemma WholeSubset(a: set<Report>, b: set<Report>)
    requires a <= b && |a| == |b|
    ensures a == b
  {
    SmallerSet(a, b);
    assert b == a + (b - a);
  }

  /** One batch of a sweep: it spares the rows to keep, and a batch that is not full was the last. */
  lemma SweepStep(start: set<Report>, now: set<Report>, gone: set<Report>, keep: nat, batch: nat)
    requires DistinctIds(start) && Kept(start, keep) <= now <= start && Limited(Victims(now, keep), batch, gone)
    ensures Kept(start, keep) <= now - gone <= start && |now - gone| == |now| - |gone|
    ensures |gone| < batch ==> now - gone == Kept(start, keep)
  {
    KeptIsStable(start, now, keep);
    SmallerSet(gone, now);
    if |gone| < batch {
      WholeSubset(gone, Victims(now, keep));
    }
  }

  /** What one batch leaves. */
  function AfterBatch(t: set<Report>, keep: int, batch: int, limit: Limit): set<Report> {
    t - limit(Victims(t, AtLeastOne(keep)), AtLeastOne(batch))
  }

  /** The loop's test of how many rows a batch deleted. */
  predicate IsShort(t: set<Report>, keep: int, batch: int, limit: Limit) {
    |limit(Victims(t, AtLeastOne(keep)), AtLeastOne(batch))| < batch
  }

  function Iterate<S>(next: S -> S, s: S, n: nat): S {
    if n == 0 then s else Iterate(next, next(s), n - 1)
  }

  /** After `n` full batches a sweep makes its last. */
  predicate EndsAt(t: set<Report>, keep: int, batch: int, limit: Limit, n: nat) {
    IsShort(Iterate(s => AfterBatch(s, keep, batch, limit), t, n), keep, batch, limit)
  }

  lemma BatchShrinks(t: set<Report>, keep: int, batch: int, limit: Limit)
    requires IsLimit(limit) && batch >= 1 && !IsShort(t, keep, batch, limit)
    ensures |AfterBatch(t, keep, batch, limit)| < |t|
  {
    var gone := limit(Victims(t, AtLeastOne(keep)), AtLeastOne(batch));
    assert Limited(Victims(t, AtLeastOne(keep)), AtLeastOne(batch), gone);
    SmallerSet(gone, t);
  }

  lemma {:induction false} Shrinking(next: set<Report> -> set<Report>, last: set<Report> -> bool, t: set<Report>)
    returns (n: nat)
    requires forall s: set<Report> :: last(s) || |next(s)| < |s|
    ensures last(Iterate(next, t, n))
    decreases |t|
  {
    if last(t) {
      n := 0;
    } else {
      n := Shrinking(next, last, next(t));
      n := n + 1;
    }
  }

  /** The sweep ends exactly when the batch setting is at least one: below that no batch is ever short. */
  lemma SweepEndsExactly(t: set<Report>, keep: int, batch: int, limit: Limit)
    requires IsLimit(limit)
    ensures (exists n: nat :: EndsAt(t, keep, batch, limit, n)) <==> batch >= 1
  {
    if batch >= 1 {
      var next: set<Report> -> set<Report> := s => AfterBatch(s, keep, batch, limit);
      var last: set<Report> -> bool := s => IsShort(s, keep, batch, limit);
      forall s: set<Report> ensures last(s) || |next(s)| < |s| {
        if !IsShort(s, keep, batch, limit) {
          BatchShrinks(s, keep, batch, limit);
        }
      }
      var n := Shrinking(next, last, t);
      assert EndsAt(t, keep, batch, limit, n);
    }
  }

  /** A row with `keep` newer ones has `keep` newer ones among those that stay. */
  lemma NewestStandIn(t: set<Report>, r: Report, keep: nat)
    requires DistinctIds(t) && r in t && |NewerThan(t, r)| >= keep
    ensures |NewerThan(t, r) * Kept(t, keep)| >= keep
  {
    var newer := NewerThan(t, r);
    var others := newer - Kept(t, keep);
    if others != {} {
      NewestExists(others);
      var x :| IsNewest(others, x);
      forall y | y in NewerThan(t, x) ensures y in newer * Kept(t, keep) {
        NewerIsTransitive(y, x, r);
        NewerIsTotal(x, y);
      }
      SmallerSet(NewerThan(t, x), newer * Kept(t, keep));
    } else {
      assert forall y | y in newer :: y !in others;
      assert newer * Kept(t, keep) == newer;
    }
  }

  /** Deleting rows beyond the newest `keep` never moves another row across the line. */
  lemma KeptIsStable(t: set<Report>, smaller: set<Report>, keep: nat)
    requires DistinctIds(t) && Kept(t, keep) <= smaller <= t
    ensures Kept(smaller, keep) == Kept(t, keep)
  {
    forall r | r in smaller ensures r in Kept(smaller, keep) <==> r in Kept(t, keep) {
      if r in Kept(t, keep) {
        SmallerSet(NewerThan(smaller, r), NewerThan(t, r));
      } else {
        NewestStandIn(t, r, keep);
        SmallerSet(NewerThan(t, r) * Kept(t, keep), NewerThan(smaller, r));
      }
    }
  }

  lemma {:induction false} LatestIsKept(t: set<Report>, ws: string, r: Report, keep: nat)
    requires IsNewest(Of(t, ws), r) && keep >= 1
    ensures r in Kept(t, keep)
  {
    forall x | x in NewerThan(t, r) ensures false {
      assert x in Of(t, ws);
      NewerIsTotal(x, r);
    }
    assert NewerThan(t, r) == {};
  }

  datatype Change = Add(report: Report) | Prune(keep: int, batch: int, gone: set<Report>)

  /** Each prune deletes what its limit allows, and each added report has a new id. */
  predicate Possible(t: set<Report>, c: Change) {
    match c
    case Add(r) => forall x | x in t :: x.id != r.id
    case Prune(keep, batch, gone) => Limited(Victims(t, AtLeastOne(keep)), AtLeastOne(batch), gone)
  }

  function Changed(t: set<Report>, c: Change): set<Report> {
    match c case Add(r) => t + {r} case Prune(_, _, gone) => t - gone
  }

  function Table(changes: seq<Change>): set<Report> {
    if changes == [] then {} else Changed(Table(changes[..|changes| - 1]), changes[|changes| - 1])
  }

  function Unpruned(changes: seq<Change>): set<Report> {
    if changes == [] then {}
    else
      var before := Unpruned(changes[..|changes| - 1]);
      var c := changes[|changes| - 1];
      if c.Add? then before + {c.report} else before
  }

  predicate AllPossible(changes: seq<Change>) {
    changes != [] ==>
      var n := |changes| - 1;
      && AllPossible(changes[..n]) && Possible(Table(changes[..n]), changes[n])
      && (changes[n].Add? ==> forall x | x in Unpruned(changes[..n]) :: x.id != changes[n].report.id)
  }

  /** Retention is invisible: prunes in between leave every workspace its latest report. */
  lemma {:induction false} PruningIsInvisible(changes: seq<Change>, ws: string)
    requires AllPossible(changes)
    ensures Table(changes) <= Unpruned(changes) && DistinctIds(Unpruned(changes))
    ensures Latest(Table(changes), ws) == Latest(Unpruned(changes), ws)
  {
    hide Latest, Victims, Kept;
    if changes != [] {
      var n := |changes| - 1;
      PruningIsInvisible(changes[..n], ws);
      var t, full := Table(changes[..n]), Unpruned(changes[..n]);
      match changes[n] {
        case Add(r) => AddKeepsLatest(t, full, r, ws);
        case Prune(keep, batch, gone) => PruneKeepsLatest(t, gone, AtLeastOne(keep), ws);
      }
    }
  }

  lemma PruneKeepsLatest(t: set<Report>, gone: set<Report>, keep: nat, ws: string)
    requires DistinctIds(t) && keep >= 1 && gone <= Victims(t, keep)
    ensures Latest(t - gone, ws) == Latest(t, ws)
  {
    if Of(t, ws) == {} {
      assert Of(t - gone, ws) == {};
    } else {
      NewestExists(Of(t, ws));
      var r :| IsNewest(Of(t, ws), r);
      LatestIsKept(t, ws, r, keep);
      LatestExactly(t, ws, r);
      LatestExactly(t - gone, ws, r);
    }
  }

  lemma AddKeepsLatest(t: set<Report>, full: set<Report>, r: Report, ws: string)
    requires t <= full && DistinctIds(full + {r}) && Latest(t, ws) == Latest(full, ws)
    ensures Latest(t + {r}, ws) == Latest(full + {r}, ws)
  {
    AddedLatest(t, r, ws);
    AddedLatest(full, r, ws);
  }

  /** A report becomes the latest of its workspace exactly when it is newer than the one before. */
  lemma AddedLatest(t: set<Report>, r: Report, ws: string)
    requires DistinctIds(t + {r})
    ensures Latest(t + {r}, ws) ==
            if r.workspaceId == ws && (Latest(t, ws).None? || Latest(t, ws).value == r || Newer(r, Latest(t, ws).value))
            then Some(r) else Latest(t, ws)
  {
    var after := Of(t + {r}, ws);
    assert DistinctIds(t);
    if r.workspaceId != ws {
      assert after == Of(t, ws);
    } else {
      assert after == Of(t, ws) + {r};
      LatestExactly(t, ws, r);
      if Of(t, ws) == {} {
        assert IsNewest(after, r);
        LatestExactly(t + {r}, ws, r);
      } else {
        var m := Latest(t, ws).value;
        LatestExactly(t, ws, m);
        NewerIsTotal(m, r);
        if Newer(r, m) {
          forall x | x in Of(t, ws) && x != m ensures Newer(r, x) {
            NewerIsTransitive(r, m, x);
          }
          assert IsNewest(after, r);
        } else {
          assert IsNewest(after, m);
        }
        LatestExactly(t + {r}, ws, if Newer(r, m) then r else m);
      }
    }
  }

  /** The placeholder of a queued scan hides the counts of a workspace, not its status, until the next report. */
  lemma QueuedScanHidesCounts(d: Desk, c: Call)
    requires c.Scan? && Answer(d, c) == Stored && DistinctIds(d.reports)
    ensures Step(d, c).workspaces == d.workspaces
    ensures var last := Latest(d.reports, c.path);
            CountsOf(Step(d, c).reports, c.path) ==
            if last.None? || Newer(StoredReport(c), last.value) then NO_COUNTS else last.value.counts
  {
    AddedLatest(d.reports, StoredReport(c), c.path);
    if Latest(d.reports, c.path).Some? {
      LatestExactly(d.reports, c.path, Latest(d.reports, c.path).value);
    }
  }
}

/** From a scan to the API: what the collector posts. */
module ScanToPage {
  import opened Options
  import TfState
  import DriftCollector
  import GhostProtocol
  import DriftReports

  function BodyOf(workspaceId: string, r: DriftCollector.Report): DriftReports.Body {
    DriftReports.Body(workspaceId, r.hasDrift, r.driftChecked,
                      DriftReports.Counts(r.modifiedCount, r.untrackedCount, r.deletedCount, 0))
  }

  /** A scan that failed to read the state or the listing, or raised, moves no status and pages nobody. */
  lemma FailedScanIsQuiet(d: DriftReports.Desk, ws: GhostProtocol.Workspace, p: GhostProtocol.Probe,
                          state: Option<TfState.State>, listing: Option<seq<DriftCollector.Live>>,
                          owners: TfState.Owners, id: string, now: int)
    requires p.raises || state.None? || listing.None?
    ensures var r := GhostProtocol.ScanReport(ws, p, state, listing, owners);
            var after := DriftReports.Step(d, DriftReports.Internal(ws.id, BodyOf(ws.id, r), id, now));
            after.workspaces == d.workspaces && after.pages == d.pages
  {
    GhostProtocol.UncheckedExactly(ws, p, state, listing, owners);
  }

  /** Otherwise it decides the status: drifted exactly when it found changed tags or ghosts. */
  lemma GoodScanDecides(d: DriftReports.Desk, ws: GhostProtocol.Workspace, p: GhostProtocol.Probe,
                        state: Option<TfState.State>, listing: Option<seq<DriftCollector.Live>>,
                        owners: TfState.Owners, id: string, now: int)
    requires !p.raises && state.Some? && listing.Some?
    ensures var r := GhostProtocol.ScanReport(ws, p, state, listing, owners);
            var c := DriftReports.Internal(ws.id, BodyOf(ws.id, r), id, now);
            DriftReports.Answer(d, c) == DriftReports.Stored ==>
              && ws.id in DriftReports.Step(d, c).workspaces
              && DriftReports.Step(d, c).workspaces[ws.id].status ==
                 (if r.modifiedCount + r.deletedCount > 0 then DriftReports.Drifted else DriftReports.Clean)
              && DriftReports.Report(id, ws.id, r.modifiedCount + r.deletedCount > 0,
                                     DriftReports.Counts(r.modifiedCount, r.untrackedCount, r.deletedCount, 0), now)
                 in DriftReports.Step(d, c).reports
  {
    GhostProtocol.UncheckedExactly(ws, p, state, listing, owners);
  }
}
