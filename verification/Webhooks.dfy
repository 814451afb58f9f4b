// GitHub pushes: which files a push lists, which workspaces it selects, and how that distributes
// over commits; and reading `owner/repo` out of a remote URL.

module Webhooks {
  import opened Options
  import opened Texts

  const PROMOTION_TRAILER := "Terraducktel-Promotion:"

  datatype Commit = Commit(message: string, added: seq<string>, modified: seq<string>, removed: seq<string>)

  predicate IsPromotion(c: Commit) {
    Has(c.message, PROMOTION_TRAILER)
  }

  predicate PromotionOnly(commits: seq<Commit>) {
    commits != [] && forall c | c in commits :: IsPromotion(c)
  }

  predicate Lists(c: Commit, path: string) {
    path != "" && (path in c.added || path in c.modified || path in c.removed)
  }

  /** Some commit lists the path; promotions are passed over on request. */
  predicate ListedIn(commits: seq<Commit>, skipPromotions: bool, path: string) {
    exists c :: c in commits && !(skipPromotions && IsPromotion(c)) && Lists(c, path)
  }

  method AddPaths(out: set<string>, paths: seq<string>) returns (more: set<string>)
    ensures more == out + set p | p in paths && p != ""
  {
    more := out;
    for n := 0 to |paths|
      invariant more == out + set p | p in paths[..n] && p != ""
    {
      assert paths[..n + 1] == paths[..n] + [paths[n]];
      if paths[n] != "" {
        more := more + {paths[n]};
      }
    }
    assert paths[..|paths|] == paths;
  }

  method ChangedFiles(commits: seq<Commit>, skipPromotions: bool) returns (out: set<string>)
    ensures forall p :: p in out <==> ListedIn(commits, skipPromotions, p)
  {
    out := {};
    for n := 0 to |commits|
      invariant forall p :: p in out <==> ListedIn(commits[..n], skipPromotions, p)
    {
      var c := commits[n];
      forall p
        ensures ListedIn(commits[..n + 1], skipPromotions, p) <==>
                ListedIn(commits[..n], skipPromotions, p) ||
                (!(skipPromotions && IsPromotion(c)) && Lists(c, p))
      {
        ListedMore(commits, n, skipPromotions, p);
      }
      if skipPromotions && IsPromotion(c) {
        continue;
      }
      ghost var before := out;
      out := AddPaths(out, c.added);
      out := AddPaths(out, c.modified);
      out := AddPaths(out, c.removed);
      assert forall p :: p in out <==> p in before || Lists(c, p);
    }
    assert commits[..|commits|] == commits;
  }

  lemma ListedMore(commits: seq<Commit>, n: nat, skip: bool, p: string)
    requires n < |commits|
    ensures ListedIn(commits[..n + 1], skip, p) <==>
            ListedIn(commits[..n], skip, p) || (!(skip && IsPromotion(commits[n])) && Lists(commits[n], p))
  {
    assert commits[..n + 1] == commits[..n] + [commits[n]];
    ListedConcat(commits[..n], [commits[n]], skip, p);
  }

  lemma ListedConcat(a: seq<Commit>, b: seq<Commit>, skip: bool, p: string)
    ensures ListedIn(a + b, skip, p) <==> ListedIn(a, skip, p) || ListedIn(b, skip, p)
  {
    if c :| c in a && !(skip && IsPromotion(c)) && Lists(c, p) {
      assert c in a + b;
    }
    if c :| c in b && !(skip && IsPromotion(c)) && Lists(c, p) {
      assert c in a + b;
    }
  }

  // ---------- Workspaces ----------

  /** An empty `workingDir` stands for a null one. */
  datatype Workspace = Workspace(name: string, workingDir: string, enabled: bool, ref: string, repoUrl: string)

  function Directory(ws: Workspace): string {
    StripRight(StripLeft(if ws.workingDir == "" then "." else ws.workingDir, {'/'}), {'/'})
  }

  predicate AtRoot(ws: Workspace) {
    Directory(ws) == "" || Directory(ws) == "."
  }

  predicate Under(path: string, dir: string) {
    dir + "/" <= path || path == dir
  }

  /** Slashes around a directory do not count; a null one is the root. */
  lemma DirectoryExactly(ws: Workspace, before: string, dir: string, behind: string)
    requires Slashes(before) && Slashes(behind) && (dir != "" ==> dir[0] != '/' && dir[|dir| - 1] != '/')
    requires ws.workingDir == before + dir + behind
    ensures Directory(ws) == if ws.workingDir == "" then "." else dir
  {
    if ws.workingDir == "" {
      assert StripLeft(".", {'/'}) == "." && StripRight(".", {'/'}) == ".";
    } else if dir == "" {
      assert before + dir + behind == before + behind;
      PaddingGoes(before + behind, "", {'/'});
      assert (before + behind) + "" == before + behind && StripLeft("", {'/'}) == "" && StripRight("", {'/'}) == "";
    } else {
      assert before + dir + behind == before + (dir + behind);
      PaddingGoes(before, dir + behind, {'/'});
      assert StripLeft(dir + behind, {'/'}) == dir + behind;
      SlashesTakenOff(dir, behind);
    }
  }

  /** A directory's name in front of a path touches it only as a whole: `live/network` is not under `live/net`. */
  lemma UnderExactly(path: string, dir: string)
    ensures Under(path, dir) <==> dir <= path && (|path| == |dir| || path[|dir|] == '/')
  {
    if dir <= path && |dir| < |path| && path[|dir|] == '/' {
      assert path[..|dir| + 1] == dir + "/";
    }
  }

  predicate MatchesWorkspace(ws: Workspace, changed: set<string>) {
    AtRoot(ws) || exists p :: p in changed && Under(p, Directory(ws))
  }

  datatype Reason = Disabled | OtherBranch | PromotionCommit

  /** What the handler does with a workspace; `Unaffected` ones it does not even report. */
  datatype Decision = Trigger | Skip(reason: Reason) | Unaffected

  /** A commit that is no promotion touches the workspace's directory. */
  ghost predicate HumanTouches(ws: Workspace, commits: seq<Commit>) {
    exists p :: ListedIn(commits, true, p) && Under(p, Directory(ws))
  }

  ghost predicate Touches(ws: Workspace, commits: seq<Commit>) {
    exists p :: ListedIn(commits, false, p) && Under(p, Directory(ws))
  }

  ghost predicate ListsFiles(commits: seq<Commit>) {
    exists p :: ListedIn(commits, false, p)
  }

  predicate Open(ws: Workspace, branch: string) {
    ws.enabled && (branch == "" || branch == ws.ref)
  }

  /** The decision, said of the commits and not of the sets the handler builds. */
  ghost function DecisionFor(ws: Workspace, branch: string, commits: seq<Commit>): Decision {
    if !ws.enabled then Skip(Disabled)
    else if !Open(ws, branch) then Skip(OtherBranch)
    else if ListsFiles(commits) then
      if AtRoot(ws) || HumanTouches(ws, commits) then Trigger
      else if Touches(ws, commits) then Skip(PromotionCommit)
      else Unaffected
    else if PromotionOnly(commits) then Skip(PromotionCommit)
    else Trigger
  }

  ghost function Chosen(rows: seq<Workspace>, branch: string, commits: seq<Commit>): seq<Workspace> {
    if rows == [] then []
    else
      var before := Chosen(rows[..|rows| - 1], branch, commits);
      var ws := rows[|rows| - 1];
      if DecisionFor(ws, branch, commits) == Trigger then before + [ws] else before
  }

  ghost function Skipped(rows: seq<Workspace>, branch: string, commits: seq<Commit>): seq<(string, Reason)> {
    if rows == [] then []
    else
      var before := Skipped(rows[..|rows| - 1], branch, commits);
      var ws := rows[|rows| - 1];
      var d := DecisionFor(ws, branch, commits);
      if d.Skip? then before + [(ws.name, d.reason)] else before
  }

  method Decide(ws: Workspace, branch: string, commits: seq<Commit>, changed: set<string>, humanChanged: set<string>)
    returns (d: Decision)
    requires forall p :: p in changed <==> ListedIn(commits, false, p)
    requires forall p :: p in humanChanged <==> ListedIn(commits, true, p)
    ensures d == DecisionFor(ws, branch, commits)
  {
    assert changed != {} <==> ListsFiles(commits) by {
      if changed != {} {
        var p :| p in changed;
        assert ListedIn(commits, false, p);
      }
    }
    MatchesExactly(ws, commits, false, changed);
    MatchesExactly(ws, commits, true, humanChanged);
    if !ws.enabled {
      return Skip(Disabled);
    }
    if branch != "" && branch != ws.ref {
      return Skip(OtherBranch);
    }
    if changed != {} && !MatchesWorkspace(ws, changed) {
      HumansTouch(ws, commits);
      return Unaffected;
    }
    if changed != {} && !MatchesWorkspace(ws, humanChanged) {
      return Skip(PromotionCommit);
    }
    if changed == {} && PromotionOnly(commits) {
      return Skip(PromotionCommit);
    }
    d := Trigger;
  }

  lemma MatchesExactly(ws: Workspace, commits: seq<Commit>, skip: bool, changed: set<string>)
    requires forall p :: p in changed <==> ListedIn(commits, skip, p)
    ensures MatchesWorkspace(ws, changed) <==>
            AtRoot(ws) || if skip then HumanTouches(ws, commits) else Touches(ws, commits)
  {
  }

  lemma HumansTouch(ws: Workspace, commits: seq<Commit>)
    ensures HumanTouches(ws, commits) ==> Touches(ws, commits)
  {
    if p :| ListedIn(commits, true, p) && Under(p, Directory(ws)) {
      assert ListedIn(commits, false, p);
    }
  }

  method SelectWorkspaces(rows: seq<Workspace>, branch: string, commits: seq<Commit>)
    returns (triggered: seq<Workspace>, skipped: seq<(string, Reason)>)
    ensures triggered == Chosen(rows, branch, commits) && skipped == Skipped(rows, branch, commits)
  {
    var changed := ChangedFiles(commits, false);
    var humanChanged := ChangedFiles(commits, true);
    triggered, skipped := [], [];
    for n := 0 to |rows|
      invariant triggered == Chosen(rows[..n], branch, commits) && skipped == Skipped(rows[..n], branch, commits)
    {
      assert rows[..n + 1][..n] == rows[..n] && rows[..n + 1][n] == rows[n];
      var d := Decide(rows[n], branch, commits, changed, humanChanged);
      if d.Skip? {
        skipped := skipped + [(rows[n].name, d.reason)];
      }
      if d.Trigger? {
        triggered := triggered + [rows[n]];
      }
    }
    assert rows[..|rows|] == rows;
  }

  ghost predicate Selects(ws: Workspace, branch: string, commits: seq<Commit>) {
    DecisionFor(ws, branch, commits) == Trigger
  }

  /** A plan is created for each row of a workspace, exactly when the push selects it. */
  lemma {:induction false} ChosenExactly(rows: seq<Workspace>, branch: string, commits: seq<Commit>, ws: Workspace)
    ensures multiset(Chosen(rows, branch, commits))[ws] ==
            if Selects(ws, branch, commits) then multiset(rows)[ws] else 0
  {
    if rows != [] {
      var n := |rows| - 1;
      ChosenExactly(rows[..n], branch, commits, ws);
      assert rows == rows[..n] + [rows[n]];
    }
  }

  /** The commit adds, modifies or removes the file. */
  predicate Changes(c: Commit, path: string) {
    path != "" && (path in c.added || path in c.modified || path in c.removed)
  }

  predicate ByHuman(c: Commit) {
    !Has(c.message, "Terraducktel-Promotion:")
  }

  predicate InDirectory(ws: Workspace, path: string) {
    path == Directory(ws) || Directory(ws) + "/" <= path
  }

  /**
   * An enabled workspace on the push's branch is selected, off the root, by the files of human commits. At
   * the root any listed file will do, even a promotion's. Without files anything but promotions will.
   */
  lemma SelectedExactly(ws: Workspace, branch: string, commits: seq<Commit>)
    ensures Selects(ws, branch, commits) <==>
            && ws.enabled && (branch == "" || branch == ws.ref)
            && if exists c, p :: c in commits && Changes(c, p) then
                 || Directory(ws) in {"", "."}
                 || exists c, p :: c in commits && ByHuman(c) && Changes(c, p) && InDirectory(ws, p)
               else
                 commits == [] || exists c :: c in commits && ByHuman(c)
  {
    FilesExactly(ws, commits);
  }

  lemma FilesExactly(ws: Workspace, commits: seq<Commit>)
    ensures ListsFiles(commits) <==> exists c, p :: c in commits && Changes(c, p)
    ensures HumanTouches(ws, commits) <==>
            exists c, p :: c in commits && ByHuman(c) && Changes(c, p) && InDirectory(ws, p)
    ensures Touches(ws, commits) <==> exists c, p :: c in commits && Changes(c, p) && InDirectory(ws, p)
    ensures PromotionOnly(commits) <==> commits != [] && forall c | c in commits :: !ByHuman(c)
  {
    forall c, p | c in commits && Changes(c, p) ensures ListedIn(commits, false, p) {
      assert Lists(c, p);
    }
    forall c, p | c in commits && ByHuman(c) && Changes(c, p) ensures ListedIn(commits, true, p) {
      assert Lists(c, p) && !IsPromotion(c);
    }
    forall p | ListedIn(commits, false, p) ensures exists c :: c in commits && Changes(c, p) {
      var c :| c in commits && Lists(c, p);
      assert Changes(c, p);
    }
    forall p | ListedIn(commits, true, p) ensures exists c :: c in commits && ByHuman(c) && Changes(c, p) {
      var c :| c in commits && !IsPromotion(c) && Lists(c, p);
      assert ByHuman(c) && Changes(c, p);
    }
    forall p ensures Under(p, Directory(ws)) <==> InDirectory(ws, p) {
    }
  }

  /** What the answer says of a workspace it passes over: that it is disabled, on another branch, or only promoted. */
  lemma SkippedExactly(ws: Workspace, branch: string, commits: seq<Commit>, reason: Reason)
    ensures DecisionFor(ws, branch, commits) == Skip(reason) <==>
            match reason
            case Disabled => !ws.enabled
            case OtherBranch => ws.enabled && branch != "" && branch != ws.ref
            case PromotionCommit =>
              && ws.enabled && (branch == "" || branch == ws.ref)
              && if exists c, p :: c in commits && Changes(c, p) then
                   && Directory(ws) !in {"", "."}
                   && (exists c, p :: c in commits && Changes(c, p) && InDirectory(ws, p))
                   && forall c, p | c in commits && Changes(c, p) && InDirectory(ws, p) :: !ByHuman(c)
                 else
                   commits != [] && forall c | c in commits :: !ByHuman(c)
  {
    FilesExactly(ws, commits);
  }

  lemma {:induction false} SkippedAre(rows: seq<Workspace>, branch: string, commits: seq<Commit>, name: string,
                                      reason: Reason)
    ensures (name, reason) in Skipped(rows, branch, commits) <==>
            exists ws :: ws in rows && ws.name == name && DecisionFor(ws, branch, commits) == Skip(reason)
  {
    hide DecisionFor;
    if rows != [] {
      var n := |rows| - 1;
      SkippedAre(rows[..n], branch, commits, name, reason);
      assert rows == rows[..n] + [rows[n]];
      if ws :| ws in rows[..n] && ws.name == name && DecisionFor(ws, branch, commits) == Skip(reason) {
        assert ws in rows;
      }
    }
  }

  /** A push made only of promotions plans a workspace at the root. */
  lemma PromotionPlansRoot()
    ensures exists ws, commits :: PromotionOnly(commits) && Selects(ws, "main", commits)
  {
    var ws := Workspace("all", "", true, "main", "");
    var c := Commit(PROMOTION_TRAILER, ["a.tf"], [], []);
    assert Directory(ws) == "." by {
      assert StripLeft(".", {'/'}) == "." && StripRight(".", {'/'}) == ".";
    }
    assert PROMOTION_TRAILER <= PROMOTION_TRAILER[0..];
    assert IsPromotion(c) && PromotionOnly([c]);
    assert c.added[0] == "a.tf" && Lists(c, "a.tf") && ListedIn([c], false, "a.tf");
    assert Selects(ws, "main", [c]);
  }

  // ---------- Pushing in one or in two ----------

  lemma HumanTouchesConcat(ws: Workspace, a: seq<Commit>, b: seq<Commit>)
    ensures HumanTouches(ws, a + b) <==> HumanTouches(ws, a) || HumanTouches(ws, b)
  {
    forall p ensures ListedIn(a + b, true, p) <==> ListedIn(a, true, p) || ListedIn(b, true, p) {
      ListedConcat(a, b, true, p);
    }
  }

  lemma ListsFilesConcat(a: seq<Commit>, b: seq<Commit>)
    ensures ListsFiles(a + b) <==> ListsFiles(a) || ListsFiles(b)
  {
    forall p ensures ListedIn(a + b, false, p) <==> ListedIn(a, false, p) || ListedIn(b, false, p) {
      ListedConcat(a, b, false, p);
    }
  }

  lemma PromotionOnlyConcat(a: seq<Commit>, b: seq<Commit>)
    ensures PromotionOnly(a + b) <==> a + b != [] && (a == [] || PromotionOnly(a)) && (b == [] || PromotionOnly(b))
  {
    forall c ensures c in a + b <==> c in a || c in b {
    }
  }

  /** When pushing two lists of commits at once selects what pushing them one by one does. */
  ghost predicate Splits(ws: Workspace, branch: string, a: seq<Commit>, b: seq<Commit>) {
    if !Open(ws, branch) || (AtRoot(ws) && (ListsFiles(a) || ListsFiles(b))) then true
    else if ListsFiles(a) && ListsFiles(b) then true
    else if ListsFiles(a) then HumanTouches(ws, a) || PromotionOnly(b)
    else if ListsFiles(b) then HumanTouches(ws, b) || PromotionOnly(a)
    else (a == [] <==> b == []) || !PromotionOnly(a + b)
  }

  lemma SelectsUnionExactly(ws: Workspace, branch: string, a: seq<Commit>, b: seq<Commit>)
    ensures (Selects(ws, branch, a + b) <==> Selects(ws, branch, a) || Selects(ws, branch, b)) <==>
            Splits(ws, branch, a, b)
  {
    HumanTouchesConcat(ws, a, b);
    ListsFilesConcat(a, b);
    PromotionOnlyConcat(a, b);
    NothingTouched(ws, a);
    NothingTouched(ws, b);
  }

  lemma NothingTouched(ws: Workspace, commits: seq<Commit>)
    ensures HumanTouches(ws, commits) ==> ListsFiles(commits)
  {
    if p :| ListedIn(commits, true, p) && Under(p, Directory(ws)) {
      assert ListedIn(commits, false, p);
    }
  }

  /** Two pushes that each list files select together what they select apart, at the root and off it. */
  lemma SelectionDistributes(ws: Workspace, branch: string, a: seq<Commit>, b: seq<Commit>)
    requires ListsFiles(a) && ListsFiles(b)
    ensures Selects(ws, branch, a + b) <==> Selects(ws, branch, a) || Selects(ws, branch, b)
  {
    SelectsUnionExactly(ws, branch, a, b);
  }

  /** A push without files selects what its commits next to files do not. */
  lemma FilelessPushBreaksUnion()
    ensures exists ws, a, b :: ListsFiles(a) && Selects(ws, "main", b) && !Selects(ws, "main", a + b)
  {
    var ws := Workspace("net", "live/net", true, "main", "");
    var touched, bare := Commit("edit", ["docs/a.md"], [], []), Commit("merge", [], [], []);
    var a, b := [touched], [bare];
    assert Directory(ws) == "live/net" by {
      assert StripLeft("live/net", {'/'}) == "live/net" && StripRight("live/net", {'/'}) == "live/net";
    }
    assert touched in a && touched.added[0] == "docs/a.md" && Lists(touched, "docs/a.md");
    assert ListedIn(a, false, "docs/a.md");
    assert bare in b && !IsPromotion(bare);
    forall p ensures !ListedIn(b, false, p) && !ListedIn(b, true, p) {
    }
    forall p | ListedIn(a, true, p) ensures !Under(p, "live/net") {
      assert p == "docs/a.md" && p[0] == 'd';
    }
    HumanTouchesConcat(ws, a, b);
    ListsFilesConcat(a, b);
    assert !Selects(ws, "main", a + b);
  }

  // ---------- The branch and the repository ----------

  const HEADS := "refs/heads/"

  function BranchOf(ref: string): string {
    if HEADS <= ref then Without(ref, HEADS) else ref
  }

  /** Every occurrence of the prefix is dropped, so a branch is read back exactly when its name has none. */
  lemma BranchExactly(branch: string)
    ensures BranchOf(HEADS + branch) == branch <==> !Has(branch, HEADS)
  {
    assert (HEADS + branch)[|HEADS|..] == branch;
    WithoutExactly(branch, HEADS);
  }

  /** Any other ref, a tag's say, is taken as it is. */
  lemma OtherRefStays(ref: string)
    requires !("refs/heads/" <= ref)
    ensures BranchOf(ref) == ref
  {
  }

  /** A branch that is named like a ref is mistaken for another. */
  lemma RefInBranchIsLost()
    ensures BranchOf(HEADS + (HEADS + "x")) == "x"
  {
    var ref := HEADS + (HEADS + "x");
    assert ref[|HEADS|..] == HEADS + "x" && (HEADS + "x")[|HEADS|..] == "x";
    assert HEADS <= ref && HEADS <= HEADS + "x" && !(HEADS <= "x") && "x"[1..] == "";
    assert Without("x", HEADS) == ['x'] + Without("", HEADS) == "x";
    assert Without(HEADS + "x", HEADS) == "x" && Without(ref, HEADS) == "x";
  }

  lemma {:induction false} WithoutExactly(s: string, pattern: string)
    requires pattern != ""
    ensures |Without(s, pattern)| <= |s|
    ensures Without(s, pattern) == s <==> !Has(s, pattern)
    decreases |s|
  {
    if s == "" {
      assert !Has(s, pattern);
    } else if pattern <= s {
      WithoutExactly(s[|pattern|..], pattern);
      assert pattern <= s[0..];
    } else {
      WithoutExactly(s[1..], pattern);
      assert s == [s[0]] + s[1..];
      HasFurther(s, pattern);
    }
  }

  lemma HasFurther(s: string, pattern: string)
    requires s != "" && !(pattern <= s)
    ensures Has(s, pattern) <==> Has(s[1..], pattern)
  {
    if i :| 0 <= i <= |s| && pattern <= s[i..] {
      assert i > 0 && s[i..] == s[1..][i - 1..];
    }
    if i :| 0 <= i <= |s[1..]| && pattern <= s[1..][i..] {
      assert s[1..][i..] == s[i + 1..];
    }
  }

  const WHITESPACE := {' ', '\t', '\n', '\r'}

  function Strip(s: string): string {
    StripRight(StripLeft(s, WHITESPACE), WHITESPACE)
  }

  function Lower(s: string): string {
    seq(|s|, i requires 0 <= i < |s| => if 'A' <= s[i] <= 'Z' then s[i] - 'A' + 'a' else s[i])
  }

  function NonEmpty(parts: seq<string>): seq<string> {
    if parts == [] then []
    else
      var before := NonEmpty(parts[..|parts| - 1]);
      if parts[|parts| - 1] != "" then before + [parts[|parts| - 1]] else before
  }

  function WithoutSuffix(url: string): string {
    StripRight(if EndsWith(url, ".git") then url[..|url| - 4] else url, {'/'})
  }

  /** `user@host:path` as `host/path`; what has a scheme stays. */
  function AsPath(url: string): string {
    if !Has(url, "://") && '@' in url && ':' in url then
      var parts := Split(url, ':');
      LastPart(parts[0], '@') + "/" + Join(parts[1..], ':')
    else url
  }

  function LastPair(path: string): Option<string> {
    var parts := NonEmpty(Split(path, '/'));
    if |parts| < 2 then None else Some(Lower(parts[|parts| - 2] + "/" + parts[|parts| - 1]))
  }

  function ExtractRepoFullName(repoUrl: string): Option<string> {
    LastPair(AsPath(WithoutSuffix(Strip(repoUrl))))
  }

  predicate BoundTo(ws: Workspace, repoFullName: string) {
    ExtractRepoFullName(ws.repoUrl) == Some(Lower(Strip(repoFullName)))
  }

  function Bound(candidates: seq<Workspace>, repoFullName: string): seq<Workspace> {
    if candidates == [] then []
    else
      var before := Bound(candidates[..|candidates| - 1], repoFullName);
      var ws := candidates[|candidates| - 1];
      if BoundTo(ws, repoFullName) then before + [ws] else before
  }

  /** A push event; `candidates` are the rows of the loose pre-filter in SQL. */
  method HandlePush(candidates: seq<Workspace>, repoFullName: string, ref: string, commits: seq<Commit>)
    returns (triggered: seq<Workspace>)
    ensures triggered == if repoFullName == "" then []
                         else Chosen(Bound(candidates, repoFullName), BranchOf(ref), commits)
  {
    if repoFullName == "" {
      return [];
    }
    var skipped;
    triggered, skipped := SelectWorkspaces(Bound(candidates, repoFullName), BranchOf(ref), commits);
  }

  /** A push plans exactly the candidates that are bound to its repository and selected by its commits. */
  lemma PlansExactly(candidates: seq<Workspace>, repoFullName: string, ref: string, commits: seq<Commit>, ws: Workspace)
    ensures var bound := ExtractRepoFullName(ws.repoUrl) == Some(Lower(Strip(repoFullName)));
            multiset(Chosen(Bound(candidates, repoFullName), BranchOf(ref), commits))[ws] ==
            if bound && Selects(ws, BranchOf(ref), commits) then multiset(candidates)[ws] else 0
  {
    ChosenExactly(Bound(candidates, repoFullName), BranchOf(ref), commits, ws);
    BoundExactly(candidates, repoFullName, ws);
  }

  lemma {:induction false} BoundExactly(candidates: seq<Workspace>, repoFullName: string, ws: Workspace)
    ensures multiset(Bound(candidates, repoFullName))[ws] ==
            if BoundTo(ws, repoFullName) then multiset(candidates)[ws] else 0
  {
    hide BoundTo;
    if candidates != [] {
      var n := |candidates| - 1;
      BoundExactly(candidates[..n], repoFullName, ws);
      assert candidates == candidates[..n] + [candidates[n]];
    }
  }

  predicate SameLetter(a: char, b: char) {
    || a == b || ('a' <= a <= 'z' && b as int - 'A' as int == a as int - 'a' as int)
    || ('a' <= b <= 'z' && a as int - 'A' as int == b as int - 'a' as int)
  }

  /** The texts differ in the case of letters at most. */
  predicate SameButCase(a: string, b: string) {
    |a| == |b| && forall i | 0 <= i < |a| :: SameLetter(a[i], b[i])
  }

  lemma LowerExactly(a: string, b: string)
    ensures Lower(a) == Lower(b) <==> SameButCase(a, b)
  {
    if |a| == |b| {
      forall i | 0 <= i < |a| ensures Lower(a)[i] == Lower(b)[i] <==> SameLetter(a[i], b[i]) {
      }
    }
  }

  predicate Plain(name: string) {
    name != "" && forall c | c in name :: c !in {'/', ':', '@'} && c !in WHITESPACE
  }

  /** A repository's two names as they stand at the end of a URL. */
  predicate PlainRepo(owner: string, repo: string) {
    Plain(owner) && Plain(repo) && !EndsWith(repo, ".git")
  }

  lemma LastPairOf(pre: string, owner: string, repo: string)
    requires Plain(owner) && Plain(repo)
    ensures LastPair(pre + "/" + owner + "/" + repo) == Some(Lower(owner + "/" + repo))
  {
    var path := pre + "/" + owner + "/" + repo;
    SplitConcat(pre + "/" + owner, repo, '/');
    SplitConcat(pre, owner, '/');
    SplitWhole(owner, '/');
    SplitWhole(repo, '/');
    assert path == pre + "/" + owner + ['/'] + repo && pre + "/" + owner == pre + ['/'] + owner;
    EndsInPair(Split(pre, '/'), owner, repo);
  }

  lemma EndsInPair(parts: seq<string>, owner: string, repo: string)
    requires owner != "" && repo != ""
    ensures NonEmpty(parts + [owner] + [repo]) == NonEmpty(parts) + [owner] + [repo]
  {
    assert (parts + [owner])[..|parts|] == parts;
    assert (parts + [owner] + [repo])[..|parts| + 1] == parts + [owner];
  }

  predicate Slashes(s: string) {
    forall i | 0 <= i < |s| :: s[i] == '/'
  }

  /** What is not a slash at its end loses the slashes behind it, and only them. */
  lemma {:induction false} SlashesTakenOff(body: string, slashes: string)
    requires body != "" && body[|body| - 1] != '/' && Slashes(slashes)
    ensures StripRight(body + slashes, {'/'}) == body
    decreases |slashes|
  {
    if slashes == "" {
      assert body + slashes == body;
    } else {
      var n := |slashes| - 1;
      assert slashes[n] == '/' && (body + slashes)[..|body + slashes| - 1] == body + slashes[..n];
      SlashesTakenOff(body, slashes[..n]);
    }
  }

  /** A `.git` at the very end of a clean URL is taken off, then any slashes in front of it. */
  lemma EndingTakenOff(body: string, slashes: string, git: bool)
    requires body != "" && body[0] !in WHITESPACE && body[|body| - 1] !in WHITESPACE + {'/'} && !EndsWith(body, ".git")
    requires Slashes(slashes)
    ensures WithoutSuffix(Strip(body + slashes + if git then ".git" else "")) == body
  {
    var url := body + slashes + if git then ".git" else "";
    StripKeeps(url);
    SlashesTakenOff(body, slashes);
    if git {
      assert url == body + slashes + ".git" && url[|url| - 4..] == ".git" && url[..|url| - 4] == body + slashes;
    } else {
      assert url == body + slashes;
      if slashes == "" {
        assert url == body;
      } else {
        SlashAtTheEnd(url);
      }
    }
  }

  lemma StripKeeps(url: string)
    requires url != "" && url[0] !in WHITESPACE && url[|url| - 1] !in WHITESPACE
    ensures Strip(url) == url
  {
  }

  lemma SlashAtTheEnd(url: string)
    requires url != "" && url[|url| - 1] == '/'
    ensures !EndsWith(url, ".git")
  {
    if |url| >= 4 {
      assert url[|url| - 4..][3] == '/';
    }
  }

  /** A `.git` with slashes behind it is not at the end, and stays. */
  lemma CoveredGitStays(body: string, slashes: string)
    requires body != "" && body[0] !in WHITESPACE && slashes != "" && Slashes(slashes)
    ensures WithoutSuffix(Strip(body + ".git" + slashes)) == body + ".git"
  {
    var url := body + ".git" + slashes;
    assert url[|url| - 1] == slashes[|slashes| - 1];
    StripKeeps(url);
    SlashAtTheEnd(url);
    assert (body + ".git")[|body + ".git"| - 1] == 't';
    SlashesTakenOff(body + ".git", slashes);
  }

  lemma NoGitAtTheEnd(pre: string, repo: string)
    requires Plain(repo) && !EndsWith(repo, ".git")
    ensures !EndsWith(pre + "/" + repo, ".git")
  {
    var s := pre + "/" + repo;
    if |repo| >= 4 {
      assert s[|s| - 4..] == repo[|repo| - 4..];
    } else if |s| >= 4 {
      assert s[|s| - 4..][3 - |repo|] == '/';
    }
  }

  /** A URL with a scheme names its last two path segments, with or without slashes and `.git` at the end. */
  lemma UrlNamesRepo(pre: string, owner: string, repo: string, slashes: string, git: bool)
    requires Has(pre, "://") && pre[0] !in WHITESPACE && PlainRepo(owner, repo)
    requires Slashes(slashes)
    ensures ExtractRepoFullName(pre + "/" + owner + "/" + repo + slashes + if git then ".git" else "") ==
            Some(Lower(owner + "/" + repo))
  {
    var body := pre + "/" + owner + "/" + repo;
    NoGitAtTheEnd(pre + "/" + owner, repo);
    assert body[|body| - 1] == repo[|repo| - 1];
    EndingTakenOff(body, slashes, git);
    assert body == pre + ("/" + owner + "/" + repo);
    HasMore(pre, "/" + owner + "/" + repo, "://");
    LastPairOf(pre, owner, repo);
  }

  /** But slashes behind `.git` make it part of the name, which then matches no push. */
  lemma CoveredGitIsNamed(pre: string, owner: string, repo: string, slashes: string)
    requires Has(pre, "://") && pre[0] !in WHITESPACE && PlainRepo(owner, repo)
    requires slashes != "" && Slashes(slashes)
    ensures ExtractRepoFullName(pre + "/" + owner + "/" + repo + ".git" + slashes) ==
            Some(Lower(owner + "/" + (repo + ".git")))
  {
    var body := pre + "/" + owner + "/" + repo;
    CoveredGitStays(body, slashes);
    assert body + ".git" == pre + ("/" + owner + "/" + repo + ".git");
    HasMore(pre, "/" + owner + "/" + repo + ".git", "://");
    assert body + ".git" == pre + "/" + owner + "/" + (repo + ".git");
    LastPairOf(pre, owner, repo + ".git");
  }

  predicate Blank(s: string) {
    forall i | 0 <= i < |s| :: s[i] in {' ', '\t', '\n', '\r'}
  }

  /** White space around a URL, or around the repository's name, does not matter. */
  lemma PaddingIsIgnored(before: string, s: string, behind: string, ws: Workspace)
    requires Blank(before) && Blank(behind) && s != "" && s[0] !in WHITESPACE
    ensures ExtractRepoFullName(before + s + behind) == ExtractRepoFullName(s)
    ensures BoundTo(ws, before + s + behind) == BoundTo(ws, s)
  {
    assert before + s + behind == before + (s + behind);
    PaddingGoes(before, s + behind, WHITESPACE);
    PaddingGoes(behind, s, WHITESPACE);
    assert Strip(before + s + behind) == Strip(s);
    hide Strip, AsPath, WithoutSuffix, LastPair, Lower;
  }

  /** A push plans the workspaces of its own repository, in whatever case, and of no other. */
  lemma PushPlansItsOwn(candidates: seq<Workspace>, ws: Workspace, pre: string, owner: string, repo: string,
                        slashes: string, git: bool, repoFullName: string, ref: string, commits: seq<Commit>)
    requires Has(pre, "://") && pre[0] !in WHITESPACE && PlainRepo(owner, repo) && Slashes(slashes)
    requires ws.repoUrl == pre + "/" + owner + "/" + repo + slashes + if git then ".git" else ""
    requires forall c | c in repoFullName :: c !in WHITESPACE
    ensures ws in Chosen(Bound(candidates, repoFullName), BranchOf(ref), commits) <==>
            ws in candidates && SameButCase(owner + "/" + repo, repoFullName) && Selects(ws, BranchOf(ref), commits)
  {
    UrlNamesRepo(pre, owner, repo, slashes, git);
    PlansExactly(candidates, repoFullName, ref, commits, ws);
    if repoFullName == "" {
      assert Strip(repoFullName) == "";
    } else {
      StripKeeps(repoFullName);
    }
    LowerExactly(owner + "/" + repo, repoFullName);
  }

  lemma HasMore(s: string, more: string, part: string)
    requires Has(s, part)
    ensures Has(s + more, part)
  {
    var i :| 0 <= i <= |s| && part <= s[i..];
    assert (s + more)[i..] == s[i..] + more;
  }

  /** The scp-like form names the same. */
  lemma ScpNamesRepo(user: string, host: string, owner: string, repo: string, slashes: string, git: bool)
    requires Plain(user) && Plain(host) && PlainRepo(owner, repo)
    requires Slashes(slashes)
    ensures ExtractRepoFullName(user + "@" + host + ":" + owner + "/" + repo + slashes + if git then ".git" else "") ==
            Some(Lower(owner + "/" + repo))
  {
    var login, path := user + "@" + host, owner + "/" + repo;
    var body := login + ":" + path;
    assert body == user + "@" + host + ":" + owner + "/" + repo;
    assert body == (login + ":" + owner) + "/" + repo;
    NoGitAtTheEnd(login + ":" + owner, repo);
    assert body[0] == user[0] && body[|body| - 1] == repo[|repo| - 1];
    EndingTakenOff(body, slashes, git);
    ScpAsPath(user, host, path);
    assert host + "/" + path == host + "/" + owner + "/" + repo;
    LastPairOf(host, owner, repo);
  }

  lemma ScpAsPath(user: string, host: string, path: string)
    requires Plain(user) && Plain(host) && path != "" && ':' !in path && path[0] != '/'
    ensures AsPath(user + "@" + host + ":" + path) == host + "/" + path
  {
    var login := user + "@" + host;
    var url := login + ":" + path;
    NoScheme(login, path);
    assert url[|user|] == '@' && url[|login|] == ':';
    SplitPrefix(login, path, ':');
    SplitWhole(path, ':');
    assert url == login + [':'] + path && login == user + ['@'] + host;
    LastPartBehind(user, host, '@');
    SplitWhole(host, '@');
  }

  lemma NoScheme(login: string, path: string)
    requires ':' !in login && ':' !in path && path != "" && path[0] != '/'
    ensures !Has(login + ":" + path, "://")
  {
    var s := login + ":" + path;
    forall i | 0 <= i <= |s| ensures !("://" <= s[i..]) {
      if i + 1 < |s| {
        assert s[i..][0] == s[i] && s[i..][1] == s[i + 1];
        assert s[i] == if i < |login| then login[i] else if i == |login| then ':' else path[i - |login| - 1];
        assert s[|login| + 1] == path[0];
      }
    }
  }
}
