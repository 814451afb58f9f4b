// The drift collector's analysis of one workspace: tag drift, the classification of live
// resources, ghost candidates and the report.

module TagDrift {
  import opened Texts
  import opened TfState

  predicate Counts(key: string, ignore: set<string>) {
    !("aws:" <= key) && key !in ignore
  }

  function Kept(tags: Tags, ignore: set<string>): Tags {
    map k | k in tags && Counts(k, ignore) :: tags[k]
  }

  function Changed(want: Tags, have: Tags): set<string> {
    set k | k in want && k in have && want[k] != have[k]
  }

  function Marked(mark: char, keys: seq<string>): seq<string> {
    seq(|keys|, i requires 0 <= i < |keys| => [mark] + keys[i])
  }

  /** The summary names keys only; it is empty when nothing differs. */
  function TagDiff(stateTags: Tags, liveTags: Tags, ignore: set<string>): string {
    var want, have := Kept(stateTags, ignore), Kept(liveTags, ignore);
    var parts := Marked('+', SortKeys(have.Keys - want.Keys)) + Marked('~', SortKeys(Changed(want, have))) +
                 Marked('-', SortKeys(want.Keys - have.Keys));
    if parts == [] then "" else "tags changed: " + Join(parts, ' ')
  }

  /** State and live tags agree on a key: both without it, or both with one value. */
  predicate Agree(stateTags: Tags, liveTags: Tags, key: string) {
    (key in stateTags <==> key in liveTags) && (key in stateTags ==> stateTags[key] == liveTags[key])
  }

  /** There is tag drift exactly when some key differs that is not reserved for AWS and not to be ignored. */
  lemma TagDiffExactly(stateTags: Tags, liveTags: Tags, ignore: set<string>)
    ensures TagDiff(stateTags, liveTags, ignore) == "" <==>
            forall k | !("aws:" <= k) && k !in ignore :: Agree(stateTags, liveTags, k)
  {
    var want, have := Kept(stateTags, ignore), Kept(liveTags, ignore);
    var added, changed, removed := have.Keys - want.Keys, Changed(want, have), want.Keys - have.Keys;
    assert TagDiff(stateTags, liveTags, ignore) == "" <==> added == {} && changed == {} && removed == {};
    if added == {} && changed == {} && removed == {} {
      forall k | Counts(k, ignore) ensures Agree(stateTags, liveTags, k) {
        assert k !in added && k !in changed && k !in removed;
      }
    }
  }

  /** `+` shows a key that only the live resource has, `-` one that only the state has, `~` one whose values differ. */
  predicate IsShown(stateTags: Tags, liveTags: Tags, mark: char, key: string) {
    match mark
    case '+' => key in liveTags && key !in stateTags
    case '~' => key in stateTags && key in liveTags && stateTags[key] != liveTags[key]
    case '-' => key in stateTags && key !in liveTags
    case _ => false
  }

  /** Added keys come first, then changed, then removed ones, each in the order of the alphabet. */
  predicate ShownBefore(p: string, q: string)
    requires p != "" && q != ""
  {
    if p[0] == q[0] then Less(p[1..], q[1..]) else p[0] == '+' || (p[0] == '~' && q[0] == '-')
  }

  /** The summary shows every differing key that counts, in its way and once, and nothing else. */
  lemma SummaryShows(stateTags: Tags, liveTags: Tags, ignore: set<string>) returns (parts: seq<string>)
    ensures TagDiff(stateTags, liveTags, ignore) == if parts == [] then "" else "tags changed: " + Join(parts, ' ')
    ensures forall p :: p in parts <==>
              p != "" && !("aws:" <= p[1..]) && p[1..] !in ignore && IsShown(stateTags, liveTags, p[0], p[1..])
    ensures forall i | 0 <= i < |parts| :: parts[i] != ""
    ensures forall i, j | 0 <= i < j < |parts| :: ShownBefore(parts[i], parts[j])
  {
    var want, have := Kept(stateTags, ignore), Kept(liveTags, ignore);
    var added, changed, removed :=
      SortKeys(have.Keys - want.Keys), SortKeys(Changed(want, have)), SortKeys(want.Keys - have.Keys);
    var a, c, r := Marked('+', added), Marked('~', changed), Marked('-', removed);
    parts := a + c + r;
    MarkedExactly('+', added);
    MarkedExactly('~', changed);
    MarkedExactly('-', removed);
    MarkedInOrder(a, c, r);
    hide Marked, SortKeys, ShownBefore, Kept, Changed, IsShown;
    forall p
      ensures p in parts <==>
              p != "" && !("aws:" <= p[1..]) && p[1..] !in ignore && IsShown(stateTags, liveTags, p[0], p[1..])
    {
      assert p in parts <==> p in a || p in c || p in r;
      if p != "" {
        KeysOfMark(stateTags, liveTags, ignore, p[0], p[1..]);
      }
    }
  }

  lemma KeysOfMark(stateTags: Tags, liveTags: Tags, ignore: set<string>, mark: char, key: string)
    ensures var want, have := Kept(stateTags, ignore), Kept(liveTags, ignore);
            !("aws:" <= key) && key !in ignore && IsShown(stateTags, liveTags, mark, key) <==>
            || (mark == '+' && key in have.Keys - want.Keys) || (mark == '~' && key in Changed(want, have))
            || (mark == '-' && key in want.Keys - have.Keys)
  {
  }

  lemma MarkedExactly(mark: char, keys: seq<string>)
    requires forall i, j | 0 <= i < j < |keys| :: Less(keys[i], keys[j])
    ensures forall p :: p in Marked(mark, keys) <==> p != "" && p[0] == mark && p[1..] in keys
    ensures var m := Marked(mark, keys);
            && (forall i | 0 <= i < |m| :: m[i] != "" && m[i][0] == mark)
            && (forall i, j | 0 <= i < j < |m| :: Less(m[i][1..], m[j][1..]))
  {
    var m := Marked(mark, keys);
    assert forall i | 0 <= i < |m| :: m[i][1..] == keys[i];
    forall p | p != "" && p[0] == mark && p[1..] in keys ensures p in m {
      var i :| 0 <= i < |keys| && keys[i] == p[1..];
      assert m[i] == p;
    }
  }

  lemma MarkedInOrder(a: seq<string>, c: seq<string>, r: seq<string>)
    requires forall i | 0 <= i < |a| :: a[i] != "" && a[i][0] == '+'
    requires forall i | 0 <= i < |c| :: c[i] != "" && c[i][0] == '~'
    requires forall i | 0 <= i < |r| :: r[i] != "" && r[i][0] == '-'
    requires forall i, j | 0 <= i < j < |a| :: Less(a[i][1..], a[j][1..])
    requires forall i, j | 0 <= i < j < |c| :: Less(c[i][1..], c[j][1..])
    requires forall i, j | 0 <= i < j < |r| :: Less(r[i][1..], r[j][1..])
    ensures var parts := a + c + r;
            && (forall i | 0 <= i < |parts| :: parts[i] != "")
            && (forall i, j | 0 <= i < j < |parts| :: ShownBefore(parts[i], parts[j]))
  {
    hide Less;
  }

  /** Values never reach the summary: it depends on which keys are there and which differ. */
  lemma ValuesStayOut(s: Tags, l: Tags, s': Tags, l': Tags, ignore: set<string>)
    requires s.Keys == s'.Keys && l.Keys == l'.Keys
    requires forall k | k in s && k in l :: s[k] == l[k] <==> s'[k] == l'[k]
    ensures TagDiff(s, l, ignore) == TagDiff(s', l', ignore)
  {
    SameKept(s, l, s', l', ignore);
  }

  lemma KeptAgree(a: Tags, b: Tags, key: string, ignore: set<string>)
    requires key in ignore && forall k | k != key :: Agree(a, b, k)
    ensures Kept(a, ignore) == Kept(b, ignore)
  {
    forall k ensures k in Kept(a, ignore) <==> k in Kept(b, ignore) {
      assert k != key ==> Agree(a, b, k);
    }
    forall k | k in Kept(a, ignore) ensures Kept(a, ignore)[k] == Kept(b, ignore)[k] {
      assert Agree(a, b, k);
    }
  }

  lemma SameKept(s: Tags, l: Tags, s': Tags, l': Tags, ignore: set<string>)
    requires s.Keys == s'.Keys && l.Keys == l'.Keys
    requires forall k | k in s && k in l :: s[k] == l[k] <==> s'[k] == l'[k]
    ensures Kept(s, ignore).Keys == Kept(s', ignore).Keys && Kept(l, ignore).Keys == Kept(l', ignore).Keys
    ensures Changed(Kept(s, ignore), Kept(l, ignore)) == Changed(Kept(s', ignore), Kept(l', ignore))
  {
    assert Kept(s, ignore).Keys == Kept(s', ignore).Keys;
    assert Kept(l, ignore).Keys == Kept(l', ignore).Keys;
  }
}

module DriftCollector {
  import opened Options
  import opened Texts
  import opened Addresses
  import opened TfState
  import opened TagDrift

  // ---------- ARNs ----------

  /** What follows the fifth colon of an ARN. */
  function ResourcePart(arn: string): Option<string> {
    var parts := Split(arn, ':');
    if !("arn:" <= arn) || |parts| < 6 || Join(parts[5..], ':') == "" then None else Some(Join(parts[5..], ':'))
  }

  function ArnService(arn: string): string {
    var parts := Split(arn, ':');
    if |parts| > 2 then parts[2] else ""
  }

  /** The forms in which Terraform may store the id of an ARN's resource. */
  function IdCandidates(arn: string): set<string> {
    match ResourcePart(arn)
    case None => {}
    case Some(r) => {r, LastPart(r, '/'), LastPart(r, ':')} - {""}
  }

  /** The ARN's resource part is this id, or a type, one of the two separators, and this id. */
  predicate NamesId(arn: string, id: string) {
    && id != "" && ResourcePart(arn).Some?
    && var r := ResourcePart(arn).value;
       || r == id
       || ('/' !in id && EndsWith(r, "/" + id))
       || (':' !in id && EndsWith(r, ":" + id))
  }

  /** An id is recognised in an ARN exactly when it does not itself hold the separator in front of it. */
  lemma CandidatesExactly(arn: string, id: string)
    ensures id in IdCandidates(arn) <==> NamesId(arn, id)
  {
    if ResourcePart(arn).Some? {
      var r := ResourcePart(arn).value;
      LastPartExactly(r, '/', id);
      LastPartExactly(r, ':', id);
      LastPartExactly(r, '/', LastPart(r, '/'));
      LastPartExactly(r, ':', LastPart(r, ':'));
    }
  }

  lemma FieldsSplit(fields: seq<string>, rest: string)
    requires |fields| > 0 && forall i | 0 <= i < |fields| :: ':' !in fields[i]
    ensures Split(Join(fields, ':') + ":" + rest, ':') == fields + Split(rest, ':')
  {
    SplitConcat(Join(fields, ':'), rest, ':');
    SplitJoin(fields, ':');
  }

  /** An ARN is five fields and a resource part, which may hold colons; its third field is the service. */
  lemma ArnFields(fields: seq<string>, rest: string)
    requires |fields| == 5 && forall i | 0 <= i < 5 :: ':' !in fields[i]
    ensures var arn := Join(fields, ':') + ":" + rest;
            && ResourcePart(arn) == (if fields[0] == "arn" && rest != "" then Some(rest) else None)
            && ArnService(arn) == fields[2]
  {
    var arn := Join(fields, ':') + ":" + rest;
    FieldsSplit(fields, rest);
    JoinSplit(rest, ':');
    StartsWithFirst(fields[0], Join(fields[1..], ':') + ":" + rest);
    assert arn == fields[0] + ":" + (Join(fields[1..], ':') + ":" + rest);
    hide Join, Split;
    assert Split(arn, ':')[5..] == Split(rest, ':');
  }

  lemma StartsWithFirst(first: string, behind: string)
    requires ':' !in first
    ensures "arn:" <= first + ":" + behind <==> first == "arn"
  {
    var s := first + ":" + behind;
    if "arn:" <= s {
      assert s == "arn" + [':'] + s[4..];
      SameHeads("arn", s[4..], first, behind, ':');
    }
    assert first == "arn" ==> s[..4] == "arn:";
  }

  // ---------- Service owners ----------

  datatype ServiceTags = ServiceTags(owner: string, patterns: seq<string>)

  const SERVICE_OWNER_TAGS: seq<ServiceTags> := [
    ServiceTags("EKS", ["eks:cluster-name", "eks:eks-cluster-name", "aws:eks:cluster-name", "kubernetes.io/cluster/*",
                        "alpha.eksctl.io/cluster-name", "eks:nodegroup-name", "aws:eks:nodegroup-name"]),
    ServiceTags("Karpenter", ["karpenter.sh/*", "karpenter.k8s.aws/*"]),
    ServiceTags("CloudFormation", ["aws:cloudformation:stack-id", "aws:cloudformation:stack-name"]),
    ServiceTags("Auto Scaling", ["aws:autoscaling:groupName"]),
    ServiceTags("Elastic Beanstalk", ["elasticbeanstalk:environment-id", "elasticbeanstalk:environment-name"]),
    ServiceTags("AWS LB Controller", ["elbv2.k8s.aws/cluster", "ingress.k8s.aws/*", "service.k8s.aws/*",
                                      "ingress.eks.amazonaws.com/*", "service.eks.amazonaws.com/*",
                                      "elbv2.eks.amazonaws.com/*"]),
    ServiceTags("ECS", ["aws:ecs:clusterName", "aws:ecs:serviceName"]),
    ServiceTags("Service Catalog", ["aws:servicecatalog:provisionedProductArn"])
  ]

  predicate PatternHits(pattern: string, tags: Tags) {
    if EndsWith(pattern, "*") then exists k :: k in tags && pattern[..|pattern| - 1] <= k else pattern in tags
  }

  /** A pattern with a star at its end is a prefix of tag keys; any other is a tag key. */
  lemma PatternsExactly(pattern: string, tags: Tags)
    ensures PatternHits(pattern + "*", tags) <==> exists k :: k in tags && pattern <= k
    ensures pattern != "" && pattern[|pattern| - 1] != '*' ==> (PatternHits(pattern, tags) <==> pattern in tags)
  {
    var star := pattern + "*";
    assert star[|star| - 1..] == "*" && star[..|star| - 1] == pattern;
    if EndsWith(pattern, "*") {
      assert pattern[|pattern| - 1..][0] == pattern[|pattern| - 1];
    }
  }

  predicate OwnerHits(s: ServiceTags, tags: Tags) {
    exists p :: p in s.patterns && PatternHits(p, tags)
  }

  function ServiceOwner(table: seq<ServiceTags>, tags: Tags): Option<string> {
    if table == [] then None
    else if OwnerHits(table[0], tags) then Some(table[0].owner)
    else ServiceOwner(table[1..], tags)
  }

  /** An owner is found exactly when some pattern hits, and it is the first such owner of the table. */
  lemma {:induction false} FirstOwnerWins(table: seq<ServiceTags>, tags: Tags)
    ensures match ServiceOwner(table, tags)
            case None => forall s | s in table :: !OwnerHits(s, tags)
            case Some(owner) =>
              exists i :: 0 <= i < |table| && OwnerHits(table[i], tags) && table[i].owner == owner &&
                          forall j | 0 <= j < i :: !OwnerHits(table[j], tags)
  {
    if table != [] {
      FirstOwnerWins(table[1..], tags);
      if !OwnerHits(table[0], tags) && ServiceOwner(table[1..], tags).Some? {
        var i :| 0 <= i < |table| - 1 && OwnerHits(table[1..][i], tags) &&
            table[1..][i].owner == ServiceOwner(table, tags).value &&
                 forall j | 0 <= j < i :: !OwnerHits(table[1..][j], tags);
        forall j | 0 <= j < i + 1 ensures !OwnerHits(table[j], tags) {
          assert j > 0 ==> table[j] == table[1..][j - 1];
        }
        assert OwnerHits(table[i + 1], tags);
      }
    }
  }

  // ---------- Classification ----------

  datatype Live = Live(arn: string, tags: Tags)

  /** What is known of a workspace when its live resources are classified. */
  datatype Context = Context(
    codified: Collected, tagged: TagTable, owners: Owners, services: seq<ServiceTags>, region: string,
    accountId: string)

  function ContextOf(state: State, owners: Owners, services: seq<ServiceTags>, region: string,
                     accountId: string): Context {
    Context(CollectedFrom(Codified(state), region, accountId), StateTags(state), owners, services, region, accountId)
  }

  predicate IsTracked(c: Context, arn: string) {
    arn in c.codified.managedIds || c.codified.arnlessIds * IdCandidates(arn) != {}
  }

  /** The keys other workspaces' `aws_ec2_tag` resources set on this ARN's resource. */
  function KeysOf(owners: Owners, ids: set<string>): set<string> {
    set id, k | id in ids && k in KeysFor(owners, id) :: k
  }

  lemma KeysOfMore(owners: Owners, ids: set<string>, id: string)
    ensures KeysOf(owners, ids + {id}) == KeysOf(owners, ids) + KeysFor(owners, id)
  {
  }

  function IgnoredKeys(owners: Owners, arn: string): set<string> {
    KeysOf(owners, IdCandidates(arn))
  }

  function DriftOf(c: Context, item: Live): string {
    if item.arn in c.tagged.at
    then TagDiff(c.tagged.at[item.arn].tags, item.tags, IgnoredKeys(c.owners, item.arn))
    else ""
  }

  datatype Verdict = Tracked(diff: string) | ServiceManaged(owner: string) | Unmanaged

  function VerdictOf(c: Context, item: Live): Verdict {
    if IsTracked(c, item.arn) then Tracked(DriftOf(c, item))
    else match ServiceOwner(c.services, item.tags)
      case Some(owner) => if owner != "" then ServiceManaged(owner) else Unmanaged
      case None => Unmanaged
  }

  /**
   * A codified instance accounts for a live ARN by its ARN, by an id that is this text, or without
   * an ARN by its id.
   */
  predicate AccountsFor(m: Member, arn: string) {
    || (arn != "" && (m.Attrs().arn == arn || m.Attrs().id == arn))
    || (m.Attrs().arn == "" && NamesId(arn, m.Attrs().id))
  }

  predicate IsAccountedFor(state: State, arn: string) {
    exists m :: m in Codified(state) && AccountsFor(m, arn)
  }

  /** A live resource is tracked exactly when some codified instance accounts for it. */
  lemma TrackedExactly(state: State, c: Context, item: Live)
    requires c == ContextOf(state, c.owners, c.services, c.region, c.accountId)
    ensures VerdictOf(c, item).Tracked? <==> IsAccountedFor(state, item.arn)
  {
    if m :| m in Codified(state) && AccountsFor(m, item.arn) {
      if m.Attrs().arn == "" && NamesId(item.arn, m.Attrs().id) {
        CandidatesExactly(item.arn, m.Attrs().id);
        assert m.Attrs().id in c.codified.arnlessIds * IdCandidates(item.arn);
      }
    }
    if id :| id in c.codified.arnlessIds * IdCandidates(item.arn) {
      CandidatesExactly(item.arn, id);
      var m :| m in Codified(state) && m.Attrs().arn == "" && m.Attrs().id == id;
      assert AccountsFor(m, item.arn);
    }
  }

  /** Some tag is one that an AWS service puts on what it creates. */
  predicate IsServed(tags: Tags) {
    exists s :: s in SERVICE_OWNER_TAGS && OwnerHits(s, tags)
  }

  /** Tracked when accounted for; else service-managed when a service's tag is on it; else unmanaged. */
  lemma LiveIsClassified(state: State, c: Context, item: Live)
    requires c == ContextOf(state, c.owners, SERVICE_OWNER_TAGS, c.region, c.accountId)
    ensures var v := VerdictOf(c, item);
            && (v.Tracked? <==> IsAccountedFor(state, item.arn))
            && (v.ServiceManaged? <==> !IsAccountedFor(state, item.arn) && IsServed(item.tags))
            && (v.Unmanaged? <==> !IsAccountedFor(state, item.arn) && !IsServed(item.tags))
            && (v.ServiceManaged? ==>
                  exists i :: 0 <= i < |SERVICE_OWNER_TAGS| && OwnerHits(SERVICE_OWNER_TAGS[i], item.tags) &&
                              v.owner == SERVICE_OWNER_TAGS[i].owner &&
                              forall j | 0 <= j < i :: !OwnerHits(SERVICE_OWNER_TAGS[j], item.tags))
  {
    TrackedExactly(state, c, item);
    hide IsTracked, DriftOf, OwnerHits;
    FirstOwnerWins(SERVICE_OWNER_TAGS, item.tags);
    OwnersAreNamed();
  }

  /** For one: what carries a cluster's tag, whatever the cluster's name, and is not codified, is managed by EKS. */
  lemma ClusterTagIsEks(state: State, c: Context, item: Live, cluster: string)
    requires c == ContextOf(state, c.owners, SERVICE_OWNER_TAGS, c.region, c.accountId)
    requires !IsAccountedFor(state, item.arn) && "kubernetes.io/cluster/" + cluster in item.tags
    ensures VerdictOf(c, item) == ServiceManaged("EKS")
  {
    TrackedExactly(state, c, item);
    var pattern := "kubernetes.io/cluster/";
    PatternsExactly(pattern, item.tags);
    assert pattern <= pattern + cluster;
    assert SERVICE_OWNER_TAGS[0].patterns[3] == pattern + "*";
    hide PatternHits;
    assert OwnerHits(SERVICE_OWNER_TAGS[0], item.tags);
  }

  lemma OwnersAreNamed()
    ensures forall s | s in SERVICE_OWNER_TAGS :: s.owner != ""
  {
  }

  /** A resource whose state entry is a bare id is tracked when an ARN names that id. */
  lemma ArnlessIdIsTracked(state: State, c: Context, m: Member, item: Live)
    requires c == ContextOf(state, c.owners, c.services, c.region, c.accountId)
    requires m in Codified(state) && m.Attrs().arn == "" && NamesId(item.arn, m.Attrs().id)
    ensures VerdictOf(c, item).Tracked?
  {
    assert AccountsFor(m, item.arn);
    TrackedExactly(state, c, item);
  }

  /** Behind a type and a separator an id is recognised exactly when it does not hold that separator itself. */
  lemma SeparatedIdNamed(arn: string, kind: string, sep: char, id: string)
    requires sep in {'/', ':'} && id != "" && ResourcePart(arn) == Some(kind + [sep] + id)
    ensures NamesId(arn, id) <==> sep !in id
  {
    var r := kind + [sep] + id;
    var k := |r| - |id| - 1;
    assert r[k] == sep && r[k..] == [sep] + id;
    assert EndsWith(r, "/" + id) ==> r[k] == ("/" + id)[0];
    assert EndsWith(r, ":" + id) ==> r[k] == (":" + id)[0];
  }

  lemma ResourceIsShorter(arn: string)
    ensures ResourcePart(arn).Some? ==> |ResourcePart(arn).value| <= |arn|
  {
    JoinSplit(arn, ':');
    if ResourcePart(arn).Some? {
      JoinShrinks(Split(arn, ':'), 5);
    }
  }

  lemma {:induction false} JoinShrinks(parts: seq<string>, k: nat)
    requires k <= |parts|
    ensures |Join(parts[k..], ':')| <= |Join(parts, ':')|
  {
    if 0 < k {
      JoinShrinks(parts[1..], k - 1);
      assert parts[1..][k - 1..] == parts[k..];
    } else {
      assert parts[0..] == parts;
    }
  }

  /**
   * A live ARN whose resource part is a kind, a separator and the id of an ARN-less resource, and which
   * is accounted for by nothing else, is tracked exactly when the id does not hold that separator; if
   * it does, it is reported as unmanaged unless a service's tag is on it.
   */
  lemma SeparatedIdExactly(state: State, c: Context, m: Member, item: Live, kind: string, sep: char)
    requires c == ContextOf(state, c.owners, SERVICE_OWNER_TAGS, c.region, c.accountId)
    requires m in Codified(state) && m.Attrs().arn == ""
    requires sep in {'/', ':'} && ResourcePart(item.arn) == Some(kind + [sep] + m.Attrs().id)
    requires forall x | x in Codified(state) && AccountsFor(x, item.arn) ::
               x.Attrs().arn == m.Attrs().arn && x.Attrs().id == m.Attrs().id
    ensures VerdictOf(c, item).Tracked? <==> sep !in m.Attrs().id
    ensures VerdictOf(c, item).Unmanaged? <==> sep in m.Attrs().id && !IsServed(item.tags)
  {
    CodifiedExactly(state, m);
    ResourceIsShorter(item.arn);
    SeparatedIdNamed(item.arn, kind, sep, m.Attrs().id);
    LiveIsClassified(state, c, item);
    assert AccountsFor(m, item.arn) <==> sep !in m.Attrs().id;
  }

  const HIDDEN := Instance(Attributes("", "a/b", Missing, Missing, "", ""), NoIndex)
  const HIDING := Resource("managed", "aws_thing", "x", "", "", [HIDDEN])

  /** So a codified resource can be reported as unmanaged. */
  lemma HeldSeparatorIsUnmanaged(region: string, accountId: string)
    ensures Codified([HIDING]) == [Member(HIDING, HIDDEN)]
    ensures var c := ContextOf([HIDING], map[], SERVICE_OWNER_TAGS, region, accountId);
            VerdictOf(c, Live("arn:aws:s:r:1:t/a/b", map[])) == Unmanaged
  {
    assert !Has("", "hashicorp/") && ProviderName("") == "aws" && IsCloud(HIDING);
    OneCodified(HIDING, HIDDEN);
    SplitArn();
    NoTagsAreServed();
    HiddenId(ContextOf([HIDING], map[], SERVICE_OWNER_TAGS, region, accountId), "arn:aws:s:r:1:t/a/b");
  }

  lemma OneCodified(r: Resource, i: Instance)
    requires IsCloud(r) && r.instances == [i] && Identifies(i.attributes)
    ensures Codified([r]) == [Member(r, i)]
  {
    assert [i][..0] == [] && IdentifiedOf(r, []) == [];
    assert [r][..0] == [] && Codified([]) == [];
  }

  lemma HiddenId(c: Context, arn: string)
    requires c == ContextOf([HIDING], c.owners, SERVICE_OWNER_TAGS, c.region, c.accountId)
    requires Codified([HIDING]) == [Member(HIDING, HIDDEN)] && ResourcePart(arn) == Some("t/a/b")
    requires !IsServed(map[])
    ensures VerdictOf(c, Live(arn, map[])) == Unmanaged
  {
    assert "t/a/b" == "t" + ['/'] + "a/b" && "a/b"[1] == '/';
    SeparatedIdExactly([HIDING], c, Member(HIDING, HIDDEN), Live(arn, map[]), "t", '/');
  }

  lemma SplitArn()
    ensures ResourcePart("arn:aws:s:r:1:t/a/b") == Some("t/a/b")
  {
    var parts := ["arn", "aws", "s", "r", "1", "t/a/b"];
    SplitJoin(parts, ':');
    SpellsArn();
    assert parts[5..] == ["t/a/b"];
  }

  lemma SpellsArn()
    ensures Join(["arn", "aws", "s", "r", "1", "t/a/b"], ':') == "arn:aws:s:r:1:t/a/b"
  {
    var parts := ["arn", "aws", "s", "r", "1", "t/a/b"];
    assert parts[1..] == ["aws", "s", "r", "1", "t/a/b"] && parts[1..][1..] == ["s", "r", "1", "t/a/b"];
    assert parts[2..][1..] == ["r", "1", "t/a/b"] && parts[3..][1..] == ["1", "t/a/b"] && parts[4..][1..] == ["t/a/b"];
    assert Join(["1", "t/a/b"], ':') == "1:t/a/b";
    assert Join(["r", "1", "t/a/b"], ':') == "r:1:t/a/b";
    assert Join(["s", "r", "1", "t/a/b"], ':') == "s:r:1:t/a/b";
    assert Join(["aws", "s", "r", "1", "t/a/b"], ':') == "aws:s:r:1:t/a/b";
  }

  lemma NoTagsAreServed()
    ensures !IsServed(map[])
  {
  }

  datatype Finding = Modified | Untracked | Deleted
  datatype Drift = Drift(address: string, kind: string, finding: Finding, summary: string)

  const UNMANAGED_SUMMARY := "live resource not present in tfstate"
  const GHOST_SUMMARY := "in state but not found in AWS"

  /** The accumulators of the loop over the live resources. */
  datatype Tally = Tally(
    unmanagedResources: seq<Drift>, modifiedResources: seq<Drift>, driftByArn: map<string, string>, extras: seq<Asset>,
    unmanaged: nat, serviceManaged: nat)

  const NOTHING := Tally([], [], map[], [], 0, 0)

  function ExtraAsset(c: Context, item: Live): Asset {
    var v := VerdictOf(c, item);
    Asset(item.arn, "", ArnService(item.arn), "aws", c.region, c.accountId,
          if v.ServiceManaged? then IsServiceManaged else IsUnmanaged,
          if v.ServiceManaged? then "managed by " + v.owner else UNMANAGED_SUMMARY)
  }

  function Counted(c: Context, t: Tally, item: Live): Tally {
    if item.arn == "" then t
    else match VerdictOf(c, item)
      case Tracked(diff) =>
        if diff == "" then t
        else if item.arn in c.tagged.at then
          t.(driftByArn := t.driftByArn[item.arn := diff],
             modifiedResources := t.modifiedResources +
               [Drift(c.tagged.at[item.arn].address, c.tagged.at[item.arn].kind, Modified, diff)])
        else t
      case ServiceManaged(owner) =>
        t.(serviceManaged := t.serviceManaged + 1, extras := t.extras + [ExtraAsset(c, item)])
      case Unmanaged =>
        t.(unmanaged := t.unmanaged + 1,
           unmanagedResources :=
             t.unmanagedResources + [Drift(item.arn, ArnService(item.arn), Untracked, UNMANAGED_SUMMARY)],
           extras := t.extras + [ExtraAsset(c, item)])
  }

  function TallyOf(c: Context, live: seq<Live>): Tally {
    if live == [] then NOTHING else Counted(c, TallyOf(c, live[..|live| - 1]), live[|live| - 1])
  }

  method TallyLive(c: Context, live: seq<Live>) returns (t: Tally)
    ensures t == TallyOf(c, live)
  {
    t := NOTHING;
    for n := 0 to |live|
      invariant t == TallyOf(c, live[..n])
    {
      var item := live[n];
      assert live[..n + 1][..n] == live[..n] && live[..n + 1][n] == item;
      if item.arn == "" {
        continue;
      }
      if item.arn in c.codified.managedIds || c.codified.arnlessIds * IdCandidates(item.arn) != {} {
        if item.arn in c.tagged.at {
          var e := c.tagged.at[item.arn];
          var ignore := CollectIgnored(c.owners, item.arn);
          var diff := TagDiff(e.tags, item.tags, ignore);
          if diff != "" {
            t := t.(driftByArn := t.driftByArn[item.arn := diff],
                    modifiedResources := t.modifiedResources + [Drift(e.address, e.kind, Modified, diff)]);
          }
        }
        continue;
      }
      var owner := ServiceOwner(c.services, item.tags);
      var status, summary := IsUnmanaged, UNMANAGED_SUMMARY;
      if owner.Some? && owner.value != "" {
        t := t.(serviceManaged := t.serviceManaged + 1);
        status, summary := IsServiceManaged, "managed by " + owner.value;
      } else {
        t := t.(unmanaged := t.unmanaged + 1,
                unmanagedResources :=
                  t.unmanagedResources + [Drift(item.arn, ArnService(item.arn), Untracked, summary)]);
      }
      var extra := Asset(item.arn, "", ArnService(item.arn), "aws", c.region, c.accountId, status, summary);
      t := t.(extras := t.extras + [extra]);
    }
    assert live[..|live|] == live;
  }

  method CollectIgnored(owners: Owners, arn: string) returns (ignore: set<string>)
    ensures ignore == IgnoredKeys(owners, arn)
  {
    ignore := CollectKeys(owners, IdCandidates(arn));
  }

  /** A set is walked in no particular order. */
  method CollectKeys(owners: Owners, ids: set<string>) returns (keys: set<string>)
    ensures keys == KeysOf(owners, ids)
  {
    keys := {};
    var rest := ids;
    ghost var done: set<string> := {};
    while rest != {}
      invariant keys == KeysOf(owners, done) && done + rest == ids
      decreases |rest|
    {
      var id :| id in rest;
      KeysOfMore(owners, done, id);
      keys := keys + KeysFor(owners, id);
      rest, done := rest - {id}, done + {id};
    }
    assert done == ids;
  }

  /** Some workspace sets the key by an `aws_ec2_tag` on the resource this ARN names. */
  predicate SetElsewhere(states: seq<State>, arn: string, key: string) {
    exists st :: st in states && SetsKey(st, arn, key)
  }

  predicate SetsKey(state: State, arn: string, key: string) {
    exists r, i :: r in state && r.mode == "managed" && r.kind == "aws_ec2_tag" && i in r.instances &&
                   i.attributes.key == key != "" && i.attributes.resourceId != "" &&
                   NamesId(arn, i.attributes.resourceId)
  }

  lemma IgnoredExactly(states: seq<State>, owners: Owners, arn: string, key: string)
    requires OwnersOf(owners, AllTagPairs(states))
    ensures key in IgnoredKeys(owners, arn) <==> SetElsewhere(states, arn, key)
  {
    if key in IgnoredKeys(owners, arn) {
      var id :| id in IdCandidates(arn) && key in KeysFor(owners, id);
      CandidatesExactly(arn, id);
      var st :| st in states && (id, key) in TagPairs(st);
      var r :| r in st && IsTagResource(r) && (id, key) in PairsOf(r.instances);
      var i :| i in r.instances && SetsTag(i.attributes) && (i.attributes.resourceId, i.attributes.key) == (id, key);
      assert SetsKey(st, arn, key);
    }
    if SetElsewhere(states, arn, key) {
      var st :| st in states && SetsKey(st, arn, key);
      var r, i :| r in st && r.mode == "managed" && r.kind == "aws_ec2_tag" && i in r.instances &&
                  i.attributes.key == key != "" && i.attributes.resourceId != "" &&
                  NamesId(arn, i.attributes.resourceId);
      var id := i.attributes.resourceId;
      CandidatesExactly(arn, id);
      assert (id, key) in PairsOf(r.instances) && (id, key) in TagPairs(st);
      assert (id, key) in AllTagPairs(states);
      assert key in KeysFor(owners, id);
    }
  }

  /**
   * For every state and every live resource with an ARN of it: by the tags Terraform applied to the
   * last instance of the ARN, the resource drifts exactly when some key differs that is not reserved
   * for AWS and that no workspace sets on it from elsewhere.
   */
  lemma DriftsExactly(state: State, states: seq<State>, c: Context, n: nat, k: nat, item: Live, want: Tags)
    requires c == ContextOf(state, c.owners, c.services, c.region, c.accountId)
    requires OwnersOf(c.owners, AllTagPairs(states))
    requires LastTagged(state, n, k, item.arn) && AppliedTags(state[n].instances[k].attributes, want)
    ensures DriftOf(c, item) == "" <==>
            forall key | !("aws:" <= key) && !SetElsewhere(states, item.arn, key) ::
              (key in want <==> key in item.tags) && (key in want ==> want[key] == item.tags[key])
  {
    LastInstanceCounts(state, n, k, item.arn);
    assert StateTags(state).at[item.arn].tags == want;
    hide TagDiff, IgnoredKeys, SetElsewhere, OwnersOf, AllTagPairs, LastTagged, Codified;
    DiffersExactly(states, c.owners, item, want);
  }

  lemma DiffersExactly(states: seq<State>, owners: Owners, item: Live, want: Tags)
    requires OwnersOf(owners, AllTagPairs(states))
    ensures TagDiff(want, item.tags, IgnoredKeys(owners, item.arn)) == "" <==>
            forall key | !("aws:" <= key) && !SetElsewhere(states, item.arn, key) ::
              (key in want <==> key in item.tags) && (key in want ==> want[key] == item.tags[key])
  {
    var ignore := IgnoredKeys(owners, item.arn);
    TagDiffExactly(want, item.tags, ignore);
    forall key ensures key in ignore <==> SetElsewhere(states, item.arn, key) {
      IgnoredExactly(states, owners, item.arn, key);
    }
    hide TagDiff, IgnoredKeys, SetElsewhere, OwnersOf, AllTagPairs;
  }

  /** What the state does not tag cannot drift. */
  lemma UntaggedIsNoDrift(state: State, c: Context, item: Live)
    requires c == ContextOf(state, c.owners, c.services, c.region, c.accountId) && !HasTagged(state, item.arn)
    ensures DriftOf(c, item) == ""
  {
    StateTagsExactly(state);
  }

  /**
   * A key set by an `aws_ec2_tag` of any fetched state never counts on that resource: whatever its
   * live value, or its absence, the resource drifts by its other keys alone.
   */
  lemma ForeignTagIsNoDrift(states: seq<State>, c: Context, item: Live, other: Live, key: string)
    requires OwnersOf(c.owners, AllTagPairs(states)) && SetElsewhere(states, item.arn, key)
    requires item.arn == other.arn && forall k | k != key :: Agree(item.tags, other.tags, k)
    ensures DriftOf(c, item) == DriftOf(c, other)
  {
    IgnoredExactly(states, c.owners, item.arn, key);
    KeptAgree(item.tags, other.tags, key, IgnoredKeys(c.owners, item.arn));
  }

  // ---------- The accumulators agree ----------

  predicate IsDrift(c: Context, item: Live) {
    item.arn != "" && VerdictOf(c, item).Tracked? && VerdictOf(c, item).diff != ""
  }

  function Outside(c: Context, live: seq<Live>): seq<Live> {
    if live == [] then []
    else
      var before := Outside(c, live[..|live| - 1]);
      var last := live[|live| - 1];
      if last.arn != "" && !VerdictOf(c, last).Tracked? then before + [last] else before
  }

  function Drifting(c: Context, live: seq<Live>): seq<Live> {
    if live == [] then []
    else
      var before := Drifting(c, live[..|live| - 1]);
      var last := live[|live| - 1];
      if IsDrift(c, last) then before + [last] else before
  }

  function CountStatus(assets: seq<Asset>, s: Status): nat {
    if assets == [] then 0
    else CountStatus(assets[..|assets| - 1], s) + (if assets[|assets| - 1].status == s then 1 else 0)
  }

  function ExtrasOf(c: Context, items: seq<Live>): seq<Asset> {
    seq(|items|, i requires 0 <= i < |items| => ExtraAsset(c, items[i]))
  }

  function ArnsOf(items: seq<Live>): set<string> {
    set x | x in items :: x.arn
  }

  lemma CountSnoc(assets: seq<Asset>, a: Asset, s: Status)
    ensures CountStatus(assets + [a], s) == CountStatus(assets, s) + (if a.status == s then 1 else 0)
  {
    assert (assets + [a])[..|assets|] == assets;
  }

  /** Extra assets and untracked live resources match one to one, and each counter counts what it is named after. */
  lemma {:induction false} ExtrasMatchUntracked(c: Context, live: seq<Live>)
    ensures var t := TallyOf(c, live);
            && t.extras == ExtrasOf(c, Outside(c, live))
            && t.unmanaged == |t.unmanagedResources| == CountStatus(t.extras, IsUnmanaged)
            && t.serviceManaged == CountStatus(t.extras, IsServiceManaged)
            && t.unmanaged + t.serviceManaged == |t.extras|
            && CountStatus(t.extras, IsDrifted) == 0 && CountStatus(t.extras, IsGhost) == 0
  {
    hide VerdictOf;
    if live != [] {
      var n := |live| - 1;
      ExtrasMatchUntracked(c, live[..n]);
      var t, item := TallyOf(c, live[..n]), live[n];
      var a := ExtraAsset(c, item);
      if item.arn != "" && !VerdictOf(c, item).Tracked? {
        CountSnoc(t.extras, a, IsUnmanaged);
        CountSnoc(t.extras, a, IsServiceManaged);
        CountSnoc(t.extras, a, IsDrifted);
        CountSnoc(t.extras, a, IsGhost);
        assert TallyOf(c, live).extras == t.extras + [a];
        assert ExtrasOf(c, Outside(c, live)) == ExtrasOf(c, Outside(c, live[..n])) + [a];
      } else {
        assert TallyOf(c, live).extras == t.extras;
      }
    }
  }

  /** The drift table and the modified list both hold these drifting resources. */
  predicate Records(c: Context, t: Tally, drifting: seq<Live>) {
    && |t.modifiedResources| == |drifting| && t.driftByArn.Keys == ArnsOf(drifting)
    && (forall a | a in t.driftByArn :: t.driftByArn[a] != "" && a in c.tagged.at)
  }

  /** And they say of each what changed, under the address of the state. */
  predicate Tells(c: Context, t: Tally, drifting: seq<Live>) {
    && t.modifiedResources == ModifiedOf(c, drifting)
    && (forall a | a in t.driftByArn :: exists x :: x in drifting && x.arn == a && t.driftByArn[a] == DriftOf(c, x))
  }

  function ModifiedOf(c: Context, drifting: seq<Live>): seq<Drift> {
    seq(|drifting|, i requires 0 <= i < |drifting| => ModifiedEntry(c, drifting[i]))
  }

  function ModifiedEntry(c: Context, x: Live): Drift {
    if x.arn in c.tagged.at
    then Drift(c.tagged.at[x.arn].address, c.tagged.at[x.arn].kind, Modified, DriftOf(c, x))
    else Drift("", "", Modified, DriftOf(c, x))
  }

  lemma CountedDrift(c: Context, t: Tally, item: Live)
    ensures var u := Counted(c, t, item);
            if IsDrift(c, item) then
              && item.arn in c.tagged.at && DriftOf(c, item) != ""
              && u.modifiedResources == t.modifiedResources + [ModifiedEntry(c, item)]
              && u.driftByArn == t.driftByArn[item.arn := DriftOf(c, item)]
            else u.modifiedResources == t.modifiedResources && u.driftByArn == t.driftByArn
  {
  }

  lemma ArnsSnoc(items: seq<Live>, item: Live)
    ensures ArnsOf(items + [item]) == ArnsOf(items) + {item.arn}
  {
  }

  lemma CountedRecords(c: Context, t: Tally, drifting: seq<Live>, item: Live)
    requires Records(c, t, drifting)
    ensures Records(c, Counted(c, t, item), if IsDrift(c, item) then drifting + [item] else drifting)
  {
    var u := Counted(c, t, item);
    CountedDrift(c, t, item);
    ArnsSnoc(drifting, item);
    hide IsDrift, DriftOf, Counted, ModifiedEntry, ArnsOf;
    if IsDrift(c, item) {
      assert u.driftByArn.Keys == t.driftByArn.Keys + {item.arn};
      assert Records(c, u, drifting + [item]);
    } else {
      assert Records(c, u, drifting);
    }
  }

  lemma CountedTells(c: Context, t: Tally, drifting: seq<Live>, item: Live)
    requires Tells(c, t, drifting)
    ensures Tells(c, Counted(c, t, item), if IsDrift(c, item) then drifting + [item] else drifting)
  {
    CountedDrift(c, t, item);
    hide IsDrift, DriftOf, Counted;
    var u := Counted(c, t, item);
    if IsDrift(c, item) {
      assert ModifiedOf(c, drifting + [item]) == ModifiedOf(c, drifting) + [ModifiedEntry(c, item)];
      forall a | a in u.driftByArn
        ensures exists x :: x in drifting + [item] && x.arn == a && u.driftByArn[a] == DriftOf(c, x)
      {
        if a == item.arn {
          assert item in drifting + [item];
        } else {
          var x :| x in drifting && x.arn == a && t.driftByArn[a] == DriftOf(c, x);
          assert x in drifting + [item];
        }
      }
    }
  }

  /** What is recorded as drift are the tracked live resources whose tags differ. */
  lemma {:induction false} ModifiedMatchDrifting(c: Context, live: seq<Live>)
    ensures Records(c, TallyOf(c, live), Drifting(c, live)) && Tells(c, TallyOf(c, live), Drifting(c, live))
  {
    if live != [] {
      hide Records, Tells, IsDrift;
      var n := |live| - 1;
      ModifiedMatchDrifting(c, live[..n]);
      CountedRecords(c, TallyOf(c, live[..n]), Drifting(c, live[..n]), live[n]);
      CountedTells(c, TallyOf(c, live[..n]), Drifting(c, live[..n]), live[n]);
    }
  }

  datatype Class = Accounted | Served | Foreign

  function ClassOf(state: State, item: Live): Class {
    if IsAccountedFor(state, item.arn) then Accounted else if IsServed(item.tags) then Served else Foreign
  }

  /** How many of the live resources with an ARN are of a class. */
  function HowMany(state: State, live: seq<Live>, kind: Class): nat {
    if live == [] then 0
    else
      var last := live[|live| - 1];
      HowMany(state, live[..|live| - 1], kind) + if last.arn != "" && ClassOf(state, last) == kind then 1 else 0
  }

  function WithArn(live: seq<Live>): nat {
    if live == [] then 0 else WithArn(live[..|live| - 1]) + if live[|live| - 1].arn != "" then 1 else 0
  }

  /** The counters count two of the classes, and every live resource with an ARN is in exactly one of the three. */
  lemma {:induction false} LiveIsPartitioned(state: State, c: Context, live: seq<Live>)
    requires c == ContextOf(state, c.owners, SERVICE_OWNER_TAGS, c.region, c.accountId)
    ensures var t := TallyOf(c, live);
            && t.unmanaged == HowMany(state, live, Foreign) && t.serviceManaged == HowMany(state, live, Served)
            && t.unmanaged + t.serviceManaged + HowMany(state, live, Accounted) == WithArn(live)
  {
    if live != [] {
      LiveIsPartitioned(state, c, live[..|live| - 1]);
      LiveIsClassified(state, c, live[|live| - 1]);
    }
  }

  /** The live resources with an ARN that nothing accounts for and no service claims. */
  function Foreigners(state: State, live: seq<Live>): seq<Live> {
    if live == [] then []
    else
      var before, last := Foreigners(state, live[..|live| - 1]), live[|live| - 1];
      if last.arn != "" && ClassOf(state, last) == Foreign then before + [last] else before
  }

  function ForeignEntries(items: seq<Live>): seq<Drift> {
    seq(|items|, i requires 0 <= i < |items| =>
      Drift(items[i].arn, ArnService(items[i].arn), Untracked, "live resource not present in tfstate"))
  }

  /** They are what the report lists as untracked, by ARN and service. */
  lemma {:induction false} ForeignersAreListed(state: State, c: Context, live: seq<Live>)
    requires c == ContextOf(state, c.owners, SERVICE_OWNER_TAGS, c.region, c.accountId)
    ensures TallyOf(c, live).unmanagedResources == ForeignEntries(Foreigners(state, live))
  {
    if live != [] {
      var n := |live| - 1;
      ForeignersAreListed(state, c, live[..n]);
      CountedForeign(state, c, TallyOf(c, live[..n]), live[n]);
      hide ClassOf, Counted, ContextOf, SERVICE_OWNER_TAGS;
      var before := Foreigners(state, live[..n]);
      assert ForeignEntries(before + [live[n]]) == ForeignEntries(before) + ForeignEntries([live[n]]);
    }
  }

  lemma CountedForeign(state: State, c: Context, t: Tally, item: Live)
    requires c == ContextOf(state, c.owners, SERVICE_OWNER_TAGS, c.region, c.accountId)
    ensures Counted(c, t, item).unmanagedResources == t.unmanagedResources +
            if item.arn != "" && ClassOf(state, item) == Foreign then ForeignEntries([item]) else []
  {
    LiveIsClassified(state, c, item);
    hide VerdictOf, IsServed, IsAccountedFor, OwnerHits;
  }

  /** Drift is found in a live resource exactly when it is accounted for and its tags differ. */
  lemma {:induction false} DriftingExactly(state: State, c: Context, live: seq<Live>, x: Live)
    requires c == ContextOf(state, c.owners, c.services, c.region, c.accountId)
    ensures x in Drifting(c, live) <==> x in live && x.arn != "" && IsAccountedFor(state, x.arn) && DriftOf(c, x) != ""
  {
    if live != [] {
      var n := |live| - 1;
      DriftingExactly(state, c, live[..n], x);
      TrackedExactly(state, c, live[n]);
      assert live == live[..n] + [live[n]];
      hide IsAccountedFor, IsTracked, DriftOf, ContextOf;
    }
  }

  /** What is listed beside the codified assets: an ARN nothing accounts for, under the service that claims it. */
  lemma ExtraTells(state: State, c: Context, item: Live)
    requires c == ContextOf(state, c.owners, SERVICE_OWNER_TAGS, c.region, c.accountId)
    requires !IsAccountedFor(state, item.arn)
    ensures var a := ExtraAsset(c, item);
            && a.assetId == item.arn && a.kind == ArnService(item.arn) && a.address == "" && a.provider == "aws"
            && a.region == c.region && a.accountId == c.accountId
            && a.status == (if IsServed(item.tags) then IsServiceManaged else IsUnmanaged)
            && a.driftSummary == (if VerdictOf(c, item).ServiceManaged? then "managed by " + VerdictOf(c, item).owner
                                  else "live resource not present in tfstate")
  {
    LiveIsClassified(state, c, item);
  }

  // ---------- Ghost candidates ----------

  predicate IsCandidate(t: TagTable, liveArns: set<string>, region: string, arn: string) {
    && arn in t.at
    && |Split(arn, ':')| >= 6 && Split(arn, ':')[3] == region
    && (exists k :: k in t.at[arn].tags && !("aws:" <= k))
    && arn !in liveArns
  }

  function CandidatesIn(t: TagTable, order: seq<string>, liveArns: set<string>, region: string): seq<string> {
    if order == [] then []
    else
      var before := CandidatesIn(t, order[..|order| - 1], liveArns, region);
      var last := order[|order| - 1];
      if IsCandidate(t, liveArns, region, last) then before + [last] else before
  }

  lemma {:induction false} CandidatesAre(t: TagTable, order: seq<string>, liveArns: set<string>, region: string)
    ensures forall a | a in CandidatesIn(t, order, liveArns, region) :: IsCandidate(t, liveArns, region, a)
  {
    if order != [] {
      CandidatesAre(t, order[..|order| - 1], liveArns, region);
    }
  }

  /** The candidates are the ARNs of the table that carry a counting tag, are in the region, and were not listed. */
  lemma CandidatesInExactly(t: TagTable, liveArns: set<string>, region: string, arn: string)
    requires t.Valid()
    ensures arn in CandidatesIn(t, t.order, liveArns, region) <==> IsCandidate(t, liveArns, region, arn)
  {
    CandidatesAre(t, t.order, liveArns, region);
    if IsCandidate(t, liveArns, region, arn) {
      var i :| 0 <= i < |t.order| && t.order[i] == arn;
      CandidateStays(t, t.order, liveArns, region, i);
    }
  }

  lemma {:induction false} CandidateStays(t: TagTable, order: seq<string>, liveArns: set<string>, region: string,
                                          i: nat)
    requires i < |order| && IsCandidate(t, liveArns, region, order[i])
    ensures order[i] in CandidatesIn(t, order, liveArns, region)
  {
    if i < |order| - 1 {
      CandidateStays(t, order[..|order| - 1], liveArns, region, i);
    }
  }

  /** An ARN of fewer fields is never a candidate. */
  lemma CandidateHasFields(t: TagTable, liveArns: set<string>, region: string, arn: string)
    returns (fields: seq<string>, rest: string)
    requires IsCandidate(t, liveArns, region, arn)
    ensures |fields| == 5 && (forall i | 0 <= i < 5 :: ':' !in fields[i]) && arn == Join(fields, ':') + ":" + rest
  {
    var parts := Split(arn, ':');
    fields, rest := parts[..5], Join(parts[5..], ':');
    JoinSplit(arn, ':');
    JoinParts(parts, 5);
  }

  lemma {:induction false} JoinParts(parts: seq<string>, n: nat)
    requires 0 < n < |parts|
    ensures Join(parts, ':') == Join(parts[..n], ':') + ":" + Join(parts[n..], ':')
  {
    if n == 1 {
      assert parts[..1] == [parts[0]];
    } else {
      JoinParts(parts[1..], n - 1);
      assert parts[..n][1..] == parts[1..][..n - 1] && parts[1..][n - 1..] == parts[n..];
      var a, b, d := parts[0] + ":", Join(parts[1..][..n - 1], ':'), ":" + Join(parts[n..], ':');
      assert a + (b + d) == (a + b) + d;
    }
  }

  /**
   * A resource is looked for a second time exactly when the state's tags for it, by the last instance of its
   * ARN, have a key that is not reserved for AWS, its region is the scanned one, and the scan did not list it.
   */
  lemma CandidateExactly(state: State, n: nat, k: nat, want: Tags, live: seq<Live>, region: string,
                         fields: seq<string>, rest: string)
    requires |fields| == 5 && forall i | 0 <= i < 5 :: ':' !in fields[i]
    requires LastTagged(state, n, k, Join(fields, ':') + ":" + rest)
    requires AppliedTags(state[n].instances[k].attributes, want)
    ensures var t, arn := StateTags(state), Join(fields, ':') + ":" + rest;
            arn in CandidatesIn(t, t.order, ArnsOf(live), region) <==>
            && fields[3] == region && (exists key :: key in want && !("aws:" <= key))
            && forall x | x in live :: x.arn != arn
  {
    var t, arn := StateTags(state), Join(fields, ':') + ":" + rest;
    LastInstanceCounts(state, n, k, arn);
    StateTagsExactly(state);
    CandidatesInExactly(t, ArnsOf(live), region, arn);
    FieldsSplit(fields, rest);
  }

  method GhostCandidates(t: TagTable, liveArns: set<string>, region: string) returns (out: seq<string>)
    requires t.Valid()
    ensures out == CandidatesIn(t, t.order, liveArns, region)
    ensures forall a :: a in out <==> IsCandidate(t, liveArns, region, a)
  {
    hide IsCandidate;
    out := [];
    for n := 0 to |t.order|
      invariant out == CandidatesIn(t, t.order[..n], liveArns, region)
    {
      assert t.order[..n + 1][..n] == t.order[..n] && t.order[..n + 1][n] == t.order[n];
      assert t.order[n] in t.order;
      var qualifies := Qualifies(t, liveArns, region, t.order[n]);
      if qualifies {
        out := out + [t.order[n]];
      }
    }
    assert t.order[..|t.order|] == t.order;
    forall a ensures a in out <==> IsCandidate(t, liveArns, region, a) {
      CandidatesInExactly(t, liveArns, region, a);
    }
  }

  method Qualifies(t: TagTable, liveArns: set<string>, region: string, arn: string) returns (qualifies: bool)
    requires arn in t.at
    ensures qualifies == IsCandidate(t, liveArns, region, arn)
  {
    var parts := Split(arn, ':');
    if |parts| < 6 || parts[3] != region {
      return false;
    }
    if !exists k :: k in t.at[arn].tags && !("aws:" <= k) {
      return false;
    }
    qualifies := arn !in liveArns;
  }

  // ---------- The report ----------

  datatype Report = Report(
    hasDrift: bool, driftChecked: bool, modifiedCount: nat, untrackedCount: nat, deletedCount: nat,
    resources: seq<Drift>, assets: seq<Asset>)

  const COLLECTOR_ERROR := Report(false, false, 0, 0, 0, [], [])

  function MarkedAsset(a: Asset, driftByArn: map<string, string>, ghosts: set<string>): Asset {
    if a.assetId in ghosts then a.(status := IsGhost, driftSummary := GHOST_SUMMARY)
    else if a.assetId in driftByArn && driftByArn[a.assetId] != "" then
      a.(status := IsDrifted, driftSummary := driftByArn[a.assetId])
    else a
  }

  function MarkedAssets(assets: seq<Asset>, driftByArn: map<string, string>, ghosts: set<string>): seq<Asset> {
    seq(|assets|, i requires 0 <= i < |assets| => MarkedAsset(assets[i], driftByArn, ghosts))
  }

  function DeletedOf(t: TagTable, arns: seq<string>): seq<Drift> {
    seq(|arns|, i requires 0 <= i < |arns| =>
      if arns[i] in t.at then Drift(t.at[arns[i]].address, t.at[arns[i]].kind, Deleted, GHOST_SUMMARY)
      else Drift("", "", Deleted, GHOST_SUMMARY))
  }

  /** A second look at candidates: which of them it agrees are gone. */
  type Confirm = seq<string> -> set<string>

  function GhostsOf(c: Context, live: Option<seq<Live>>, confirm: Option<Confirm>): set<string> {
    if live.None? || confirm.None? then {}
    else
      var candidates := CandidatesIn(c.tagged, c.tagged.order, ArnsOf(live.value), c.region);
      if candidates == [] then {} else confirm.value(candidates) * (set a | a in candidates)
  }

  function ReportOf(c: Context, live: Option<seq<Live>>, confirm: Option<Confirm>): Report {
    var t := TallyOf(c, if live.Some? then live.value else []);
    var ghosts := GhostsOf(c, live, confirm);
    var deleted := DeletedOf(c.tagged, SortKeys(ghosts));
    Report(|t.modifiedResources| + |deleted| > 0, live.Some?, |t.modifiedResources|, t.unmanaged, |deleted|,
           t.modifiedResources + deleted + t.unmanagedResources,
           MarkedAssets(c.codified.assets, t.driftByArn, ghosts) + t.extras)
  }

  method AnalyzeWorkspace(
    state: State, region: string, accountId: string, live: Option<seq<Live>>, owners: Owners, confirm: Option<Confirm>)
    returns (r: Report)
    ensures r == ReportOf(ContextOf(state, owners, SERVICE_OWNER_TAGS, region, accountId), live, confirm)
  {
    var codified := ManagedFromTfstate(state, region, accountId);
    var tagged := ReadStateTags(state);
    StateTagsExactly(state);
    var c := Context(codified, tagged, owners, SERVICE_OWNER_TAGS, region, accountId);
    r := ReportIn(c, live, confirm);
  }

  method MarkAssets(managed: seq<Asset>, driftByArn: map<string, string>, ghosts: set<string>)
    returns (assets: seq<Asset>)
    ensures assets == MarkedAssets(managed, driftByArn, ghosts)
  {
    assets := managed;
    for i := 0 to |assets|
      invariant |assets| == |managed|
      invariant forall j | 0 <= j < |assets| ::
                  assets[j] == if j < i then MarkedAsset(managed[j], driftByArn, ghosts) else managed[j]
    {
      var a := assets[i];
      if a.assetId in ghosts {
        assets := assets[i := a.(status := IsGhost, driftSummary := GHOST_SUMMARY)];
      } else if a.assetId in driftByArn && driftByArn[a.assetId] != "" {
        assets := assets[i := a.(status := IsDrifted, driftSummary := driftByArn[a.assetId])];
      }
    }
  }

  method ReportIn(c: Context, live: Option<seq<Live>>, confirm: Option<Confirm>) returns (r: Report)
    requires c.tagged.Valid()
    ensures r == ReportOf(c, live, confirm)
  {
    var items := if live.Some? then live.value else [];
    var t := TallyLive(c, items);
    var ghosts: set<string> := {};
    if live.Some? && confirm.Some? {
      var candidates := GhostCandidates(c.tagged, ArnsOf(items), c.region);
      if candidates != [] {
        ghosts := confirm.value(candidates) * set a | a in candidates;
      }
    }
    var deleted := DeletedOf(c.tagged, SortKeys(ghosts));
    var assets := MarkAssets(c.codified.assets, t.driftByArn, ghosts);
    r := Report(|t.modifiedResources| + |deleted| > 0, live.Some?, |t.modifiedResources|, t.unmanaged, |deleted|,
                t.modifiedResources + deleted + t.unmanagedResources, assets + t.extras);
  }

  // ---------- The report's counts are the counts of its assets ----------

  predicate DistinctIds(assets: seq<Asset>) {
    forall i, j | 0 <= i < j < |assets| :: assets[i].assetId != assets[j].assetId
  }

  function IdsOf(assets: seq<Asset>): set<string> {
    set a | a in assets :: a.assetId
  }

  predicate DistinctArns(live: seq<Live>) {
    forall i, j | 0 <= i < j < |live| :: live[i].arn != live[j].arn
  }

  /** ARNs stand on cloud resources only, and none is the sentinel `none`. */
  predicate ArnsAreCloud(state: State) {
    forall r, i | r in state && r.mode == "managed" && i in r.instances && i.attributes.arn != "" ::
      IsCloud(r) && i.attributes.arn != "none"
  }

  lemma MarkedSnoc(assets: seq<Asset>, a: Asset, driftByArn: map<string, string>, ghosts: set<string>)
    ensures MarkedAssets(assets + [a], driftByArn, ghosts) ==
            MarkedAssets(assets, driftByArn, ghosts) + [MarkedAsset(a, driftByArn, ghosts)]
  {
  }

  /** Assets marked with a status, counted by the ids that earn it. */
  lemma {:induction false} CountMarked(
    assets: seq<Asset>, driftByArn: map<string, string>, ghosts: set<string>, s: Status, earning: set<string>)
    requires DistinctIds(assets)
    requires forall a | a in assets :: MarkedAsset(a, driftByArn, ghosts).status == s <==> a.assetId in earning
    ensures CountStatus(MarkedAssets(assets, driftByArn, ghosts), s) == |earning * IdsOf(assets)|
  {
    if assets != [] {
      var n := |assets| - 1;
      var init, a := assets[..n], assets[n];
      assert assets == init + [a];
      CountMarked(init, driftByArn, ghosts, s, earning);
      MarkedSnoc(init, a, driftByArn, ghosts);
      CountSnoc(MarkedAssets(init, driftByArn, ghosts), MarkedAsset(a, driftByArn, ghosts), s);
      IdsSnoc(init, a);
      OneMoreId(earning, IdsOf(init), a.assetId);
    } else {
      assert earning * IdsOf(assets) == {};
    }
  }

  lemma IdsSnoc(init: seq<Asset>, a: Asset)
    ensures IdsOf(init + [a]) == IdsOf(init) + {a.assetId}
    ensures DistinctIds(init + [a]) ==> DistinctIds(init) && a.assetId !in IdsOf(init)
  {
    var all := init + [a];
    assert all[|init|] == a && forall i | 0 <= i < |init| :: all[i] == init[i];
    if DistinctIds(all) {
      forall x | x in init ensures x.assetId != a.assetId {
        var i :| 0 <= i < |init| && init[i] == x;
        assert all[i].assetId != all[|init|].assetId;
      }
      forall i, j | 0 <= i < j < |init| ensures init[i].assetId != init[j].assetId {
        assert all[i].assetId != all[j].assetId;
      }
    }
  }

  lemma OneMoreId(s: set<string>, ids: set<string>, id: string)
    requires id !in ids
    ensures |s * (ids + {id})| == |s * ids| + (if id in s then 1 else 0)
  {
    if id in s {
      assert s * (ids + {id}) == s * ids + {id};
    } else {
      assert s * (ids + {id}) == s * ids;
    }
  }

  lemma {:induction false} CountConcat(a: seq<Asset>, b: seq<Asset>, s: Status)
    ensures CountStatus(a + b, s) == CountStatus(a, s) + CountStatus(b, s)
  {
    if b == [] {
      assert a + b == a;
    } else {
      var n := |b| - 1;
      CountConcat(a, b[..n], s);
      assert a + b == (a + b[..n]) + [b[n]];
      CountSnoc(a + b[..n], b[n], s);
    }
  }

  lemma CloudIsCodified(state: State, r: Resource, i: Instance)
    requires r in state && IsCloud(r) && i in r.instances && Identifies(i.attributes)
    ensures Member(r, i) in Codified(state)
  {
    CodifiedExactly(state, Member(r, i));
  }

  /** With ARNs on cloud resources only, every tagged ARN is the id of a codified asset. */
  lemma TaggedAreAssets(state: State, region: string, accountId: string)
    requires ArnsAreCloud(state)
    ensures StateTags(state).at.Keys <= IdsOf(AssetsOf(Codified(state), region, accountId))
  {
    StateTagsExactly(state);
    forall arn | arn in StateTags(state).at ensures arn in IdsOf(AssetsOf(Codified(state), region, accountId)) {
      assert HasTagged(state, arn);
      var r :| r in state && r.mode == "managed" && exists i :: i in r.instances && TaggedAs(i, arn);
      var i :| i in r.instances && TaggedAs(i, arn);
      CloudIsCodified(state, r, i);
      var k :| 0 <= k < |Codified(state)| && Codified(state)[k] == Member(r, i);
      assert AssetsOf(Codified(state), region, accountId)[k].assetId == arn;
    }
  }

  lemma {:induction false} DriftingAreLive(c: Context, live: seq<Live>)
    ensures forall x | x in Drifting(c, live) :: x in live
  {
    if live != [] {
      DriftingAreLive(c, live[..|live| - 1]);
      assert live == live[..|live| - 1] + [live[|live| - 1]];
    }
  }

  lemma {:induction false} DriftingAreDistinct(c: Context, live: seq<Live>)
    requires DistinctArns(live)
    ensures |ArnsOf(Drifting(c, live))| == |Drifting(c, live)|
  {
    if live != [] {
      var n := |live| - 1;
      var before, item := Drifting(c, live[..n]), live[n];
      DriftingAreDistinct(c, live[..n]);
      DriftingAreLive(c, live[..n]);
      ArnsSnoc(before, item);
      forall x | x in before ensures x.arn != item.arn {
        var i :| 0 <= i < n && live[..n][i] == x;
        assert live[i].arn != live[n].arn;
      }
      assert item.arn !in ArnsOf(before);
    }
  }

  /**
   * The report's counters are the numbers of its assets of each status, for every state whose asset
   * ids are distinct and whose ARNs are on cloud resources, and every listing without repeated ARNs.
   */
  lemma CountsMatchAssets(state: State, owners: Owners, services: seq<ServiceTags>, region: string, accountId: string,
                          live: Option<seq<Live>>, confirm: Option<Confirm>)
    requires ArnsAreCloud(state) && DistinctIds(AssetsOf(Codified(state), region, accountId))
    requires live.Some? ==> DistinctArns(live.value)
    ensures var r := ReportOf(ContextOf(state, owners, services, region, accountId), live, confirm);
            && CountStatus(r.assets, IsDrifted) == r.modifiedCount
            && CountStatus(r.assets, IsGhost) == r.deletedCount
            && CountStatus(r.assets, IsUnmanaged) == r.untrackedCount
            && (r.hasDrift <==> r.modifiedCount + r.deletedCount > 0)
  {
    var c := ContextOf(state, owners, services, region, accountId);
    TaggedAreAssets(state, region, accountId);
    CountsMatchIn(c, live, confirm);
  }

  /**
   * The report's list is what was modified, then the ghosts by ARN, then what nothing accounts for; its
   * counters are the lengths of the three, and only the first two are drift.
   */
  lemma ReportLists(state: State, c: Context, live: Option<seq<Live>>, confirm: Option<Confirm>)
    returns (deleted: seq<Drift>, gone: seq<string>)
    requires c == ContextOf(state, c.owners, SERVICE_OWNER_TAGS, c.region, c.accountId)
    ensures var r := ReportOf(c, live, confirm);
            var items := if live.Some? then live.value else [];
            var modified, foreign := ModifiedOf(c, Drifting(c, items)), ForeignEntries(Foreigners(state, items));
            && r.resources == modified + deleted + foreign
            && r.modifiedCount == |modified| && r.deletedCount == |deleted| && r.untrackedCount == |foreign|
            && (r.hasDrift <==> modified != [] || deleted != []) && r.driftChecked == live.Some?
    ensures (forall g :: g in gone <==> g in GhostsOf(c, live, confirm)) && |gone| == |deleted|
    ensures forall i, j | 0 <= i < j < |gone| :: Less(gone[i], gone[j])
    ensures forall i | 0 <= i < |gone| ::
              && gone[i] in c.tagged.at
              && deleted[i] == Drift(c.tagged.at[gone[i]].address, c.tagged.at[gone[i]].kind, Deleted,
                                     "in state but not found in AWS")
  {
    var items := if live.Some? then live.value else [];
    ForeignersAreListed(state, c, items);
    ModifiedMatchDrifting(c, items);
    ExtrasMatchUntracked(c, items);
    GhostsAreAbsent(c, live, confirm);
    var ghosts := GhostsOf(c, live, confirm);
    hide SERVICE_OWNER_TAGS, Foreigners, TallyOf, GhostsOf, Drifting, Split, SortKeys, CountStatus, ExtrasOf;
    assert forall g | g in ghosts :: g in c.tagged.at;
    gone := SortKeys(ghosts);
    deleted := DeletedOf(c.tagged, gone);
  }

  /** Ghosts are tagged ARNs that were not in the listing. */
  lemma GhostsAreAbsent(c: Context, live: Option<seq<Live>>, confirm: Option<Confirm>)
    ensures forall g | g in GhostsOf(c, live, confirm) ::
              live.Some? && IsCandidate(c.tagged, ArnsOf(live.value), c.region, g)
  {
    if live.Some? {
      CandidatesAre(c.tagged, c.tagged.order, ArnsOf(live.value), c.region);
    }
  }

  /** How a codified asset is shown: as a ghost, as drifted with what differs live, or as it is in the state. */
  lemma AssetsTell(state: State, c: Context, live: seq<Live>, confirm: Option<Confirm>, i: nat)
    requires c == ContextOf(state, c.owners, c.services, c.region, c.accountId) && i < |Codified(state)|
    ensures var r := ReportOf(c, Some(live), confirm);
            var m := Codified(state)[i];
            var id := if m.Attrs().arn != "" then m.Attrs().arn else m.Attrs().id;
            && i < |r.assets| && r.assets[i].assetId == id
            && r.assets[i].address == m.Address() && r.assets[i].kind == m.resource.kind
            && r.assets[i].provider == ProviderName(m.resource.provider)
            && r.assets[i].region == c.region && r.assets[i].accountId == c.accountId
            && if id in GhostsOf(c, Some(live), confirm) then
                 r.assets[i].status == IsGhost && r.assets[i].driftSummary == "in state but not found in AWS"
               else if exists x :: x in Drifting(c, live) && x.arn == id then
                 r.assets[i].status == IsDrifted &&
                 exists x :: x in Drifting(c, live) && x.arn == id && r.assets[i].driftSummary == DriftOf(c, x)
               else r.assets[i].status == IsCodified && r.assets[i].driftSummary == ""
  {
    ModifiedMatchDrifting(c, live);
    var t := TallyOf(c, live);
    var id := AssetId(Codified(state)[i].Attrs());
    assert id in t.driftByArn <==> exists x :: x in Drifting(c, live) && x.arn == id;
  }

  lemma CountsMatchIn(c: Context, live: Option<seq<Live>>, confirm: Option<Confirm>)
    requires DistinctIds(c.codified.assets) && forall a | a in c.codified.assets :: a.status == IsCodified
    requires c.tagged.at.Keys <= IdsOf(c.codified.assets)
    requires live.Some? ==> DistinctArns(live.value)
    ensures var r := ReportOf(c, live, confirm);
            && CountStatus(r.assets, IsDrifted) == r.modifiedCount
            && CountStatus(r.assets, IsGhost) == r.deletedCount
            && CountStatus(r.assets, IsUnmanaged) == r.untrackedCount
  {
    var items := if live.Some? then live.value else [];
    var t, ghosts := TallyOf(c, items), GhostsOf(c, live, confirm);
    ModifiedMatchDrifting(c, items);
    DriftingAreDistinct(c, items);
    DriftingAreLive(c, items);
    ExtrasMatchUntracked(c, items);
    GhostsAreAbsent(c, live, confirm);
    assert t.driftByArn.Keys !! ghosts;
    CountsOfMarked(c.codified.assets, t.driftByArn, ghosts, t.extras);
  }

  lemma CountsOfMarked(assets: seq<Asset>, driftByArn: map<string, string>, ghosts: set<string>, extras: seq<Asset>)
    requires DistinctIds(assets) && forall a | a in assets :: a.status == IsCodified
    requires driftByArn.Keys <= IdsOf(assets) && ghosts <= IdsOf(assets) && driftByArn.Keys !! ghosts
    requires forall a | a in driftByArn :: driftByArn[a] != ""
    requires CountStatus(extras, IsDrifted) == 0 && CountStatus(extras, IsGhost) == 0
    ensures var out := MarkedAssets(assets, driftByArn, ghosts) + extras;
            && CountStatus(out, IsDrifted) == |driftByArn.Keys| && CountStatus(out, IsGhost) == |ghosts|
            && CountStatus(out, IsUnmanaged) == CountStatus(extras, IsUnmanaged)
  {
    CountInReport(assets, driftByArn, ghosts, extras, IsDrifted, driftByArn.Keys);
    CountInReport(assets, driftByArn, ghosts, extras, IsGhost, ghosts);
    CountInReport(assets, driftByArn, ghosts, extras, IsUnmanaged, {});
  }

  lemma CountInReport(assets: seq<Asset>, driftByArn: map<string, string>, ghosts: set<string>, extras: seq<Asset>,
                      s: Status, earning: set<string>)
    requires DistinctIds(assets) && earning <= IdsOf(assets)
    requires forall a | a in assets :: MarkedAsset(a, driftByArn, ghosts).status == s <==> a.assetId in earning
    ensures CountStatus(MarkedAssets(assets, driftByArn, ghosts) + extras, s) == |earning| + CountStatus(extras, s)
  {
    CountMarked(assets, driftByArn, ghosts, s, earning);
    assert earning * IdsOf(assets) == earning;
    CountConcat(MarkedAssets(assets, driftByArn, ghosts), extras, s);
  }

  /**
   * Of distinct codified ids and distinct live ARNs no two assets of the report share an id: the
   * inventory's unique key is not violated by what the collector adds.
   */
  lemma ReportIdsAreDistinct(state: State, c: Context, live: Option<seq<Live>>, confirm: Option<Confirm>)
    requires c == ContextOf(state, c.owners, c.services, c.region, c.accountId)
    requires DistinctIds(c.codified.assets) && (live.Some? ==> DistinctArns(live.value))
    ensures DistinctIds(ReportOf(c, live, confirm).assets)
  {
    var items := if live.Some? then live.value else [];
    var t, ghosts := TallyOf(c, items), GhostsOf(c, live, confirm);
    ExtrasMatchUntracked(c, items);
    OutsideIsDistinct(c, items);
    var outside := Outside(c, items);
    forall i, j | 0 <= i < |c.codified.assets| && 0 <= j < |outside|
      ensures c.codified.assets[i].assetId != outside[j].arn
    {
      assert outside[j] in outside;
      UntrackedIsNotCodified(state, c, outside[j].arn, i);
    }
    MarkedStayDistinct(c.codified.assets, t.driftByArn, ghosts, outside, t.extras);
  }

  lemma MarkedStayDistinct(assets: seq<Asset>, driftByArn: map<string, string>, ghosts: set<string>,
                           outside: seq<Live>, extras: seq<Asset>)
    requires DistinctIds(assets) && DistinctArns(outside)
    requires |extras| == |outside| && forall j | 0 <= j < |extras| :: extras[j].assetId == outside[j].arn
    requires forall i, j | 0 <= i < |assets| && 0 <= j < |outside| :: assets[i].assetId != outside[j].arn
    ensures DistinctIds(MarkedAssets(assets, driftByArn, ghosts) + extras)
  {
    var marked := MarkedAssets(assets, driftByArn, ghosts);
    assert forall i | 0 <= i < |marked| :: marked[i].assetId == assets[i].assetId;
    DistinctTogether(marked, extras);
  }

  lemma DistinctTogether(a: seq<Asset>, b: seq<Asset>)
    requires DistinctIds(a) && DistinctIds(b)
    requires forall i, j | 0 <= i < |a| && 0 <= j < |b| :: a[i].assetId != b[j].assetId
    ensures DistinctIds(a + b)
  {
  }

  lemma UntrackedIsNotCodified(state: State, c: Context, arn: string, i: nat)
    requires c == ContextOf(state, c.owners, c.services, c.region, c.accountId)
    requires !IsTracked(c, arn) && i < |c.codified.assets|
    ensures c.codified.assets[i].assetId != arn
  {
    var m := Codified(state)[i];
    assert m in Codified(state);
    CodifiedExactly(state, m);
  }

  lemma {:induction false} OutsideIsDistinct(c: Context, live: seq<Live>)
    requires DistinctArns(live)
    ensures DistinctArns(Outside(c, live))
    ensures forall x | x in Outside(c, live) :: x in live && !VerdictOf(c, x).Tracked?
  {
    if live != [] {
      var n := |live| - 1;
      OutsideIsDistinct(c, live[..n]);
      assert live == live[..n] + [live[n]];
      forall x | x in Outside(c, live[..n]) ensures x.arn != live[n].arn {
        var i :| 0 <= i < n && live[..n][i] == x;
        assert live[i].arn != live[n].arn;
      }
    }
  }
}
