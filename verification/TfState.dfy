// A raw Terraform state document and what the drift collector reads from it.

module TfState {
  import opened Texts
  import opened Addresses

  type Tags = map<string, string>

  /** A tag attribute may be missing, null, or an object. */
  datatype TagAttribute = Missing | Null | Given(tags: Tags)

  /** Instance attributes; a missing or null text attribute is the empty text. */
  datatype Attributes = Attributes(
    arn: string, id: string, tagsAll: TagAttribute, tags: TagAttribute, resourceId: string, key: string)

  datatype Instance = Instance(attributes: Attributes, index: Index)

  datatype Resource = Resource(
    mode: string, kind: string, name: string, moduleAddress: string, provider: string, instances: seq<Instance>)

  type State = seq<Resource>

  const NON_CLOUD_PROVIDERS: set<string> :=
    {"random", "null", "tls", "time", "local", "external", "archive", "template"}

  /** What follows the last occurrence of a text, or the whole text. */
  function AfterLast(s: string, mark: string): string
    requires mark != ""
    decreases |s|
  {
    if s == "" then ""
    else if mark <= s && !Has(s[|mark|..], mark) then s[|mark|..]
    else if !Has(s, mark) then s
    else AfterLast(s[1..], mark)
  }

  function ProviderName(raw: string): string {
    if Has(raw, "hashicorp/") then StripRight(AfterLast(raw, "hashicorp/"), {'"', ']'}) else "aws"
  }

  predicate IsCloud(r: Resource) {
    r.mode == "managed" && ProviderName(r.provider) !in NON_CLOUD_PROVIDERS
  }

  function AssetId(a: Attributes): string {
    if a.arn != "" then a.arn else a.id
  }

  predicate Identifies(a: Attributes) {
    AssetId(a) != "" && AssetId(a) != "none"
  }

  /** The registry's spelling of a provider ends with its name, a quote and a bracket. */
  lemma ProviderNamed(before: string, name: string)
    requires name != "" && forall i | 0 <= i < |name| :: name[i] !in {'/', '"', ']'}
    ensures ProviderName(before + ("hashicorp/" + (name + "\"]"))) == name
  {
    var mark, end := "hashicorp/", name + "\"]";
    assert forall c | c in "hashicorp" :: c != '/';
    assert forall d | 0 <= d < 9 :: mark[d] == "hashicorp"[d];
    OutOfSight(end, mark);
    AfterLastOf(before, mark, end);
    QuoteComesOff(name);
  }

  lemma OutOfSight(s: string, mark: string)
    requires mark != "" && mark[|mark| - 1] !in s
    ensures !Has(s, mark)
  {
    forall i | 0 <= i <= |s| ensures !(mark <= s[i..]) {
      if |mark| <= |s[i..]| {
        assert s[i..][|mark| - 1] == s[i + |mark| - 1];
      }
    }
  }

  lemma QuoteComesOff(name: string)
    requires name != "" && name[|name| - 1] !in {'"', ']'}
    ensures StripRight(name + "\"]", {'"', ']'}) == name
  {
    var end := name + "\"]";
    assert end[..|end| - 1] == name + "\"" && (name + "\"")[..|name|] == name;
    assert StripRight(name, {'"', ']'}) == name;
    assert StripRight(name + "\"", {'"', ']'}) == name;
  }

  lemma {:induction false} AfterLastOf(before: string, mark: string, end: string)
    requires mark != "" && !Has(end, mark) && forall d | 0 <= d < |mark| - 1 :: mark[d] != mark[|mark| - 1]
    ensures Has(before + (mark + end), mark) && AfterLast(before + (mark + end), mark) == end
  {
    var s := before + (mark + end);
    assert s[|before|..] == mark + end && mark <= mark + end;
    if before == "" {
      assert s[|mark|..] == end;
    } else {
      AfterLastOf(before[1..], mark, end);
      assert s[1..] == before[1..] + (mark + end);
      MarksApart(before, mark, end);
    }
  }

  lemma MarksApart(before: string, mark: string, end: string)
    requires before != "" && mark != "" && forall d | 0 <= d < |mark| - 1 :: mark[d] != mark[|mark| - 1]
    ensures var s := before + (mark + end); mark <= s ==> Has(s[|mark|..], mark)
  {
    var s := before + (mark + end);
    if |mark| <= |before| {
      assert s[|mark|..][|before| - |mark|..] == mark + end;
    } else {
      assert s[|mark| - 1] == mark[|mark| - 1 - |before|];
    }
  }

  // ---------- Codified assets ----------

  /** An instance together with the resource it belongs to. */
  datatype Member = Member(resource: Resource, instance: Instance) {
    function Attrs(): Attributes {
      instance.attributes
    }

    function Address(): string {
      Prefixed(resource.moduleAddress, LocalAddress(resource.kind, resource.name, instance.index))
    }
  }

  function IdentifiedOf(r: Resource, instances: seq<Instance>): seq<Member> {
    if instances == [] then []
    else
      var before := IdentifiedOf(r, instances[..|instances| - 1]);
      var last := instances[|instances| - 1];
      if Identifies(last.attributes) then before + [Member(r, last)] else before
  }

  /** The managed cloud instances with a usable id, in document order. */
  function Codified(state: State): seq<Member> {
    if state == [] then []
    else
      var before := Codified(state[..|state| - 1]);
      var last := state[|state| - 1];
      if IsCloud(last) then before + IdentifiedOf(last, last.instances) else before
  }

  lemma {:induction false} IdentifiedExactly(r: Resource, instances: seq<Instance>, m: Member)
    ensures m in IdentifiedOf(r, instances) <==>
            m.resource == r && m.instance in instances && Identifies(m.Attrs())
  {
    if instances != [] {
      IdentifiedExactly(r, instances[..|instances| - 1], m);
      assert instances == instances[..|instances| - 1] + [instances[|instances| - 1]];
    }
  }

  /** Codified are the managed instances of cloud providers whose ARN, or else whose id, is there and is not `none`. */
  lemma {:induction false} CodifiedExactly(state: State, m: Member)
    ensures m in Codified(state) <==>
            && m.resource in state && m.resource.mode == "managed" && m.instance in m.resource.instances
            && ProviderName(m.resource.provider) !in
               {"random", "null", "tls", "time", "local", "external", "archive", "template"}
            && (if m.Attrs().arn != "" then m.Attrs().arn else m.Attrs().id) !in {"", "none"}
  {
    if state != [] {
      var last := state[|state| - 1];
      CodifiedExactly(state[..|state| - 1], m);
      IdentifiedExactly(last, last.instances, m);
      assert state == state[..|state| - 1] + [last];
    }
  }

  datatype Status = IsCodified | IsDrifted | IsGhost | IsServiceManaged | IsUnmanaged

  datatype Asset = Asset(
    assetId: string, address: string, kind: string, provider: string, region: string, accountId: string,
    status: Status, driftSummary: string)

  function AssetOf(m: Member, region: string, accountId: string): Asset {
    Asset(AssetId(m.Attrs()), m.Address(), m.resource.kind, ProviderName(m.resource.provider), region, accountId,
        IsCodified, "")
  }

  function AssetsOf(ms: seq<Member>, region: string, accountId: string): seq<Asset> {
    seq(|ms|, i requires 0 <= i < |ms| => AssetOf(ms[i], region, accountId))
  }

  function ManagedIds(ms: seq<Member>): set<string> {
    (set m | m in ms :: m.Attrs().arn) + (set m | m in ms :: m.Attrs().id) - {""}
  }

  function ArnlessIds(ms: seq<Member>): set<string> {
    (set m | m in ms && m.Attrs().arn == "" :: m.Attrs().id) - {""}
  }

  /** The collector's three accumulators and what they must hold for the members seen. */
  datatype Collected = Collected(assets: seq<Asset>, managedIds: set<string>, arnlessIds: set<string>)

  function CollectedFrom(ms: seq<Member>, region: string, accountId: string): Collected {
    Collected(AssetsOf(ms, region, accountId), ManagedIds(ms), ArnlessIds(ms))
  }

  method ManagedFromTfstate(state: State, region: string, accountId: string) returns (c: Collected)
    ensures c == CollectedFrom(Codified(state), region, accountId)
  {
    c := Collected([], {}, {});
    for n := 0 to |state|
      invariant c == CollectedFrom(Codified(state[..n]), region, accountId)
    {
      var r := state[n];
      assert state[..n + 1][..n] == state[..n] && state[..n + 1][n] == r;
      if !IsCloud(r) {
        continue;
      }
      c := CollectInstances(c, Codified(state[..n]), r, region, accountId);
    }
    assert state[..|state|] == state;
  }

  method CollectInstances(c: Collected, ghost before: seq<Member>, r: Resource, region: string, accountId: string)
    returns (out: Collected)
    requires c == CollectedFrom(before, region, accountId)
    ensures out == CollectedFrom(before + IdentifiedOf(r, r.instances), region, accountId)
  {
    out := c;
    assert before + IdentifiedOf(r, r.instances[..0]) == before;
    for i := 0 to |r.instances|
      invariant out == CollectedFrom(before + IdentifiedOf(r, r.instances[..i]), region, accountId)
    {
      var inst := r.instances[i];
      assert r.instances[..i + 1][..i] == r.instances[..i] && r.instances[..i + 1][i] == inst;
      if AssetId(inst.attributes) == "" || AssetId(inst.attributes) == "none" {
        continue;
      }
      ghost var seen := IdentifiedOf(r, r.instances[..i]);
      OneMoreMember(before + seen, Member(r, inst), region, accountId);
      ConcatAssociates(before, seen, [Member(r, inst)]);
      out := CollectOne(out, Member(r, inst), region, accountId);
    }
    assert r.instances[..|r.instances|] == r.instances;
  }

  method CollectOne(c: Collected, m: Member, region: string, accountId: string) returns (out: Collected)
    ensures out.assets == c.assets + [AssetOf(m, region, accountId)]
    ensures out.managedIds == c.managedIds + ({m.Attrs().arn, m.Attrs().id} - {""})
    ensures out.arnlessIds == c.arnlessIds + (if m.Attrs().arn == "" then {m.Attrs().id} - {""} else {})
  {
    var arn, id := m.Attrs().arn, m.Attrs().id;
    var managedIds, arnlessIds := c.managedIds, c.arnlessIds;
    if arn != "" {
      managedIds := managedIds + {arn};
    }
    if id != "" {
      managedIds := managedIds + {id};
      if arn == "" {
        arnlessIds := arnlessIds + {id};
      }
    }
    var asset := Asset(if arn != "" then arn else id, m.Address(), m.resource.kind,
                       ProviderName(m.resource.provider), region, accountId, IsCodified, "");
    out := Collected(c.assets + [asset], managedIds, arnlessIds);
  }

  lemma OneMoreMember(ms: seq<Member>, m: Member, region: string, accountId: string)
    ensures AssetsOf(ms + [m], region, accountId) == AssetsOf(ms, region, accountId) + [AssetOf(m, region, accountId)]
    ensures ManagedIds(ms + [m]) == ManagedIds(ms) + ({m.Attrs().arn, m.Attrs().id} - {""})
    ensures ArnlessIds(ms + [m]) == ArnlessIds(ms) + (if m.Attrs().arn == "" then {m.Attrs().id} - {""} else {})
  {
    var all := ms + [m];
    assert forall x :: x in all <==> x in ms || x == m;
  }

  // ---------- State tags ----------

  datatype TagEntry = TagEntry(address: string, kind: string, tags: Tags)

  /** A dictionary by ARN that remembers the order of first insertion. */
  datatype TagTable = TagTable(order: seq<string>, at: map<string, TagEntry>) {
    function Put(arn: string, e: TagEntry): TagTable {
      TagTable(if arn in at then order else order + [arn], at[arn := e])
    }

    ghost predicate Valid() {
      (forall a :: a in order <==> a in at) && forall i, j | 0 <= i < j < |order| :: order[i] != order[j]
    }
  }

  predicate IsTaggable(a: Attributes) {
    a.arn != "" && !(a.tagsAll.Missing? && a.tags.Missing?)
  }

  /** `tags_all` when the key is there at all, even null; else `tags`. */
  function EffectiveTags(a: Attributes): Tags {
    var attr := if a.tagsAll.Missing? then a.tags else a.tagsAll;
    if attr.Given? then attr.tags else map[]
  }

  function EntryOf(m: Member): TagEntry {
    TagEntry(m.Address(), m.resource.kind, EffectiveTags(m.Attrs()))
  }

  function TaggedBy(t: TagTable, r: Resource, instances: seq<Instance>): TagTable {
    if instances == [] then t
    else
      var before := TaggedBy(t, r, instances[..|instances| - 1]);
      var last := instances[|instances| - 1];
      if IsTaggable(last.attributes) then before.Put(last.attributes.arn, EntryOf(Member(r, last))) else before
  }

  function StateTags(state: State): TagTable {
    if state == [] then TagTable([], map[])
    else
      var before := StateTags(state[..|state| - 1]);
      var last := state[|state| - 1];
      if last.mode == "managed" then TaggedBy(before, last, last.instances) else before
  }

  method ReadStateTags(state: State) returns (out: TagTable)
    ensures out == StateTags(state)
  {
    out := TagTable([], map[]);
    for n := 0 to |state|
      invariant out == StateTags(state[..n])
    {
      var r := state[n];
      assert state[..n + 1][..n] == state[..n] && state[..n + 1][n] == r;
      if r.mode != "managed" {
        continue;
      }
      ghost var before := out;
      for i := 0 to |r.instances|
        invariant out == TaggedBy(before, r, r.instances[..i])
      {
        var inst := r.instances[i];
        var a := inst.attributes;
        assert r.instances[..i + 1][..i] == r.instances[..i] && r.instances[..i + 1][i] == inst;
        if a.arn == "" || (a.tagsAll.Missing? && a.tags.Missing?) {
          continue;
        }
        out := out.Put(a.arn, EntryOf(Member(r, inst)));
      }
      assert r.instances[..|r.instances|] == r.instances;
    }
    assert state[..|state|] == state;
  }

  /** An instance of this ARN that has a tag attribute, even a null one. */
  predicate TaggedAs(i: Instance, arn: string) {
    arn != "" && i.attributes.arn == arn && (!i.attributes.tagsAll.Missing? || !i.attributes.tags.Missing?)
  }

  /** A managed, taggable instance of the state has this ARN. */
  predicate HasTagged(state: State, arn: string) {
    exists r :: r in state && r.mode == "managed" && exists i :: i in r.instances && TaggedAs(i, arn)
  }

  lemma {:induction false} TaggedByAdds(t: TagTable, r: Resource, instances: seq<Instance>)
    requires t.Valid()
    ensures TaggedBy(t, r, instances).Valid()
    ensures forall a :: a in TaggedBy(t, r, instances).at <==>
              a in t.at || exists i :: i in instances && TaggedAs(i, a)
  {
    if instances != [] {
      TaggedByAdds(t, r, instances[..|instances| - 1]);
      var last := instances[|instances| - 1];
      assert instances == instances[..|instances| - 1] + [last];
      forall a ensures (exists i :: i in instances && TaggedAs(i, a)) <==>
                       TaggedAs(last, a) || exists i :: i in instances[..|instances| - 1] && TaggedAs(i, a)
      {
        assert last in instances;
      }
    }
  }

  /** The table has exactly the ARNs of the managed, taggable instances. */
  lemma {:induction false} StateTagsExactly(state: State)
    ensures StateTags(state).Valid() && forall a :: a in StateTags(state).at <==> HasTagged(state, a)
  {
    if state != [] {
      var n := |state| - 1;
      StateTagsExactly(state[..n]);
      if state[n].mode == "managed" {
        TaggedByAdds(StateTags(state[..n]), state[n], state[n].instances);
      }
      assert state == state[..n] + [state[n]];
    }
  }

  /** The instance is the last of the document that is managed, taggable and of this ARN. */
  predicate LastTagged(state: State, n: nat, k: nat, arn: string) {
    && n < |state| && state[n].mode == "managed" && k < |state[n].instances| && TaggedAs(state[n].instances[k], arn)
    && (forall j | k < j < |state[n].instances| :: !TaggedAs(state[n].instances[j], arn))
    && (forall m, j | n < m < |state| && state[m].mode == "managed" && 0 <= j < |state[m].instances| ::
          !TaggedAs(state[m].instances[j], arn))
  }

  /**
   * These are the tags Terraform applied: those of the newer attribute if it is there, else of the
   * older; null counts as none.
   */
  predicate AppliedTags(a: Attributes, tags: Tags) {
    || a.tagsAll == Given(tags) || (a.tagsAll.Null? && tags == map[])
    || (a.tagsAll.Missing? && (a.tags == Given(tags) || (a.tags.Null? && tags == map[])))
  }

  lemma {:induction false} TaggedByOthers(t: TagTable, r: Resource, instances: seq<Instance>, arn: string)
    requires forall i | i in instances :: !TaggedAs(i, arn)
    ensures arn in TaggedBy(t, r, instances).at <==> arn in t.at
    ensures arn in t.at ==> TaggedBy(t, r, instances).at[arn] == t.at[arn]
  {
    if instances != [] {
      TaggedByOthers(t, r, instances[..|instances| - 1], arn);
      assert instances[|instances| - 1] in instances;
    }
  }

  lemma {:induction false} TaggedByLast(t: TagTable, r: Resource, instances: seq<Instance>, k: nat, arn: string)
    requires k < |instances| && TaggedAs(instances[k], arn)
    requires forall j | k < j < |instances| :: !TaggedAs(instances[j], arn)
    ensures var u := TaggedBy(t, r, instances);
            && arn in u.at && u.at[arn].address == Member(r, instances[k]).Address() && u.at[arn].kind == r.kind
            && AppliedTags(instances[k].attributes, u.at[arn].tags)
  {
    var n := |instances| - 1;
    if k < n {
      TaggedByLast(t, r, instances[..n], k, arn);
      assert !TaggedAs(instances[n], arn);
    }
  }

  /** What the table holds of an ARN is the last instance's: its address, its type, and the tags applied to it. */
  lemma {:induction false} LastInstanceCounts(state: State, n: nat, k: nat, arn: string)
    requires LastTagged(state, n, k, arn)
    ensures arn in StateTags(state).at
    ensures var e := StateTags(state).at[arn];
            && e.address == Member(state[n], state[n].instances[k]).Address() && e.kind == state[n].kind
            && AppliedTags(state[n].instances[k].attributes, e.tags)
  {
    var last := |state| - 1;
    var r := state[last];
    if n == last {
      TaggedByLast(StateTags(state[..last]), r, r.instances, k, arn);
    } else {
      LastInstanceCounts(state[..last], n, k, arn);
      if r.mode == "managed" {
        forall i | i in r.instances ensures !TaggedAs(i, arn) {
          var j :| 0 <= j < |r.instances| && r.instances[j] == i;
        }
        TaggedByOthers(StateTags(state[..last]), r, r.instances, arn);
      }
    }
  }

  // ---------- Tags set from elsewhere ----------

  /** Tag keys by resource id. */
  type Owners = map<string, set<string>>

  function KeysFor(o: Owners, id: string): set<string> {
    if id in o then o[id] else {}
  }

  function Owned(o: Owners, id: string, keys: set<string>): Owners {
    o[id := KeysFor(o, id) + keys]
  }

  predicate SetsTag(a: Attributes) {
    a.resourceId != "" && a.key != ""
  }

  function PairsOf(instances: seq<Instance>): set<(string, string)> {
    set i | i in instances && SetsTag(i.attributes) :: (i.attributes.resourceId, i.attributes.key)
  }

  predicate IsTagResource(r: Resource) {
    r.mode == "managed" && r.kind == "aws_ec2_tag"
  }

  /** The (resource id, key) pairs set by the `aws_ec2_tag` resources of a state. */
  function TagPairs(state: State): set<(string, string)> {
    set r, p | r in state && IsTagResource(r) && p in PairsOf(r.instances) :: p
  }

  function AllTagPairs(states: seq<State>): set<(string, string)> {
    set st, p | st in states && p in TagPairs(st) :: p
  }

  /** The owners say exactly these pairs. */
  ghost predicate OwnersOf(o: Owners, pairs: set<(string, string)>) {
    && (forall id, key :: key in KeysFor(o, id) <==> (id, key) in pairs)
    && (forall id | id in o :: o[id] != {})
  }

  lemma OwnedAdds(o: Owners, pairs: set<(string, string)>, id: string, keys: set<string>)
    requires OwnersOf(o, pairs) && keys != {}
    ensures OwnersOf(Owned(o, id, keys), pairs + set k | k in keys :: (id, k))
  {
    var p := Owned(o, id, keys);
    forall x, key ensures key in KeysFor(p, x) <==> (x, key) in pairs + set k | k in keys :: (id, k) {
      assert key in KeysFor(o, x) <==> (x, key) in pairs;
    }
  }

  method Ec2TagOwned(state: State) returns (out: Owners)
    ensures OwnersOf(out, TagPairs(state))
  {
    out := map[];
    for n := 0 to |state|
      invariant OwnersOf(out, TagPairs(state[..n]))
    {
      var r := state[n];
      assert state[..n + 1] == state[..n] + [r];
      ghost var before := TagPairs(state[..n]);
      assert TagPairs(state[..n + 1]) == before + (if IsTagResource(r) then PairsOf(r.instances) else {});
      if r.mode != "managed" || r.kind != "aws_ec2_tag" {
        continue;
      }
      out := AddInstanceTags(out, before, r.instances);
    }
    assert state[..|state|] == state;
  }

  method AddInstanceTags(o: Owners, ghost pairs: set<(string, string)>, instances: seq<Instance>) returns (out: Owners)
    requires OwnersOf(o, pairs)
    ensures OwnersOf(out, pairs + PairsOf(instances))
  {
    out := o;
    assert PairsOf(instances[..0]) == {} && pairs + {} == pairs;
    for i := 0 to |instances|
      invariant OwnersOf(out, pairs + PairsOf(instances[..i]))
    {
      var a := instances[i].attributes;
      assert instances[..i + 1] == instances[..i] + [instances[i]];
      ghost var done := PairsOf(instances[..i]);
      assert PairsOf(instances[..i + 1]) == done + (if SetsTag(a) then {(a.resourceId, a.key)} else {});
      if a.resourceId != "" && a.key != "" {
        OwnedAdds(out, pairs + done, a.resourceId, {a.key});
        assert (set k | k in {a.key} :: (a.resourceId, k)) == {(a.resourceId, a.key)};
        assert (pairs + done) + {(a.resourceId, a.key)} == pairs + PairsOf(instances[..i + 1]);
        out := Owned(out, a.resourceId, {a.key});
      }
    }
    assert instances[..|instances|] == instances;
  }

  /** The scan-wide union over all fetched states. */
  method UnionOwners(states: seq<State>) returns (out: Owners)
    ensures OwnersOf(out, AllTagPairs(states))
  {
    out := map[];
    for n := 0 to |states|
      invariant OwnersOf(out, AllTagPairs(states[..n]))
    {
      var one := Ec2TagOwned(states[n]);
      assert states[..n + 1] == states[..n] + [states[n]];
      ghost var before := AllTagPairs(states[..n]);
      assert AllTagPairs(states[..n + 1]) == before + TagPairs(states[n]);
      out := MergeOwners(out, before, one, TagPairs(states[n]));
    }
    assert states[..|states|] == states;
  }

  method MergeOwners(o: Owners, ghost a: set<(string, string)>, one: Owners, ghost b: set<(string, string)>)
    returns (out: Owners)
    requires OwnersOf(o, a) && OwnersOf(one, b)
    ensures OwnersOf(out, a + b)
  {
    out := o;
    var ids := one.Keys;
    ghost var done: set<(string, string)> := {};
    while ids != {}
      invariant ids <= one.Keys && OwnersOf(out, a + done)
      invariant forall id, key :: (id, key) in done <==> id in one.Keys - ids && key in KeysFor(one, id)
      decreases |ids|
    {
      var id :| id in ids;
      OwnedAdds(out, a + done, id, one[id]);
      ghost var more := set k | k in one[id] :: (id, k);
      assert (a + done) + more == a + (done + more);
      out := Owned(out, id, one[id]);
      done := done + more;
      ids := ids - {id};
    }
    forall p ensures p in done <==> p in b {
      assert p == (p.0, p.1);
      assert p.1 in KeysFor(one, p.0) <==> (p.0, p.1) in b;
    }
    assert done == b;
  }

  /** The owners are determined by the pairs, so the order in which states are visited does not matter. */
  lemma UnionIsOrderFree(a: seq<State>, b: seq<State>, o: Owners, p: Owners)
    requires forall st :: st in a <==> st in b
    requires OwnersOf(o, AllTagPairs(a)) && OwnersOf(p, AllTagPairs(b))
    ensures o == p
  {
    assert AllTagPairs(a) == AllTagPairs(b);
    forall id ensures KeysFor(o, id) == KeysFor(p, id) {
      assert forall key :: key in KeysFor(o, id) <==> (id, key) in AllTagPairs(a);
      assert forall key :: key in KeysFor(p, id) <==> (id, key) in AllTagPairs(a);
    }
    forall id ensures id in o <==> id in p {
      assert KeysFor(o, id) == KeysFor(p, id);
    }
    forall id | id in o ensures o[id] == p[id] {
      assert KeysFor(o, id) == KeysFor(p, id);
    }
  }
}
