// API keys under create, rotate, regenerate and revoke, with a clock.

module ApiKeys {
  import opened Options

  const HOUR := 3600
  const MAX_OVERLAP_HOURS := 168

  datatype Capability = Read | Plan | Apply | Admin

  /**
   * A row of api_keys; ids are positions in creation order and times are seconds.
   * `lineageExpiry` is no column: it remembers the expiry the lineage was created with.
   */
  datatype Key = Key(
    name: string,
    tokenHash: string,
    userId: string,
    businessUnit: string,
    capability: Capability,
    workspaceIds: Option<seq<string>>,
    expiresAt: Option<int>,
    revokedAt: Option<int>,
    rotatedAt: Option<int>,
    supersededBy: Option<nat>,
    lineageExpiry: Option<int>
  )

  /** All keys, and every secret hash ever handed out. */
  datatype Store = Store(keys: seq<Key>, issued: set<string>)

  datatype NewKey = NewKey(
    name: string, capability: Capability, workspaceIds: Option<seq<string>>, expiresAt: Option<int>)

  /** `workspaces` are those of the caller's business unit; `hash` belongs to the freshly drawn token. */
  datatype Request =
    | Create(body: NewKey, userId: string, workspaces: set<string>, hash: string)
    | Rotate(id: nat, overlapHours: int, hash: string)
    | Regenerate(id: nat, hash: string)
    | Revoke(id: nat)

  datatype Call = Call(request: Request, businessUnit: Option<string>, now: int)

  datatype Outcome = Done | Rejected(code: nat)

  predicate IsActive(key: Key, now: int) {
    key.revokedAt.None? && (key.expiresAt.Some? ==> now < key.expiresAt.value)
  }

  /** A presented secret authenticates when an active row carries its hash. */
  predicate Authenticates(s: Store, hash: string, now: int) {
    exists i :: 0 <= i < |s.keys| && s.keys[i].tokenHash == hash && IsActive(s.keys[i], now)
  }

  function OrNone(ids: Option<seq<string>>): Option<seq<string>> {
    if ids == Some([]) then None else ids
  }

  // ---------- One call ----------

  function Created(s: Store, body: NewKey, userId: string, bu: string, hash: string): Store {
    var key := Key(body.name, hash, userId, bu, body.capability, OrNone(body.workspaceIds),
                   body.expiresAt, None, None, None, body.expiresAt);
    Store(s.keys + [key], s.issued + {hash})
  }

  function EarlierOf(expiry: Option<int>, deadline: int): int {
    if expiry.None? || deadline < expiry.value then deadline else expiry.value
  }

  function Rotated(s: Store, id: nat, overlapHours: int, hash: string, now: int): Store
    requires id < |s.keys|
  {
    var key := s.keys[id];
    var successor := key.(tokenHash := hash, rotatedAt := None, supersededBy := None);
    var retiring := key.(
      expiresAt := Some(EarlierOf(key.expiresAt, now + overlapHours * HOUR)),
      rotatedAt := Some(now),
      supersededBy := Some(|s.keys|));
    Store(s.keys[id := retiring] + [successor], s.issued + {hash})
  }

  predicate Visible(s: Store, id: nat, bu: string) {
    id < |s.keys| && s.keys[id].businessUnit == bu
  }

  function Step(s: Store, c: Call): (Store, Outcome) {
    if c.request.Rotate? && !(0 <= c.request.overlapHours <= MAX_OVERLAP_HOURS) then (s, Rejected(422))
    else if c.businessUnit.None? then (s, Rejected(400))
    else
      var bu := c.businessUnit.value;
      match c.request
      case Create(body, userId, workspaces, hash) =>
        if body.workspaceIds.Some? && !(forall w | w in body.workspaceIds.value :: w in workspaces)
        then (s, Rejected(400))
        else if body.expiresAt.Some? && body.expiresAt.value <= c.now then (s, Rejected(400))
        else (Created(s, body, userId, bu, hash), Done)
      case Rotate(id, overlapHours, hash) =>
        if !Visible(s, id, bu) then (s, Rejected(404))
        else if !IsActive(s.keys[id], c.now) || s.keys[id].supersededBy.Some? then (s, Rejected(409))
        else (Rotated(s, id, overlapHours, hash, c.now), Done)
      case Regenerate(id, hash) =>
        if !Visible(s, id, bu) then (s, Rejected(404))
        else if !IsActive(s.keys[id], c.now) then (s, Rejected(409))
        else (Store(s.keys[id := s.keys[id].(tokenHash := hash)], s.issued + {hash}), Done)
      case Revoke(id) =>
        if !Visible(s, id, bu) then (s, Rejected(404))
        else if s.keys[id].revokedAt.Some? then (s, Done)
        else (s.(keys := s.keys[id := s.keys[id].(revokedAt := Some(c.now))]), Done)
  }

  /** How a call is answered: bad hours, no unit, a bad grant, a key of another unit, one that is dead or superseded. */
  lemma AnswersExactly(s: Store, c: Call)
    ensures Step(s, c).1 ==
            match c.request
            case Create(body, _, workspaces, _) =>
              if c.businessUnit.None?
                 || (body.workspaceIds.Some? && exists w :: w in body.workspaceIds.value && w !in workspaces)
                 || (body.expiresAt.Some? && body.expiresAt.value <= c.now) then Rejected(400)
              else Done
            case Rotate(id, hours, _) =>
              if hours < 0 || 168 < hours then Rejected(422)
              else if c.businessUnit.None? then Rejected(400)
              else if |s.keys| <= id || c.businessUnit != Some(s.keys[id].businessUnit) then Rejected(404)
              else if s.keys[id].revokedAt.Some? || s.keys[id].supersededBy.Some?
                      || (s.keys[id].expiresAt.Some? && s.keys[id].expiresAt.value <= c.now) then Rejected(409)
              else Done
            case Regenerate(id, _) =>
              if c.businessUnit.None? then Rejected(400)
              else if |s.keys| <= id || c.businessUnit != Some(s.keys[id].businessUnit) then Rejected(404)
              else if s.keys[id].revokedAt.Some?
                      || (s.keys[id].expiresAt.Some? && s.keys[id].expiresAt.value <= c.now) then Rejected(409)
              else Done
            case Revoke(id) =>
              if c.businessUnit.None? then Rejected(400)
              else if |s.keys| <= id || c.businessUnit != Some(s.keys[id].businessUnit) then Rejected(404)
              else Done
    ensures Step(s, c).1.Rejected? ==> Step(s, c).0 == s
  {
  }

  /**
   * What an accepted call does to the table. Creation adds a key that carries what was asked for, and for
   * the caller's unit; rotation adds one of the same grant and sets the old key its deadline;
   * regeneration gives the key a new secret and nothing else; the first revocation is kept.
   */
  lemma ChangesExactly(s: Store, c: Call)
    requires Step(s, c).1.Done?
    ensures var t := Step(s, c).0;
            match c.request
            case Create(body, userId, _, hash) =>
              && t.issued == s.issued + {hash}
              && t.keys == s.keys + [Key(body.name, hash, userId, c.businessUnit.value, body.capability,
                                         if body.workspaceIds == Some([]) then None else body.workspaceIds,
                                         body.expiresAt, None, None, None, body.expiresAt)]
            case Rotate(id, hours, hash) =>
              && t.issued == s.issued + {hash} && |t.keys| == |s.keys| + 1
              && (forall i | 0 <= i < |s.keys| && i != id :: t.keys[i] == s.keys[i])
              && SameGrant(t.keys[id], s.keys[id]) && t.keys[id].tokenHash == s.keys[id].tokenHash
              && t.keys[id].rotatedAt == Some(c.now) && t.keys[id].supersededBy == Some(|s.keys|)
              && (var end := c.now + 3600 * hours;
                  t.keys[id].expiresAt == if s.keys[id].expiresAt.Some? && s.keys[id].expiresAt.value <= end
                                          then s.keys[id].expiresAt else Some(end))
              && SameGrant(t.keys[|s.keys|], s.keys[id]) && t.keys[|s.keys|].tokenHash == hash
              && t.keys[|s.keys|].expiresAt == s.keys[id].expiresAt && t.keys[|s.keys|].revokedAt.None?
              && t.keys[|s.keys|].rotatedAt.None? && t.keys[|s.keys|].supersededBy.None?
            case Regenerate(id, hash) =>
              t.issued == s.issued + {hash} && t.keys == s.keys[id := s.keys[id].(tokenHash := hash)]
            case Revoke(id) =>
              && t.issued == s.issued
              && t.keys == if s.keys[id].revokedAt.Some? then s.keys
                           else s.keys[id := s.keys[id].(revokedAt := Some(c.now))]
  {
  }

  function After(s: Store, calls: seq<Call>): Store
    decreases |calls|
  {
    if calls == [] then s else After(Step(s, calls[0]).0, calls[1..])
  }

  /** Tokens are drawn at random: no call draws one that was ever issued. */
  predicate DrawsFresh(s: Store, c: Call) {
    match c.request case Revoke(_) => true case r => r.hash !in s.issued
  }

  /** A run of calls with a clock that never goes back, starting no earlier than `now`. */
  predicate Timely(s: Store, calls: seq<Call>, now: int)
    decreases |calls|
  {
    calls == [] || (now <= calls[0].now && DrawsFresh(s, calls[0]) &&
        Timely(Step(s, calls[0]).0, calls[1..], calls[0].now))
  }

  // ---------- Lineages ----------

  predicate SameGrant(a: Key, b: Key) {
    && a.name == b.name && a.userId == b.userId && a.businessUnit == b.businessUnit && a.capability == b.capability
    && a.workspaceIds == b.workspaceIds && a.lineageExpiry == b.lineageExpiry
  }

  predicate LinksUp(keys: seq<Key>, i: nat)
    requires i < |keys|
  {
    match keys[i].supersededBy
    case None => keys[i].rotatedAt.None? && keys[i].expiresAt == keys[i].lineageExpiry
    case Some(j) => i < j < |keys| && SameGrant(keys[i], keys[j]) && keys[i].rotatedAt.Some? && keys[i].expiresAt.Some?
  }

  predicate Inv(s: Store) {
    && (forall i | 0 <= i < |s.keys| :: LinksUp(s.keys, i) && s.keys[i].tokenHash in s.issued)
    && (forall i, j | 0 <= i < j < |s.keys| && s.keys[i].supersededBy.Some? ::
       s.keys[i].supersededBy != s.keys[j].supersededBy)
    && (forall i, j | 0 <= i < j < |s.keys| :: s.keys[i].tokenHash != s.keys[j].tokenHash)
  }

  lemma RotateKeepsInv(s: Store, id: nat, overlapHours: int, hash: string, now: int)
    requires Inv(s) && id < |s.keys| && s.keys[id].supersededBy.None? && hash !in s.issued
    ensures Inv(Rotated(s, id, overlapHours, hash, now))
  {
    var t := Rotated(s, id, overlapHours, hash, now);
    var n := |s.keys|;
    assert LinksUp(s.keys, id);
    forall i | 0 <= i < |t.keys| ensures LinksUp(t.keys, i) && t.keys[i].tokenHash in t.issued {
      if i < n {
        assert LinksUp(s.keys, i);
      }
    }
    forall i, j | 0 <= i < j < |t.keys| && t.keys[i].supersededBy.Some?
      ensures t.keys[i].supersededBy != t.keys[j].supersededBy
    {
      if i < n {
        assert LinksUp(s.keys, i);
      }
      if j < n {
        assert LinksUp(s.keys, j);
      }
    }
  }

  lemma CreateKeepsInv(s: Store, body: NewKey, userId: string, bu: string, hash: string)
    requires Inv(s) && hash !in s.issued
    ensures Inv(Created(s, body, userId, bu, hash))
  {
    var t := Created(s, body, userId, bu, hash);
    forall i | 0 <= i < |t.keys| ensures LinksUp(t.keys, i) && t.keys[i].tokenHash in t.issued {
      if i < |s.keys| {
        assert LinksUp(s.keys, i);
      }
    }
  }

  /** A change to one key that leaves its links and expiry alone. */
  lemma ChangeKeepsInv(s: Store, id: nat, key: Key, issued: set<string>)
    requires Inv(s) && id < |s.keys| && s.issued <= issued
    requires key.tokenHash == s.keys[id].tokenHash || key.tokenHash in issued - s.issued
    requires key.(tokenHash := s.keys[id].tokenHash, revokedAt := s.keys[id].revokedAt) == s.keys[id]
    ensures Inv(Store(s.keys[id := key], issued))
  {
    var t := Store(s.keys[id := key], issued);
    forall i | 0 <= i < |t.keys| ensures LinksUp(t.keys, i) && t.keys[i].tokenHash in t.issued {
      assert LinksUp(s.keys, i);
    }
  }

  lemma StepKeepsInv(s: Store, c: Call)
    requires Inv(s) && DrawsFresh(s, c)
    ensures Inv(Step(s, c).0)
  {
    if Step(s, c).1.Done? {
      match c.request {
        case Create(body, userId, workspaces, hash) => CreateKeepsInv(s, body, userId, c.businessUnit.value, hash);
        case Rotate(id, overlapHours, hash) => RotateKeepsInv(s, id, overlapHours, hash, c.now);
        case Regenerate(id, hash) => ChangeKeepsInv(s, id, s.keys[id].(tokenHash := hash), s.issued + {hash});
        case Revoke(id) =>
          if s.keys[id].revokedAt.None? {
            ChangeKeepsInv(s, id, s.keys[id].(revokedAt := Some(c.now)), s.issued);
          }
      }
    }
  }

  lemma {:induction false} HistoryKeepsInv(s: Store, calls: seq<Call>, now: int)
    requires Inv(s) && Timely(s, calls, now)
    ensures Inv(After(s, calls))
    decreases |calls|
  {
    if calls != [] {
      StepKeepsInv(s, calls[0]);
      HistoryKeepsInv(Step(s, calls[0]).0, calls[1..], calls[0].now);
    }
  }

  /** The end of the successor links that start at key `i`. */
  function Tip(keys: seq<Key>, i: nat): (tip: nat)
    requires i < |keys| && forall k | 0 <= k < |keys| :: LinksUp(keys, k)
    ensures i <= tip < |keys|
    decreases |keys| - i
  {
    assert LinksUp(keys, i);
    if keys[i].supersededBy.None? then i else Tip(keys, keys[i].supersededBy.value)
  }

  predicate Reaches(keys: seq<Key>, i: nat, k: nat)
    requires i < |keys| && forall k | 0 <= k < |keys| :: LinksUp(keys, k)
    decreases |keys| - i
  {
    assert LinksUp(keys, i);
    i == k || (keys[i].supersededBy.Some? && Reaches(keys, keys[i].supersededBy.value, k))
  }

  /** Every key has one unsuperseded key in its lineage, of the same grant and the original expiry. */
  lemma {:induction false} LineageHasOneTip(keys: seq<Key>, i: nat)
    requires i < |keys| && forall k | 0 <= k < |keys| :: LinksUp(keys, k)
    ensures var tip := Tip(keys, i);
            && Reaches(keys, i, tip) && keys[tip].supersededBy.None?
            && SameGrant(keys[i], keys[tip]) && keys[tip].expiresAt == keys[i].lineageExpiry
            && (forall k | 0 <= k < |keys| && Reaches(keys, i, k) && keys[k].supersededBy.None? :: k == tip)
            && (forall k | 0 <= k < |keys| && Reaches(keys, i, k) :: i <= k)
    decreases |keys| - i
  {
    assert LinksUp(keys, i);
    if keys[i].supersededBy.Some? {
      LineageHasOneTip(keys, keys[i].supersededBy.value);
    }
  }

  lemma {:induction false} ReachThrough(keys: seq<Key>, i: nat, j: nat, k: nat)
    requires i < |keys| && j < |keys| && k < |keys| && i != k
    requires forall k | 0 <= k < |keys| :: LinksUp(keys, k)
    requires keys[j].supersededBy == Some(k) && Reaches(keys, i, k)
    requires forall a, b | 0 <= a < b < |keys| && keys[a].supersededBy.Some? ::
             keys[a].supersededBy != keys[b].supersededBy
    ensures Reaches(keys, i, j)
    decreases |keys| - i
  {
    assert LinksUp(keys, i);
    var n := keys[i].supersededBy.value;
    if n == k {
      assert i == j;
    } else {
      ReachThrough(keys, n, j, k);
    }
  }

  /** Lineages are disjoint chains: two keys share a tip exactly when one leads to the other. */
  lemma {:induction false} LineagesAreDisjointChains(s: Store, i: nat, j: nat)
    requires Inv(s) && i < |s.keys| && j < |s.keys|
    ensures Tip(s.keys, i) == Tip(s.keys, j) <==> Reaches(s.keys, i, j) || Reaches(s.keys, j, i)
    decreases 2 * |s.keys| - i - j
  {
    var keys := s.keys;
    if Reaches(keys, i, j) {
      SameTip(keys, i, j);
    } else if Reaches(keys, j, i) {
      SameTip(keys, j, i);
    } else if Tip(keys, i) == Tip(keys, j) {
      assert LinksUp(keys, i) && LinksUp(keys, j);
      var a, b := if i < j then i else j, if i < j then j else i;
      LineageHasOneTip(keys, a);
      LineageHasOneTip(keys, b);
      var n := keys[a].supersededBy.value;
      LineagesAreDisjointChains(s, n, b);
      if n != b && Reaches(keys, b, n) {
        ReachThrough(keys, b, a, n);
      }
      assert false;
    }
  }

  lemma {:induction false} SameTip(keys: seq<Key>, i: nat, k: nat)
    requires i < |keys| && k < |keys| && (forall k | 0 <= k < |keys| :: LinksUp(keys, k)) && Reaches(keys, i, k)
    ensures Tip(keys, i) == Tip(keys, k)
    decreases |keys| - i
  {
    assert LinksUp(keys, i);
    if i != k {
      SameTip(keys, keys[i].supersededBy.value, k);
    }
  }

  /** All of it for every history: any calls, on an initially empty table, under a clock that never goes back. */
  lemma LineagesInEveryHistory(calls: seq<Call>, start: int)
    requires Timely(Store([], {}), calls, start)
    ensures var s := After(Store([], {}), calls);
            Inv(s) && forall i | 0 <= i < |s.keys| ::
              var tip := Tip(s.keys, i);
              && s.keys[tip].supersededBy.None? && SameGrant(s.keys[i], s.keys[tip])
              && s.keys[tip].expiresAt == s.keys[i].lineageExpiry
              && forall j | 0 <= j < |s.keys| :: Tip(s.keys, j) == tip <==>
                 Reaches(s.keys, i, j) || Reaches(s.keys, j, i)
  {
    HistoryKeepsInv(Store([], {}), calls, start);
    var s := After(Store([], {}), calls);
    forall i | 0 <= i < |s.keys|
      ensures var tip := Tip(s.keys, i);
              && s.keys[tip].supersededBy.None? && SameGrant(s.keys[i], s.keys[tip])
              && s.keys[tip].expiresAt == s.keys[i].lineageExpiry
              && forall j | 0 <= j < |s.keys| :: Tip(s.keys, j) == tip <==>
                 Reaches(s.keys, i, j) || Reaches(s.keys, j, i)
    {
      LineageHasOneTip(s.keys, i);
      forall j | 0 <= j < |s.keys| {
        LineagesAreDisjointChains(s, i, j);
      }
    }
  }

  // ---------- Units ----------

  /** Whatever other units call, in any number and order, a key is left as it is. */
  lemma {:induction false} OtherUnitsLeaveKey(s: Store, calls: seq<Call>, i: nat)
    requires i < |s.keys|
    requires forall k | 0 <= k < |calls| :: calls[k].businessUnit != Some(s.keys[i].businessUnit)
    ensures i < |After(s, calls).keys| && After(s, calls).keys[i] == s.keys[i]
    decreases |calls|
  {
    if calls != [] {
      var t := Step(s, calls[0]).0;
      assert i < |t.keys| && t.keys[i] == s.keys[i];
      OtherUnitsLeaveKey(t, calls[1..], i);
    }
  }

  // ---------- Expiries ----------

  predicate NoLater(a: Option<int>, b: Option<int>) {
    b.Some? ==> a.Some? && a.value <= b.value
  }

  /** A key keeps its grant; its expiry never moves later, its revocation is never undone. */
  predicate KeyAges(a: Key, b: Key) {
    && SameGrant(a, b) && NoLater(b.expiresAt, a.expiresAt)
    && (a.revokedAt.Some? ==> b.revokedAt == a.revokedAt)
    && (a.supersededBy.Some? ==> b.supersededBy == a.supersededBy && b.rotatedAt == a.rotatedAt)
  }

  lemma {:induction false} KeysOnlyAge(s: Store, calls: seq<Call>, i: nat)
    requires i < |s.keys|
    ensures i < |After(s, calls).keys| && KeyAges(s.keys[i], After(s, calls).keys[i])
    decreases |calls|
  {
    if calls != [] {
      var t := Step(s, calls[0]).0;
      assert i < |t.keys| && KeyAges(s.keys[i], t.keys[i]);
      KeysOnlyAge(t, calls[1..], i);
    }
  }

  /** Whatever happens later, a rotated key expires by rotation time plus overlap, or by its earlier expiry. */
  lemma RotationDeadline(s: Store, c: Call, later: seq<Call>)
    requires c.request.Rotate? && Step(s, c).1.Done?
    ensures var id := c.request.id;
            && id < |s.keys| && id < |After(Step(s, c).0, later).keys|
            && var expiry := After(Step(s, c).0, later).keys[id].expiresAt;
            expiry.Some? && expiry.value <= c.now + c.request.overlapHours * HOUR &&
                NoLater(expiry, s.keys[id].expiresAt)
  {
    KeysOnlyAge(Step(s, c).0, later, c.request.id);
  }

  /** During the overlap both secrets work, up to the old key's own expiry. */
  lemma OverlapServesBoth(s: Store, c: Call, t: int)
    requires c.request.Rotate? && Step(s, c).1.Done? && c.now <= t < c.now + c.request.overlapHours * HOUR
    requires s.keys[c.request.id].expiresAt.Some? ==> t < s.keys[c.request.id].expiresAt.value
    ensures Authenticates(Step(s, c).0, s.keys[c.request.id].tokenHash, t)
    ensures Authenticates(Step(s, c).0, c.request.hash, t)
  {
    var after := Step(s, c).0;
    assert IsActive(after.keys[c.request.id], t) && IsActive(after.keys[|s.keys|], t);
  }

  // ---------- Dead secrets ----------

  /** A secret that was issued and that no active key carries from `now` on. */
  predicate Dead(s: Store, hash: string, now: int) {
    hash in s.issued &&
    forall i | 0 <= i < |s.keys| && s.keys[i].tokenHash == hash :: !IsActive(s.keys[i], now)
  }

  lemma StepKeepsDead(s: Store, c: Call, hash: string, now: int)
    requires Dead(s, hash, now) && now <= c.now && DrawsFresh(s, c)
    ensures Dead(Step(s, c).0, hash, c.now)
  {
    var t := Step(s, c).0;
    forall i | 0 <= i < |t.keys| && t.keys[i].tokenHash == hash ensures !IsActive(t.keys[i], c.now) {
      if i < |s.keys| {
        assert s.keys[i].tokenHash == hash ==> !IsActive(s.keys[i], now);
      }
    }
  }

  /** A revoked, expired or replaced secret never authenticates again, whatever is called later. */
  lemma {:induction false} DeadForever(s: Store, calls: seq<Call>, hash: string, now: int, t: int)
    requires Dead(s, hash, now) && Timely(s, calls, now)
    requires t >= (if calls == [] then now else calls[|calls| - 1].now)
    ensures !Authenticates(After(s, calls), hash, t)
    decreases |calls|
  {
    if calls != [] {
      StepKeepsDead(s, calls[0], hash, now);
      assert calls[1..] != [] ==> calls[1..][|calls[1..]| - 1] == calls[|calls| - 1];
      DeadForever(Step(s, calls[0]).0, calls[1..], hash, calls[0].now, t);
    }
  }

  /** The three ways a secret dies: its key is revoked, or expires, or the secret is replaced. */
  lemma HowSecretsDie(s: Store, c: Call, i: nat, now: int)
    requires Inv(s) && i < |s.keys| && DrawsFresh(s, c)
    ensures s.keys[i].expiresAt.Some? && s.keys[i].expiresAt.value <= now ==> Dead(s, s.keys[i].tokenHash, now)
    ensures (c.request.Revoke? || c.request.Regenerate?) && c.request.id == i && Step(s, c).1.Done? ==>
              Dead(Step(s, c).0, s.keys[i].tokenHash, c.now)
    ensures c.request.Rotate? && c.request.id == i && Step(s, c).1.Done? &&
            c.now + c.request.overlapHours * HOUR <= now ==>
              Dead(Step(s, c).0, s.keys[i].tokenHash, now)
  {
    assert LinksUp(s.keys, i);
    assert s.keys[i].tokenHash in s.issued;
  }

  // ---------- The handlers ----------

  class KeyRouter {
    var keys: seq<Key>
    ghost var issued: set<string>

    ghost function Value(): Store
      reads this
    {
      Store(keys, issued)
    }

    constructor ()
      ensures Value() == Store([], {}) && Inv(Value())
    {
      keys := [];
      issued := {};
    }

    method CreateKey(body: NewKey, userId: string, workspaces: set<string>, hash: string, bu: Option<string>, now: int)
      returns (outcome: Outcome)
      requires Inv(Value()) && hash !in issued
      modifies this
      ensures Inv(Value())
      ensures (Value(), outcome) == Step(old(Value()), Call(Create(body, userId, workspaces, hash), bu, now))
    {
      StepKeepsInv(Value(), Call(Create(body, userId, workspaces, hash), bu, now));
      if bu.None? {
        return Rejected(400);
      }
      var workspaceIds := if body.workspaceIds == Some([]) then None else body.workspaceIds;
      if workspaceIds.Some? {
        var missing := set w | w in workspaceIds.value && w !in workspaces;
        if missing != {} {
          var w :| w in missing;
          return Rejected(400);
        }
        assert forall w | w in workspaceIds.value :: w in workspaces by {
          assert forall w | w in workspaceIds.value && w !in workspaces :: w in missing;
        }
      }
      if body.expiresAt.Some? && body.expiresAt.value <= now {
        return Rejected(400);
      }
      keys := keys + [Key(body.name, hash, userId, bu.value, body.capability, workspaceIds,
                          body.expiresAt, None, None, None, body.expiresAt)];
      issued := issued + {hash};
      return Done;
    }

    method RotateKey(id: nat, overlapHours: int, hash: string, bu: Option<string>, now: int) returns (outcome: Outcome)
      requires Inv(Value()) && hash !in issued
      modifies this
      ensures Inv(Value()) && (Value(), outcome) == Step(old(Value()), Call(Rotate(id, overlapHours, hash), bu, now))
    {
      StepKeepsInv(Value(), Call(Rotate(id, overlapHours, hash), bu, now));
      if !(0 <= overlapHours <= MAX_OVERLAP_HOURS) {
        return Rejected(422);
      }
      if bu.None? {
        return Rejected(400);
      }
      if id >= |keys| || keys[id].businessUnit != bu.value {
        return Rejected(404);
      }
      var key := keys[id];
      if key.revokedAt.Some? || !IsActive(key, now) || key.supersededBy.Some? {
        return Rejected(409);
      }
      var successorId := |keys|;
      keys := keys + [Key(key.name, hash, key.userId, key.businessUnit, key.capability, key.workspaceIds,
                          key.expiresAt, None, None, None, key.lineageExpiry)];
      issued := issued + {hash};
      var windowEnd := now + overlapHours * HOUR;
      var expiry := if key.expiresAt.None? || windowEnd < key.expiresAt.value then windowEnd else key.expiresAt.value;
      keys := keys[id := keys[id].(expiresAt := Some(expiry))];
      keys := keys[id := keys[id].(rotatedAt := Some(now))];
      keys := keys[id := keys[id].(supersededBy := Some(successorId))];
      assert keys == Rotated(old(Value()), id, overlapHours, hash, now).keys;
      return Done;
    }

    method RegenerateKey(id: nat, hash: string, bu: Option<string>, now: int) returns (outcome: Outcome)
      requires Inv(Value()) && hash !in issued
      modifies this
      ensures Inv(Value()) && (Value(), outcome) == Step(old(Value()), Call(Regenerate(id, hash), bu, now))
    {
      StepKeepsInv(Value(), Call(Regenerate(id, hash), bu, now));
      if bu.None? {
        return Rejected(400);
      }
      if id >= |keys| || keys[id].businessUnit != bu.value {
        return Rejected(404);
      }
      if keys[id].revokedAt.Some? || !IsActive(keys[id], now) {
        return Rejected(409);
      }
      keys := keys[id := keys[id].(tokenHash := hash)];
      issued := issued + {hash};
      return Done;
    }

    method RevokeKey(id: nat, bu: Option<string>, now: int) returns (outcome: Outcome)
      requires Inv(Value())
      modifies this
      ensures Inv(Value()) && (Value(), outcome) == Step(old(Value()), Call(Revoke(id), bu, now))
    {
      StepKeepsInv(Value(), Call(Revoke(id), bu, now));
      if bu.None? {
        return Rejected(400);
      }
      if id >= |keys| || keys[id].businessUnit != bu.value {
        return Rejected(404);
      }
      if keys[id].revokedAt.None? {
        keys := keys[id := keys[id].(revokedAt := Some(now))];
      }
      return Done;
    }
  }
}
