// Colours of cloud accounts: the least-used colour of the palette is claimed on creation, and the
// migration gave existing accounts theirs in turn.

module AccountColors {
  import opened Options
  import opened Texts

  const ACCOUNT_COLORS: seq<string> := ["red", "orange", "yellow", "green", "blue", "purple", "brown", "gray"]

  predicate IsPalette(p: seq<string>) {
    |p| > 0 && forall i, j | 0 <= i < j < |p| :: p[i] != p[j]
  }

  lemma ColorsAreAPalette()
    ensures IsPalette(ACCOUNT_COLORS) && |ACCOUNT_COLORS| == 8
  {
    var c := ACCOUNT_COLORS;
    assert c[0][0] == 'r' && c[1][0] == 'o' && c[2][0] == 'y' && c[3][..3] == "gre" && c[3][2] == 'e';
    assert c[4][1] == 'l' && c[4][0] == 'b' && c[5][0] == 'p' && c[6][0] == 'b' && c[6][1] == 'r';
    assert c[7][0] == 'g' && c[7][2] == 'a' && c[3][0] == 'g';
  }

  // ---------- The least-used colour ----------

  /** Counts stand in the order of the palette. The least is, of several, the first. */
  predicate IsLeast(counts: seq<nat>, i: nat) {
    && i < |counts|
    && (forall j | 0 <= j < |counts| :: counts[i] <= counts[j])
    && (forall j | 0 <= j < i :: counts[i] < counts[j])
  }

  /** Python's `min` over the palette by count and position, among the first `n`. */
  function LeastBy(counts: seq<nat>, n: nat): (least: nat)
    requires 0 < n <= |counts|
    ensures least < n
    ensures forall j | 0 <= j < n :: counts[least] <= counts[j]
    ensures forall j | 0 <= j < least :: counts[least] < counts[j]
  {
    if n == 1 then 0
    else var before := LeastBy(counts, n - 1); if counts[n - 1] < counts[before] then n - 1 else before
  }

  ghost function Least(counts: seq<nat>): (i: nat)
    requires |counts| > 0
    ensures IsLeast(counts, i)
  {
    assert IsLeast(counts, LeastBy(counts, |counts|));
    var i: nat :| IsLeast(counts, i);
    i
  }

  lemma LeastIsUnique(counts: seq<nat>, i: nat)
    requires IsLeast(counts, i)
    ensures Least(counts) == i
  {
    var k := Least(counts);
    assert counts[i] <= counts[k] && counts[k] <= counts[i];
  }

  function Count(taken: seq<string>, c: string): nat {
    if taken == [] then 0 else Count(taken[..|taken| - 1], c) + if taken[|taken| - 1] == c then 1 else 0
  }

  function CountsOf(p: seq<string>, taken: seq<string>): seq<nat> {
    seq(|p|, j requires 0 <= j < |p| => Count(taken, p[j]))
  }

  ghost function Pick(p: seq<string>, taken: seq<string>): string
    requires |p| > 0
  {
    p[Least(CountsOf(p, taken))]
  }

  /** `counts` has the palette for keys; a token outside it is not counted. */
  method PickNext(p: seq<string>, taken: seq<string>) returns (c: string)
    requires |p| > 0
    ensures c == Pick(p, taken)
  {
    var counts: map<string, nat> := map x | x in p :: 0;
    for n := 0 to |taken|
      invariant counts.Keys == (set x | x in p) && forall x | x in counts :: counts[x] == Count(taken[..n], x)
    {
      assert taken[..n + 1][..n] == taken[..n];
      if taken[n] in counts {
        counts := counts[taken[n] := counts[taken[n]] + 1];
      }
    }
    assert taken[..|taken|] == taken;
    var inOrder := seq(|p|, j requires 0 <= j < |p| => assert p[j] in p; counts[p[j]]);
    assert inOrder == CountsOf(p, taken);
    LeastIsUnique(inOrder, LeastBy(inOrder, |p|));
    c := p[LeastBy(inOrder, |p|)];
  }

  /** The pick is the least-used colour, and of several the first in the palette. */
  lemma PickExactly(p: seq<string>, taken: seq<string>, i: nat)
    requires IsPalette(p) && i < |p|
    ensures Pick(p, taken) == p[i] <==>
            && (forall j | 0 <= j < |p| :: Count(taken, p[i]) <= Count(taken, p[j]))
            && (forall j | 0 <= j < i :: Count(taken, p[i]) < Count(taken, p[j]))
  {
    var counts := CountsOf(p, taken);
    assert Pick(p, taken) == p[i] <==> Least(counts) == i;
    if IsLeast(counts, i) {
      LeastIsUnique(counts, i);
    }
    assert forall j | 0 <= j < |p| :: counts[j] == Count(taken, p[j]);
  }

  /** An unused colour is chosen whenever there is one. */
  lemma UnusedIfAny(p: seq<string>, taken: seq<string>)
    requires |p| > 0
    ensures Pick(p, taken) in taken <==> forall j | 0 <= j < |p| :: p[j] in taken
  {
    var counts := CountsOf(p, taken);
    forall j | 0 <= j < |p| ensures p[j] in taken <==> counts[j] > 0 {
      CountedIfTaken(taken, p[j]);
    }
    assert IsLeast(counts, Least(counts));
  }

  lemma {:induction false} CountedIfTaken(taken: seq<string>, c: string)
    ensures c in taken <==> Count(taken, c) > 0
  {
    if taken != [] {
      CountedIfTaken(taken[..|taken| - 1], c);
      assert taken == taken[..|taken| - 1] + [taken[|taken| - 1]];
    }
  }

  // ---------- Runs of automatic picks ----------

  ghost function Claim(counts: seq<nat>): seq<nat>
    requires |counts| > 0
  {
    counts[Least(counts) := counts[Least(counts)] + 1]
  }

  /** The counts after `n` more automatic picks. */
  ghost function AfterPicks(counts: seq<nat>, n: nat): (out: seq<nat>)
    requires |counts| > 0
    ensures |out| == |counts|
  {
    if n == 0 then counts else Claim(AfterPicks(counts, n - 1))
  }

  /** The colours of `n` automatic picks, after those already taken. */
  ghost function Picks(p: seq<string>, taken: seq<string>, n: nat): seq<string>
    requires |p| > 0
  {
    if n == 0 then taken else var before := Picks(p, taken, n - 1); before + [Pick(p, before)]
  }

  /** Claiming a colour raises its count by one and no other. */
  lemma ClaimedOnce(p: seq<string>, taken: seq<string>, i: nat)
    requires IsPalette(p) && i < |p|
    ensures CountsOf(p, taken + [p[i]]) == CountsOf(p, taken)[i := CountsOf(p, taken)[i] + 1]
  {
    assert (taken + [p[i]])[..|taken|] == taken;
  }

  lemma {:induction false} PicksAreCounted(p: seq<string>, taken: seq<string>, n: nat)
    requires IsPalette(p)
    ensures CountsOf(p, Picks(p, taken, n)) == AfterPicks(CountsOf(p, taken), n)
  {
    if n > 0 {
      PicksAreCounted(p, taken, n - 1);
      PickIsClaim(p, Picks(p, taken, n - 1));
    }
  }

  lemma PickIsClaim(p: seq<string>, taken: seq<string>)
    requires IsPalette(p)
    ensures CountsOf(p, taken + [Pick(p, taken)]) == Claim(CountsOf(p, taken))
  {
    ClaimedOnce(p, taken, Least(CountsOf(p, taken)));
  }

  /** No colour is used more than `gap` times more often than another. */
  predicate Within(counts: seq<nat>, gap: nat) {
    forall i, j | 0 <= i < |counts| && 0 <= j < |counts| :: counts[i] <= counts[j] + gap
  }

  lemma ClaimKeepsGap(counts: seq<nat>, gap: nat)
    requires |counts| > 0 && Within(counts, gap) && gap >= 1
    ensures Within(Claim(counts), gap)
  {
    assert IsLeast(counts, Least(counts));
  }

  /** From any start the gap never grows beyond the larger of what it was and one. */
  lemma {:induction false} GapNeverGrows(counts: seq<nat>, gap: nat, n: nat)
    requires |counts| > 0 && Within(counts, gap)
    ensures Within(AfterPicks(counts, n), if gap >= 1 then gap else 1)
  {
    if n > 0 {
      GapNeverGrows(counts, gap, n - 1);
      ClaimKeepsGap(AfterPicks(counts, n - 1), if gap >= 1 then gap else 1);
    }
  }

  predicate AtMost(counts: seq<nat>, top: nat) {
    forall j | 0 <= j < |counts| :: counts[j] <= top
  }

  /** How many picks the colours lack to be used `top` times each. */
  function Lacking(counts: seq<nat>, top: nat): nat
    requires AtMost(counts, top)
  {
    if counts == [] then 0 else Lacking(counts[..|counts| - 1], top) + (top - counts[|counts| - 1])
  }

  lemma {:induction false} LacksOneLess(counts: seq<nat>, top: nat, i: nat)
    requires i < |counts| && AtMost(counts, top) && counts[i] < top
    ensures AtMost(counts[i := counts[i] + 1], top)
    ensures Lacking(counts[i := counts[i] + 1], top) == Lacking(counts, top) - 1
  {
    var n := |counts| - 1;
    var out := counts[i := counts[i] + 1];
    if i < n {
      LacksOneLess(counts[..n], top, i);
      assert out[..n] == counts[..n][i := counts[i] + 1];
    } else {
      assert out[..n] == counts[..n];
    }
  }

  lemma {:induction false} LackingNothing(counts: seq<nat>, top: nat)
    requires AtMost(counts, top)
    ensures Lacking(counts, top) == 0 <==> forall j | 0 <= j < |counts| :: counts[j] == top
  {
    if counts != [] {
      LackingNothing(counts[..|counts| - 1], top);
      assert counts == counts[..|counts| - 1] + [counts[|counts| - 1]];
    }
  }

  lemma {:induction false} FillsUp(counts: seq<nat>, top: nat, n: nat)
    requires |counts| > 0 && AtMost(counts, top) && n <= Lacking(counts, top)
    ensures AtMost(AfterPicks(counts, n), top) && Lacking(AfterPicks(counts, n), top) == Lacking(counts, top) - n
  {
    if n > 0 {
      FillsUp(counts, top, n - 1);
      ClaimFills(AfterPicks(counts, n - 1), top);
    }
  }

  lemma ClaimFills(counts: seq<nat>, top: nat)
    requires |counts| > 0 && AtMost(counts, top) && Lacking(counts, top) > 0
    ensures AtMost(Claim(counts), top) && Lacking(Claim(counts), top) == Lacking(counts, top) - 1
  {
    LackingNothing(counts, top);
    assert IsLeast(counts, Least(counts));
    LacksOneLess(counts, top, Least(counts));
  }

  lemma {:induction false} RunsAdd(counts: seq<nat>, a: nat, b: nat)
    requires |counts| > 0
    ensures AfterPicks(counts, a + b) == AfterPicks(AfterPicks(counts, a), b)
  {
    if b > 0 {
      RunsAdd(counts, a, b - 1);
    }
  }

  /** However uneven the start, enough automatic picks even it out, and it stays so. */
  lemma EvensOut(counts: seq<nat>, top: nat, n: nat)
    requires |counts| > 0 && AtMost(counts, top) && n >= Lacking(counts, top)
    ensures Within(AfterPicks(counts, n), 1)
  {
    var enough := Lacking(counts, top);
    FillsUp(counts, top, enough);
    LackingNothing(AfterPicks(counts, enough), top);
    GapNeverGrows(AfterPicks(counts, enough), 0, n - enough);
    RunsAdd(counts, enough, n - enough);
  }

  // ---------- Round robin ----------

  /** The counts of `rounds` full rounds and the first `extra` colours of the next. */
  predicate HasRounds(counts: seq<nat>, rounds: nat, extra: nat) {
    forall j | 0 <= j < |counts| :: counts[j] == rounds + if j < extra then 1 else 0
  }

  lemma NextExtra(counts: seq<nat>, rounds: nat, extra: nat)
    requires extra < |counts| && HasRounds(counts, rounds, extra)
    ensures Least(counts) == extra
    ensures if extra + 1 < |counts| then HasRounds(Claim(counts), rounds, extra + 1)
            else HasRounds(Claim(counts), rounds + 1, 0)
  {
    LeastIsUnique(counts, extra);
  }

  function ColorAt(p: seq<string>, n: nat): string
    requires |p| > 0
  {
    p[n % |p|]
  }

  lemma AtLeastOnce(k: int, d: int)
    requires k > 0
    ensures d >= 1 ==> k * d >= k
    ensures d <= -1 ==> k * d <= -k
  {
    if d >= 1 {
      assert k * d == k + k * (d - 1);
    } else if d <= -1 {
      assert k * d == -k + k * (d + 1);
    }
  }

  lemma DivideBack(q: nat, r: nat, k: nat)
    requires r < k
    ensures (k * q + r) / k == q && (k * q + r) % k == r
  {
    var n := k * q + r;
    assert n == k * (n / k) + n % k;
    AtLeastOnce(k, n / k - q);
    assert k * (n / k - q) == k * (n / k) - k * q;
  }

  lemma OneMoreTurn(n: nat, k: nat)
    requires k > 0
    ensures if n % k + 1 < k then (n + 1) / k == n / k && (n + 1) % k == n % k + 1
            else (n + 1) / k == n / k + 1 && (n + 1) % k == 0
  {
    var q, r := n / k, n % k;
    assert n == k * q + r;
    if r + 1 < k {
      DivideBack(q, r + 1, k);
    } else {
      assert n + 1 == k * (q + 1) + 0;
      DivideBack(q + 1, 0, k);
    }
  }

  /** `n` colours in turn. */
  function GoRound(p: seq<string>, n: nat): seq<string>
    requires |p| > 0
  {
    if n == 0 then [] else GoRound(p, n - 1) + [ColorAt(p, n - 1)]
  }

  lemma {:induction false} RoundAt(p: seq<string>, n: nat, k: nat)
    requires |p| > 0 && k < n
    ensures |GoRound(p, n)| == n && GoRound(p, n)[k] == ColorAt(p, k)
  {
    if k < n - 1 {
      RoundAt(p, n - 1, k);
    } else if n > 1 {
      RoundAt(p, n - 1, 0);
    }
  }

  lemma {:induction false} RoundCounts(p: seq<string>, n: nat)
    requires IsPalette(p)
    ensures HasRounds(CountsOf(p, GoRound(p, n)), n / |p|, n % |p|)
  {
    if n == 0 {
      DivideBack(0, 0, |p|);
    } else {
      RoundCounts(p, n - 1);
      OneMoreColor(p, GoRound(p, n - 1), n - 1);
    }
  }

  lemma OneMoreColor(p: seq<string>, before: seq<string>, n: nat)
    requires IsPalette(p) && HasRounds(CountsOf(p, before), n / |p|, n % |p|)
    ensures HasRounds(CountsOf(p, before + [ColorAt(p, n)]), (n + 1) / |p|, (n + 1) % |p|)
  {
    NextExtra(CountsOf(p, before), n / |p|, n % |p|);
    ClaimedOnce(p, before, n % |p|);
    OneMoreTurn(n, |p|);
  }

  lemma LeastOfRounds(p: seq<string>, counts: seq<nat>, n: nat)
    requires |p| > 0 && |counts| == |p| && HasRounds(counts, n / |p|, n % |p|)
    ensures p[Least(counts)] == ColorAt(p, n)
  {
    NextExtra(counts, n / |p|, n % |p|);
  }

  /** With the counts of `n` colours in turn, in whatever order they were claimed, the next in turn is picked. */
  lemma NextInTurn(p: seq<string>, counts: seq<nat>, n: nat)
    requires IsPalette(p) && counts == CountsOf(p, GoRound(p, n))
    ensures p[Least(counts)] == ColorAt(p, n)
  {
    RoundCounts(p, n);
    LeastOfRounds(p, counts, n);
  }

  /** The automatic picks of an empty business unit go round the palette. */
  lemma {:induction false} PicksGoRound(p: seq<string>, n: nat)
    requires IsPalette(p)
    ensures Picks(p, [], n) == GoRound(p, n)
  {
    if n > 0 {
      PicksGoRound(p, n - 1);
      NextInTurn(p, CountsOf(p, GoRound(p, n - 1)), n - 1);
    }
  }

  // ---------- Accounts ----------

  const PROVIDER_TABLES := 5
  const MIGRATED_TABLES := 4

  /** A row of the provider table `table`; "" stands for a null unit, name or colour. */
  datatype Account = Account(table: nat, id: string, businessUnit: string, name: string, color: string)

  /** The colours one table's accounts of a unit have claimed. */
  function ColorsIn(rows: seq<Account>, table: nat, unit: Option<string>): seq<string> {
    if rows == [] then []
    else
      var before := ColorsIn(rows[..|rows| - 1], table, unit);
      var a := rows[|rows| - 1];
      if a.table == table && InUnit(a, unit) && a.color != "" then before + [a.color] else before
  }

  predicate InUnit(a: Account, unit: Option<string>) {
    unit.None? || (a.businessUnit != "" && a.businessUnit == unit.value)
  }

  /** How many accounts in the first `tables` tables have claimed a colour in a unit. */
  function Claims(rows: seq<Account>, tables: nat, unit: Option<string>, c: string): nat {
    if rows == [] then 0 else Claims(rows[..|rows| - 1], tables, unit, c) + ClaimOf(rows[|rows| - 1], tables, unit, c)
  }

  function ClaimOf(a: Account, tables: nat, unit: Option<string>, c: string): nat {
    if a.table < tables && InUnit(a, unit) && a.color != "" && a.color == c then 1 else 0
  }

  lemma {:induction false} OneMoreTable(rows: seq<Account>, n: nat, unit: Option<string>, c: string)
    ensures Claims(rows, n + 1, unit, c) == Claims(rows, n, unit, c) + Count(ColorsIn(rows, n, unit), c)
  {
    if rows != [] {
      OneMoreTable(rows[..|rows| - 1], n, unit, c);
      var before := ColorsIn(rows[..|rows| - 1], n, unit);
      assert (before + [rows[|rows| - 1].color])[..|before|] == before;
    }
  }

  lemma {:induction false} NoTables(rows: seq<Account>, unit: Option<string>, c: string)
    ensures Claims(rows, 0, unit, c) == 0
  {
    if rows != [] {
      NoTables(rows[..|rows| - 1], unit, c);
    }
  }

  lemma {:induction false} CountConcat(a: seq<string>, b: seq<string>, c: string)
    ensures Count(a + b, c) == Count(a, c) + Count(b, c)
  {
    if b == [] {
      assert a + b == a;
    } else {
      CountConcat(a, b[..|b| - 1], c);
      assert (a + b)[..|a + b| - 1] == a + b[..|b| - 1];
    }
  }

  method UsedColorsForBu(rows: seq<Account>, unit: Option<string>) returns (out: seq<string>)
    ensures forall c :: Count(out, c) == Claims(rows, PROVIDER_TABLES, unit, c)
  {
    out := [];
    forall c ensures Claims(rows, 0, unit, c) == 0 {
      NoTables(rows, unit, c);
    }
    for table := 0 to PROVIDER_TABLES
      invariant forall c :: Count(out, c) == Claims(rows, table, unit, c)
    {
      forall c ensures Count(out + ColorsIn(rows, table, unit), c) == Claims(rows, table + 1, unit, c) {
        CountConcat(out, ColorsIn(rows, table, unit), c);
        OneMoreTable(rows, table, unit, c);
      }
      out := out + ColorsIn(rows, table, unit);
    }
  }

  function ClaimsOf(p: seq<string>, rows: seq<Account>, unit: Option<string>): seq<nat> {
    seq(|p|, j requires 0 <= j < |p| => Claims(rows, PROVIDER_TABLES, unit, p[j]))
  }

  /** The colour a new account gets. */
  ghost function Assigned(p: seq<string>, rows: seq<Account>, unit: Option<string>, explicit: string): string
    requires |p| > 0
  {
    if explicit != "" then explicit else p[Least(ClaimsOf(p, rows, unit))]
  }

  function UnitOf(businessUnit: string): Option<string> {
    if businessUnit != "" then Some(businessUnit) else None
  }

  /** Every row once. */
  predicate Listing(rows: seq<Account>, order: seq<nat>) {
    && |order| == |rows| && (forall i | 0 <= i < |order| :: order[i] < |rows|)
    && (forall i, j | 0 <= i < j < |order| :: order[i] != order[j])
  }

  predicate Sorted(rows: seq<Account>, order: seq<nat>)
    requires Listing(rows, order)
  {
    forall i, j | 0 <= i < j < |order| :: !KeyLess(rows[order[j]], rows[order[i]])
  }

  /** The sort key of the backfill. */
  predicate KeyLess(a: Account, b: Account) {
    if a.businessUnit != b.businessUnit then Less(a.businessUnit, b.businessUnit)
    else if a.table != b.table then a.table < b.table
    else if a.name != b.name then Less(a.name, b.name)
    else Less(a.id, b.id)
  }

  lemma KeyLessOrders(a: Account, b: Account)
    ensures (a.table, a.id) != (b.table, b.id) ==> KeyLess(a, b) || KeyLess(b, a)
    ensures !(KeyLess(a, b) && KeyLess(b, a)) && !KeyLess(a, a)
  {
    LessTrichotomy(a.businessUnit, b.businessUnit);
    LessTrichotomy(a.name, b.name);
    LessTrichotomy(a.id, b.id);
  }

  /** How many of the first `n` rows in the order belong to the unit. */
  function Turn(rows: seq<Account>, order: seq<nat>, n: nat, businessUnit: string): nat
    requires n <= |order| && forall i | 0 <= i < |order| :: order[i] < |rows|
  {
    if n == 0 then 0
    else Turn(rows, order, n - 1, businessUnit) + if rows[order[n - 1]].businessUnit == businessUnit then 1 else 0
  }

  /** The colour the `n`th row in the order gets. */
  function Given(p: seq<string>, rows: seq<Account>, order: seq<nat>, n: nat): string
    requires |p| > 0 && n < |order| && forall i | 0 <= i < |order| :: order[i] < |rows|
  {
    ColorAt(p, Turn(rows, order, n, rows[order[n]].businessUnit))
  }

  /** The rows after the first `n` updates of the backfill. */
  function Colored(p: seq<string>, rows: seq<Account>, order: seq<nat>, n: nat): (out: seq<Account>)
    requires |p| > 0 && n <= |order| && forall i | 0 <= i < |order| :: order[i] < |rows|
    ensures |out| == |rows|
  {
    if n == 0 then rows
    else
      var before := Colored(p, rows, order, n - 1);
      before[order[n - 1] := before[order[n - 1]].(color := Given(p, rows, order, n - 1))]
  }

  /** Rows keep all but their colour, and a row not yet reached keeps that too. */
  lemma {:induction false} ColoredExactly(p: seq<string>, rows: seq<Account>, order: seq<nat>, n: nat, k: nat)
    requires |p| > 0 && Listing(rows, order) && n <= |order| && k < |order|
    ensures Colored(p, rows, order, n)[order[k]] ==
            if k < n then rows[order[k]].(color := Given(p, rows, order, k)) else rows[order[k]]
  {
    if n > 0 {
      ColoredExactly(p, rows, order, n - 1, k);
      assert k != n - 1 ==> order[k] != order[n - 1];
    }
  }

  /** The dictionary of the backfill. */
  ghost predicate HasSeen(seen: map<string, nat>, rows: seq<Account>, order: seq<nat>, n: nat)
    requires n <= |order| && forall i | 0 <= i < |order| :: order[i] < |rows|
  {
    forall unit: string :: Turn(rows, order, n, unit) == if unit in seen then seen[unit] else 0
  }

  class CloudAccounts {
    const palette: seq<string>
    var rows: seq<Account>

    constructor (palette: seq<string>, rows: seq<Account>)
      ensures this.palette == palette && this.rows == rows
    {
      this.palette, this.rows := palette, rows;
    }

    method AssignForBu(unit: Option<string>, explicit: string) returns (c: string)
      requires |palette| > 0
      ensures c == Assigned(palette, rows, unit, explicit)
    {
      if explicit != "" {
        return explicit;
      }
      var taken := UsedColorsForBu(rows, unit);
      assert CountsOf(palette, taken) == ClaimsOf(palette, rows, unit);
      c := PickNext(palette, taken);
    }

    method Create(table: nat, id: string, businessUnit: string, name: string, explicit: string)
      requires |palette| > 0 && table < PROVIDER_TABLES
      modifies this
      ensures var color := Assigned(palette, old(rows), UnitOf(businessUnit), explicit);
              rows == old(rows) + [Account(table, id, businessUnit, name, color)]
    {
      var color := AssignForBu(UnitOf(businessUnit), explicit);
      rows := rows + [Account(table, id, businessUnit, name, color)];
    }

    /** `order` is the sorted list of the rows, `snapshot` the migration's own copy of the palette. */
    method Backfill(snapshot: seq<string>, order: seq<nat>)
      requires |snapshot| > 0 && Listing(rows, order) && Sorted(rows, order)
      requires forall i | 0 <= i < |rows| :: rows[i].table < MIGRATED_TABLES
      modifies this
      ensures rows == Colored(snapshot, old(rows), order, |order|)
    {
      var seen: map<string, nat> := map[];
      ghost var before := rows;
      for n := 0 to |order|
        invariant rows == Colored(snapshot, before, order, n) && HasSeen(seen, before, order, n)
      {
        var a := rows[order[n]];
        ColoredExactly(snapshot, before, order, n, n);
        var turn := if a.businessUnit in seen then seen[a.businessUnit] else 0;
        seen := seen[a.businessUnit := turn + 1];
        rows := rows[order[n] := a.(color := snapshot[turn % |snapshot|])];
      }
    }
  }

  /** The colours the first `n` rows in the order were given within one unit. */
  function GivenIn(p: seq<string>, rows: seq<Account>, order: seq<nat>, n: nat, businessUnit: string): seq<string>
    requires |p| > 0 && n <= |order| && forall i | 0 <= i < |order| :: order[i] < |rows|
  {
    if n == 0 then []
    else
      var before := GivenIn(p, rows, order, n - 1, businessUnit);
      if rows[order[n - 1]].businessUnit == businessUnit then before + [Given(p, rows, order, n - 1)] else before
  }

  /** The colours a unit gets by the migration are those of repeated automatic picks. */
  lemma BackfillEqualsPicks(p: seq<string>, rows: seq<Account>, order: seq<nat>, unit: string)
    requires IsPalette(p) && forall i | 0 <= i < |order| :: order[i] < |rows|
    ensures GivenIn(p, rows, order, |order|, unit) == Picks(p, [], Turn(rows, order, |order|, unit))
  {
    GivenGoesRound(p, rows, order, |order|, unit);
    PicksGoRound(p, Turn(rows, order, |order|, unit));
  }

  lemma {:induction false} GivenGoesRound(p: seq<string>, rows: seq<Account>, order: seq<nat>, n: nat, unit: string)
    requires |p| > 0 && n <= |order| && forall i | 0 <= i < |order| :: order[i] < |rows|
    ensures GivenIn(p, rows, order, n, unit) == GoRound(p, Turn(rows, order, n, unit))
  {
    if n > 0 {
      GivenGoesRound(p, rows, order, n - 1, unit);
      var turn := Turn(rows, order, n - 1, unit);
      assert GoRound(p, turn + 1) == GoRound(p, turn) + [ColorAt(p, turn)];
    }
  }

  lemma {:induction false} ClaimsUpdate(rows: seq<Account>, i: nat, a: Account, tables: nat, unit: Option<string>,
                                        c: string)
    requires i < |rows|
    ensures Claims(rows[i := a], tables, unit, c) + ClaimOf(rows[i], tables, unit, c) ==
            Claims(rows, tables, unit, c) + ClaimOf(a, tables, unit, c)
  {
    var n := |rows| - 1;
    if i < n {
      ClaimsUpdate(rows[..n], i, a, tables, unit, c);
      assert rows[i := a][..n] == rows[..n][i := a];
    } else {
      assert rows[i := a][..n] == rows[..n];
    }
  }

  /** As the migration finds the tables: no colours, and no fifth provider yet. */
  predicate Unmigrated(rows: seq<Account>) {
    forall i | 0 <= i < |rows| :: rows[i].table < MIGRATED_TABLES && rows[i].color == ""
  }

  /** One if the `n`th update gives the colour within the unit. */
  function GivenNow(p: seq<string>, rows: seq<Account>, order: seq<nat>, n: nat, unit: string, c: string): nat
    requires |p| > 0 && n < |order| && forall i | 0 <= i < |order| :: order[i] < |rows|
  {
    if rows[order[n]].businessUnit == unit && Given(p, rows, order, n) == c then 1 else 0
  }

  function TimesGiven(p: seq<string>, rows: seq<Account>, order: seq<nat>, n: nat, unit: string, c: string): nat
    requires |p| > 0 && n <= |order| && forall i | 0 <= i < |order| :: order[i] < |rows|
  {
    if n == 0 then 0 else TimesGiven(p, rows, order, n - 1, unit, c) + GivenNow(p, rows, order, n - 1, unit, c)
  }

  lemma {:induction false} GivenAreCounted(p: seq<string>, rows: seq<Account>, order: seq<nat>, n: nat, unit: string,
                                           c: string)
    requires |p| > 0 && n <= |order| && forall i | 0 <= i < |order| :: order[i] < |rows|
    ensures Count(GivenIn(p, rows, order, n, unit), c) == TimesGiven(p, rows, order, n, unit, c)
  {
    if n > 0 {
      GivenAreCounted(p, rows, order, n - 1, unit, c);
      var before, x := GivenIn(p, rows, order, n - 1, unit), Given(p, rows, order, n - 1);
      assert (before + [x])[..|before|] == before;
    }
  }

  lemma OneMoreGiven(p: seq<string>, rows: seq<Account>, order: seq<nat>, n: nat, unit: string, c: string)
    requires |p| > 0 && "" !in p && unit != "" && Listing(rows, order) && n < |order|
    requires rows[order[n]].table < MIGRATED_TABLES && rows[order[n]].color == ""
    ensures Claims(Colored(p, rows, order, n + 1), PROVIDER_TABLES, Some(unit), c) ==
            Claims(Colored(p, rows, order, n), PROVIDER_TABLES, Some(unit), c)
            + GivenNow(p, rows, order, n, unit, c)
  {
    ColoredExactly(p, rows, order, n, n);
    var a := rows[order[n]].(color := Given(p, rows, order, n));
    assert a.color in p;
    ClaimsUpdate(Colored(p, rows, order, n), order[n], a, PROVIDER_TABLES, Some(unit), c);
  }

  lemma {:induction false} GivenAreClaimed(p: seq<string>, rows: seq<Account>, order: seq<nat>, n: nat, unit: string,
                                           c: string)
    requires |p| > 0 && "" !in p && unit != "" && Listing(rows, order) && n <= |order|
    requires Unmigrated(rows)
    ensures ClaimsAgree(p, rows, order, n, unit, c)
  {
    if n == 0 {
      NoneClaimed(rows, Some(unit), c);
    } else {
      GivenAreClaimed(p, rows, order, n - 1, unit, c);
      NextAgrees(p, rows, order, n - 1, unit, c);
    }
  }

  /** After `n` updates the table claims the colour in the unit as often as it was given there. */
  predicate ClaimsAgree(p: seq<string>, rows: seq<Account>, order: seq<nat>, n: nat, unit: string, c: string)
    requires |p| > 0 && n <= |order| && Listing(rows, order)
  {
    Claims(Colored(p, rows, order, n), PROVIDER_TABLES, Some(unit), c) == TimesGiven(p, rows, order, n, unit, c)
  }

  lemma NextAgrees(p: seq<string>, rows: seq<Account>, order: seq<nat>, n: nat, unit: string, c: string)
    requires |p| > 0 && "" !in p && unit != "" && Listing(rows, order) && n < |order| && Unmigrated(rows)
    requires ClaimsAgree(p, rows, order, n, unit, c)
    ensures ClaimsAgree(p, rows, order, n + 1, unit, c)
  {
    OneMoreGiven(p, rows, order, n, unit, c);
  }

  lemma {:induction false} NoneClaimed(rows: seq<Account>, unit: Option<string>, c: string)
    requires forall i | 0 <= i < |rows| :: rows[i].color == ""
    ensures Claims(rows, PROVIDER_TABLES, unit, c) == 0
  {
    if rows != [] {
      NoneClaimed(rows[..|rows| - 1], unit, c);
    }
  }

  /** After the migration, creating an account goes on where the migration stopped. */
  lemma CreationContinuesTheRound(p: seq<string>, rows: seq<Account>, order: seq<nat>, unit: string)
    requires IsPalette(p) && "" !in p && unit != "" && Listing(rows, order)
    requires Unmigrated(rows)
    ensures Assigned(p, Colored(p, rows, order, |order|), Some(unit), "") ==
            ColorAt(p, Turn(rows, order, |order|, unit))
  {
    var turn := Turn(rows, order, |order|, unit);
    var counts := ClaimsOf(p, Colored(p, rows, order, |order|), Some(unit));
    GivenGoesRound(p, rows, order, |order|, unit);
    forall j | 0 <= j < |p| ensures counts[j] == CountsOf(p, GoRound(p, turn))[j] {
      GivenAreClaimed(p, rows, order, |order|, unit, p[j]);
      GivenAreCounted(p, rows, order, |order|, unit, p[j]);
    }
    NextInTurn(p, counts, turn);
  }

  // ---------- The migration is reproducible ----------

  function InOrder(rows: seq<Account>, order: seq<nat>): seq<Account>
    requires forall i | 0 <= i < |order| :: order[i] < |rows|
  {
    seq(|order|, i requires 0 <= i < |order| => rows[order[i]])
  }

  /** No two rows of a table have one id. */
  predicate UniqueRows(rows: seq<Account>) {
    forall i, j | 0 <= i < j < |rows| :: (rows[i].table, rows[i].id) != (rows[j].table, rows[j].id)
  }

  predicate Increasing(a: seq<Account>) {
    forall i, j | 0 <= i < j < |a| :: KeyLess(a[i], a[j])
  }

  function Indices(order: seq<nat>): set<nat> {
    set k | k in order
  }

  lemma {:induction false} IndicesSize(order: seq<nat>)
    requires forall i, j | 0 <= i < j < |order| :: order[i] != order[j]
    ensures |Indices(order)| == |order|
  {
    if order != [] {
      var n := |order| - 1;
      IndicesSize(order[..n]);
      assert order == order[..n] + [order[n]];
      assert Indices(order) == Indices(order[..n]) + {order[n]};
    }
  }

  function Below(n: nat): (s: set<nat>)
    ensures |s| == n && forall k: nat :: k in s <==> k < n
  {
    if n == 0 then {}
    else
      var rest := Below(n - 1);
      assert n - 1 !in rest;
      rest + {n - 1}
  }

  lemma SameSet(a: set<nat>, b: set<nat>)
    requires a <= b && |a| == |b|
    ensures a == b
  {
    assert b == a + (b - a);
  }

  /** A listing leaves out no row. */
  lemma ListingCovers(rows: seq<Account>, order: seq<nat>, i: nat)
    requires Listing(rows, order) && i < |rows|
    ensures i in order
  {
    IndicesSize(order);
    SameSet(Indices(order), Below(|rows|));
    assert i in Indices(order);
  }

  lemma SortedIncreases(rows: seq<Account>, order: seq<nat>)
    requires Listing(rows, order) && Sorted(rows, order) && UniqueRows(rows)
    ensures Increasing(InOrder(rows, order))
  {
    forall i, j | 0 <= i < j < |order| ensures KeyLess(rows[order[i]], rows[order[j]]) {
      KeyLessOrders(rows[order[i]], rows[order[j]]);
    }
  }

  /** Within a unit the turns go table by table, within a table by name, and by id where names are the same. */
  lemma TurnsGoByTable(rows: seq<Account>, order: seq<nat>, i: nat, j: nat)
    requires Listing(rows, order) && Sorted(rows, order) && i < |order| && j < |order|
    requires var a, b := rows[order[i]], rows[order[j]];
             && a.businessUnit == b.businessUnit
             && (a.table < b.table || (a.table == b.table &&
                                       (Less(a.name, b.name) || (a.name == b.name && Less(a.id, b.id)))))
    ensures i < j
  {
    var a, b := rows[order[i]], rows[order[j]];
    LessTrichotomy(a.name, b.name);
    assert KeyLess(a, b);
    KeyLessOrders(a, b);
  }

  lemma FirstStandsAlone(a: seq<Account>)
    requires Increasing(a) && a != []
    ensures forall x :: x in a[1..] <==> x in a && x != a[0]
  {
    KeyLessOrders(a[0], a[0]);
    assert a == [a[0]] + a[1..];
  }

  lemma {:induction false} IncreasingIsUnique(a: seq<Account>, b: seq<Account>)
    requires Increasing(a) && Increasing(b) && forall x :: x in a <==> x in b
    ensures a == b
  {
    assert b != [] ==> b[0] in b;
    if a != [] {
      assert a[0] in b && b[0] in a;
      KeyLessOrders(a[0], b[0]);
      KeyLessOrders(a[0], a[0]);
      FirstStandsAlone(a);
      FirstStandsAlone(b);
      IncreasingIsUnique(a[1..], b[1..]);
      assert a == [a[0]] + a[1..] && b == [b[0]] + b[1..];
    }
  }

  lemma {:induction false} TurnByOrder(a: seq<Account>, oa: seq<nat>, b: seq<Account>, ob: seq<nat>, n: nat,
                                       unit: string)
    requires forall i | 0 <= i < |oa| :: oa[i] < |a|
    requires forall i | 0 <= i < |ob| :: ob[i] < |b|
    requires InOrder(a, oa) == InOrder(b, ob) && n <= |oa|
    ensures |oa| == |ob| && Turn(a, oa, n, unit) == Turn(b, ob, n, unit)
  {
    assert |InOrder(a, oa)| == |InOrder(b, ob)|;
    if n > 0 {
      TurnByOrder(a, oa, b, ob, n - 1, unit);
      assert InOrder(a, oa)[n - 1] == InOrder(b, ob)[n - 1];
    }
  }

  /** The same accounts get the same colours, in whatever sequence their rows were created. */
  lemma BackfillIsReproducible(p: seq<string>, a: seq<Account>, oa: seq<nat>, b: seq<Account>, ob: seq<nat>,
                               i: nat, j: nat)
    requires |p| > 0 && Listing(a, oa) && Sorted(a, oa) && UniqueRows(a)
    requires Listing(b, ob) && Sorted(b, ob) && UniqueRows(b)
    requires (forall x :: x in a <==> x in b) && i < |a| && j < |b| && a[i] == b[j]
    ensures Colored(p, a, oa, |oa|)[i] == Colored(p, b, ob, |ob|)[j]
  {
    SortedIncreases(a, oa);
    SortedIncreases(b, ob);
    var s, t := InOrder(a, oa), InOrder(b, ob);
    InOrderHas(a, oa);
    InOrderHas(b, ob);
    IncreasingIsUnique(s, t);
    ListingCovers(a, oa, i);
    ListingCovers(b, ob, j);
    var k :| 0 <= k < |oa| && oa[k] == i;
    var m :| 0 <= m < |ob| && ob[m] == j;
    assert s[k] == a[i] && t[m] == b[j];
    KeyLessOrders(s[k], s[k]);
    assert k == m;
    TurnByOrder(a, oa, b, ob, k, a[i].businessUnit);
    ColoredExactly(p, a, oa, |oa|, k);
    ColoredExactly(p, b, ob, |ob|, k);
  }

  lemma InOrderHas(rows: seq<Account>, order: seq<nat>)
    requires Listing(rows, order)
    ensures forall x :: x in InOrder(rows, order) <==> x in rows
  {
    forall x | x in rows ensures x in InOrder(rows, order) {
      var i :| 0 <= i < |rows| && rows[i] == x;
      ListingCovers(rows, order, i);
      var k :| 0 <= k < |order| && order[k] == i;
      assert InOrder(rows, order)[k] == x;
    }
  }

  // ---------- Colours of one's own choice ----------

  /** An account that claims a colour, picked or chosen, counts once for it, in its unit and over all. */
  lemma ColorIsClaimed(rows: seq<Account>, a: Account, unit: Option<string>, c: string)
    requires a.table < 5 && c != ""
    ensures Claims(rows + [a], PROVIDER_TABLES, unit, c) == Claims(rows, PROVIDER_TABLES, unit, c) +
            if a.color == c && (unit.None? || (unit.value != "" && unit.value == a.businessUnit)) then 1 else 0
  {
    ClaimsSnoc(rows, a, PROVIDER_TABLES, unit, c);
  }

  /** A chosen colour is taken; else it is the least claimed in the unit, and of several the first in the palette. */
  lemma AssignedExactly(p: seq<string>, rows: seq<Account>, unit: Option<string>, explicit: string, i: nat)
    requires IsPalette(p) && i < |p|
    ensures explicit != "" ==> Assigned(p, rows, unit, explicit) == explicit
    ensures explicit == "" ==>
              (Assigned(p, rows, unit, explicit) == p[i] <==>
               && (forall j | 0 <= j < |p| :: Claims(rows, 5, unit, p[i]) <= Claims(rows, 5, unit, p[j]))
               && (forall j | 0 <= j < i :: Claims(rows, 5, unit, p[i]) < Claims(rows, 5, unit, p[j])))
  {
    var counts := ClaimsOf(p, rows, unit);
    if IsLeast(counts, i) {
      LeastIsUnique(counts, i);
    }
    assert forall j | 0 <= j < |p| :: counts[j] == Claims(rows, 5, unit, p[j]);
  }

  // ---------- The migration and the API ----------

  /** The first `n` rows of the order as the API would have them, created one by one without a colour of their own. */
  ghost function CreatedInOrder(p: seq<string>, rows: seq<Account>, order: seq<nat>, n: nat): seq<Account>
    requires |p| > 0 && n <= |order| && forall i | 0 <= i < |order| :: order[i] < |rows|
  {
    if n == 0 then []
    else
      var before, a := CreatedInOrder(p, rows, order, n - 1), rows[order[n - 1]];
      before + [a.(color := Assigned(p, before, UnitOf(a.businessUnit), ""))]
  }

  /** A unit's own rows alone count for it: a null unit's, which counts all, are those that sort first. */
  predicate OwnRowsCount(rows: seq<Account>, order: seq<nat>, n: nat, businessUnit: string)
    requires n <= |order| && forall i | 0 <= i < |order| :: order[i] < |rows|
  {
    businessUnit == "" ==> forall j | 0 <= j < n :: rows[order[j]].businessUnit == ""
  }

  /** The created rows claim a colour in the unit as often as the migration gives it there. */
  ghost predicate CreatedAgree(p: seq<string>, rows: seq<Account>, order: seq<nat>, n: nat, businessUnit: string)
    requires |p| > 0 && n <= |order| && forall i | 0 <= i < |order| :: order[i] < |rows|
  {
    forall c :: Claims(CreatedInOrder(p, rows, order, n), PROVIDER_TABLES, UnitOf(businessUnit), c) ==
                TimesGiven(p, rows, order, n, businessUnit, c)
  }

  lemma NextColor(p: seq<string>, rows: seq<Account>, order: seq<nat>, n: nat)
    requires IsPalette(p) && n < |order| && Listing(rows, order)
    requires CreatedAgree(p, rows, order, n, rows[order[n]].businessUnit)
    ensures var unit := rows[order[n]].businessUnit;
            Assigned(p, CreatedInOrder(p, rows, order, n), UnitOf(unit), "") == Given(p, rows, order, n)
  {
    var unit := rows[order[n]].businessUnit;
    var turn := Turn(rows, order, n, unit);
    var counts := ClaimsOf(p, CreatedInOrder(p, rows, order, n), UnitOf(unit));
    GivenGoesRound(p, rows, order, n, unit);
    forall j | 0 <= j < |p| ensures counts[j] == CountsOf(p, GoRound(p, turn))[j] {
      GivenAreCounted(p, rows, order, n, unit, p[j]);
    }
    NextInTurn(p, counts, turn);
  }

  lemma NextCreated(p: seq<string>, rows: seq<Account>, order: seq<nat>, n: nat, unit: string)
    requires IsPalette(p) && "" !in p && n < |order| && Listing(rows, order) && Unmigrated(rows)
    requires CreatedAgree(p, rows, order, n, unit) && OwnRowsCount(rows, order, n + 1, unit)
    ensures CreatedAgree(p, rows, order, n + 1, unit)
  {
    var before, a := CreatedInOrder(p, rows, order, n), rows[order[n]];
    var created := a.(color := Assigned(p, before, UnitOf(a.businessUnit), ""));
    if a.businessUnit == unit {
      NextColor(p, rows, order, n);
      assert created.color in p;
    }
    forall c
      ensures Claims(before + [created], PROVIDER_TABLES, UnitOf(unit), c) ==
              TimesGiven(p, rows, order, n + 1, unit, c)
    {
      ClaimsSnoc(before, created, PROVIDER_TABLES, UnitOf(unit), c);
      assert ClaimOf(created, PROVIDER_TABLES, UnitOf(unit), c) == GivenNow(p, rows, order, n, unit, c);
    }
  }

  lemma ClaimsSnoc(rows: seq<Account>, a: Account, tables: nat, unit: Option<string>, c: string)
    ensures Claims(rows + [a], tables, unit, c) == Claims(rows, tables, unit, c) + ClaimOf(a, tables, unit, c)
  {
    assert (rows + [a])[..|rows|] == rows;
  }

  lemma {:induction false} AllCreated(p: seq<string>, rows: seq<Account>, order: seq<nat>, n: nat, unit: string)
    requires IsPalette(p) && "" !in p && n <= |order| && Listing(rows, order) && Unmigrated(rows)
    requires OwnRowsCount(rows, order, n, unit)
    ensures CreatedAgree(p, rows, order, n, unit)
  {
    if n > 0 {
      AllCreated(p, rows, order, n - 1, unit);
      NextCreated(p, rows, order, n - 1, unit);
    }
  }

  lemma NullUnitsComeFirst(rows: seq<Account>, order: seq<nat>, n: nat)
    requires Listing(rows, order) && Sorted(rows, order) && n < |order|
    ensures OwnRowsCount(rows, order, n, rows[order[n]].businessUnit)
  {
    forall j | 0 <= j < n && rows[order[n]].businessUnit == "" ensures rows[order[j]].businessUnit == "" {
      assert !KeyLess(rows[order[n]], rows[order[j]]);
    }
  }

  lemma {:induction false} CreatedAt(p: seq<string>, rows: seq<Account>, order: seq<nat>, n: nat, k: nat)
    requires |p| > 0 && k < n <= |order| && forall i | 0 <= i < |order| :: order[i] < |rows|
    ensures var a, before := rows[order[k]], CreatedInOrder(p, rows, order, k);
            && |CreatedInOrder(p, rows, order, n)| == n
            && CreatedInOrder(p, rows, order, n)[k] == a.(color := Assigned(p, before, UnitOf(a.businessUnit), ""))
  {
    if k < n - 1 {
      CreatedAt(p, rows, order, n - 1, k);
    } else if n > 1 {
      CreatedAt(p, rows, order, n - 1, 0);
    }
  }

  /**
   * The migration gives every account, of whatever unit or of none, the colour it would have had if
   * the accounts had been created one by one in the migration's order.
   */
  lemma BackfillEqualsCreations(p: seq<string>, rows: seq<Account>, order: seq<nat>, k: nat)
    requires IsPalette(p) && "" !in p && Listing(rows, order) && Sorted(rows, order) && Unmigrated(rows) && k < |order|
    ensures |CreatedInOrder(p, rows, order, |order|)| == |order|
    ensures CreatedInOrder(p, rows, order, |order|)[k] == Colored(p, rows, order, |order|)[order[k]]
  {
    CreatedAt(p, rows, order, |order|, k);
    ColoredExactly(p, rows, order, |order|, k);
    NullUnitsComeFirst(rows, order, k);
    AllCreated(p, rows, order, k, rows[order[k]].businessUnit);
    NextColor(p, rows, order, k);
  }

  /** As many automatic picks as the palette has colours give each of them once. */
  lemma FirstPicksAreDistinct(p: seq<string>)
    requires IsPalette(p)
    ensures Picks(p, [], |p|) == p
  {
    PicksGoRound(p, |p|);
    FirstGoRound(p, |p|);
    assert p[..|p|] == p;
  }

  lemma {:induction false} FirstGoRound(p: seq<string>, n: nat)
    requires 0 < |p| && n <= |p|
    ensures GoRound(p, n) == p[..n]
  {
    if n > 0 {
      FirstGoRound(p, n - 1);
      FirstRound(p, n - 1);
      assert p[..n] == p[..n - 1] + [p[n - 1]];
    }
  }

  lemma FirstRound(p: seq<string>, k: nat)
    requires k < |p|
    ensures ColorAt(p, k) == p[k]
  {
    DivideBack(0, k, |p|);
  }

  /** So the first eight accounts of a unit differ in colour. */
  lemma EightColorsAreDistinct()
    ensures Picks(ACCOUNT_COLORS, [], 8) == ["red", "orange", "yellow", "green", "blue", "purple", "brown", "gray"]
    ensures forall i, j | 0 <= i < j < 8 :: Picks(ACCOUNT_COLORS, [], 8)[i] != Picks(ACCOUNT_COLORS, [], 8)[j]
  {
    ColorsAreAPalette();
    FirstPicksAreDistinct(ACCOUNT_COLORS);
  }
}
