// How a ghost is confirmed: a second lookup in pages, then a second read of the state; and the
// scan over all workspaces that shares one listing per account and region.

module GhostProtocol {
  import opened Options
  import opened Texts
  import opened TfState
  import opened DriftCollector

  const PAGE := 100

  function PageOf(arns: seq<string>, k: nat): seq<string>
    requires k * PAGE <= |arns|
  {
    arns[k * PAGE..if (k + 1) * PAGE <= |arns| then (k + 1) * PAGE else |arns|]
  }

  function PageCount(arns: seq<string>): nat {
    (|arns| + PAGE - 1) / PAGE
  }

  /** What the lookups of the first `n` pages found together; None once one has failed. */
  function FoundIn(answers: seq<Option<set<string>>>, n: nat): Option<set<string>>
    requires n <= |answers|
  {
    if n == 0 then Some({})
    else
      var before := FoundIn(answers, n - 1);
      if before.None? || answers[n - 1].None? then None else Some(before.value + answers[n - 1].value)
  }

  /** What was found, if no page failed: whatever some page's answer names. */
  lemma {:induction false} FoundExactly(answers: seq<Option<set<string>>>, n: nat)
    requires n <= |answers|
    ensures FoundIn(answers, n).Some? <==> forall k | 0 <= k < n :: answers[k].Some?
    ensures FoundIn(answers, n).Some? ==>
              forall g :: g in FoundIn(answers, n).value <==> exists k | 0 <= k < n :: g in answers[k].value
  {
    if n > 0 {
      FoundExactly(answers, n - 1);
    }
  }

  /** `answers` holds, page by page, what the targeted lookup returned or that it failed. */
  method StillLive(arns: seq<string>, answers: seq<Option<set<string>>>) returns (r: Option<set<string>>)
    requires |answers| == PageCount(arns)
    ensures r == FoundIn(answers, |answers|)
  {
    var found: set<string> := {};
    var i, k := 0, 0;
    while i < |arns|
      invariant i == k * PAGE && k <= |answers| && (i >= |arns| ==> k == |answers|)
      invariant FoundIn(answers, k) == Some(found)
    {
      if answers[k].None? {
        FailureSticks(answers, k + 1, |answers|);
        return None;
      }
      found := found + answers[k].value;
      i, k := i + PAGE, k + 1;
    }
    r := Some(found);
  }

  lemma {:induction false} FailureSticks(answers: seq<Option<set<string>>>, k: nat, n: nat)
    requires k <= n <= |answers| && FoundIn(answers, k).None?
    ensures FoundIn(answers, n).None?
    decreases n - k
  {
    if k < n {
      FailureSticks(answers, k + 1, n);
    }
  }

  function SetOf(arns: seq<string>): set<string> {
    set a | a in arns
  }

  /** No lookup asks about more than a hundred ARNs, and together the pages ask about each, in order. */
  lemma PagesCover(arns: seq<string>, k: nat)
    requires k < PageCount(arns)
    ensures 0 < |PageOf(arns, k)| <= 100 && (k < PageCount(arns) - 1 ==> |PageOf(arns, k)| == 100)
    ensures forall i | 0 <= i < |PageOf(arns, k)| :: 100 * k + i < |arns| && PageOf(arns, k)[i] == arns[100 * k + i]
    ensures 100 * PageCount(arns) >= |arns|
  {
  }

  lemma SetOfConcat(a: seq<string>, b: seq<string>)
    ensures SetOf(a + b) == SetOf(a) + SetOf(b)
  {
  }

  /** The first `n` pages together. */
  function Upto(arns: seq<string>, n: nat): seq<string> {
    if n * PAGE <= |arns| then arns[..n * PAGE] else arns
  }

  lemma {:induction false} PagesFind(arns: seq<string>, answers: seq<Option<set<string>>>, listed: set<string>, n: nat)
    requires n <= |answers| == PageCount(arns)
    requires forall k | 0 <= k < |answers| :: answers[k] == Some(listed * SetOf(PageOf(arns, k)))
    ensures FoundIn(answers, n) == Some(listed * SetOf(Upto(arns, n)))
  {
    if n == 0 {
      assert Upto(arns, 0) == [] && listed * SetOf(Upto(arns, 0)) == {};
    } else {
      PagesFind(arns, answers, listed, n - 1);
      OnePageMore(arns, n);
      hide Upto, PageOf, PageCount, SetOf;
      MeetJoin(listed, SetOf(Upto(arns, n - 1)), SetOf(PageOf(arns, n - 1)));
    }
  }

  lemma OnePageMore(arns: seq<string>, n: nat)
    requires 0 < n <= PageCount(arns)
    ensures SetOf(Upto(arns, n)) == SetOf(Upto(arns, n - 1)) + SetOf(PageOf(arns, n - 1))
  {
    assert Upto(arns, n) == Upto(arns, n - 1) + PageOf(arns, n - 1);
    SetOfConcat(Upto(arns, n - 1), PageOf(arns, n - 1));
  }

  lemma MeetJoin<T>(s: set<T>, a: set<T>, b: set<T>)
    ensures s * (a + b) == s * a + s * b
  {
  }

  /** Asked in pages or all at once, a lookup that answers from one listing finds the same ARNs. */
  lemma PagesEqualOneLookup(arns: seq<string>, answers: seq<Option<set<string>>>, listed: set<string>)
    requires |answers| == PageCount(arns)
    requires forall k | 0 <= k < |answers| :: answers[k] == Some(listed * SetOf(PageOf(arns, k)))
    ensures FoundIn(answers, |answers|) == Some(listed * SetOf(arns))
  {
    PagesFind(arns, answers, listed, |answers|);
    assert Upto(arns, |answers|) == arns;
  }

  /** The candidates neither lookup knows and the fresh state still has. */
  function Confirmed(arns: seq<string>, answers: seq<Option<set<string>>>, latest: Option<State>): set<string> {
    var found := FoundIn(answers, |answers|);
    if found.None? || latest.None? || latest.value == [] then {}
    else (SetOf(arns) - found.value) * StateTags(latest.value).at.Keys
  }

  /** A candidate is a ghost exactly when every page was answered, none names it, and the fresh state has it. */
  lemma ConfirmedExactly(arns: seq<string>, answers: seq<Option<set<string>>>, latest: Option<State>, g: string)
    ensures g in Confirmed(arns, answers, latest) <==>
            && g in arns && latest.Some? && HasTagged(latest.value, g)
            && forall k | 0 <= k < |answers| :: answers[k].Some? && g !in answers[k].value
  {
    FoundExactly(answers, |answers|);
    if latest.Some? {
      StateTagsExactly(latest.value);
    }
  }

  method ConfirmGhosts(arns: seq<string>, answers: seq<Option<set<string>>>, latest: Option<State>)
    returns (ghosts: set<string>)
    requires |answers| == PageCount(arns)
    ensures ghosts == Confirmed(arns, answers, latest)
    ensures forall g :: g in ghosts <==>
              && g in arns && latest.Some? && HasTagged(latest.value, g)
              && forall k | 0 <= k < |answers| :: answers[k].Some? && g !in answers[k].value
  {
    forall g ensures g in Confirmed(arns, answers, latest) <==>
                     && g in arns && latest.Some? && HasTagged(latest.value, g)
                     && forall k | 0 <= k < |answers| :: answers[k].Some? && g !in answers[k].value
    {
      ConfirmedExactly(arns, answers, latest, g);
    }
    var alive := StillLive(arns, answers);
    if alive.None? {
      return {};
    }
    if latest.None? || latest.value == [] {
      return {};
    }
    var tags := ReadStateTags(latest.value);
    ghosts := (SetOf(arns) - alive.value) * tags.at.Keys;
  }

  // ---------- The protocol as a machine ----------

  /** What exists: the tagged resources that are alive, and the workspace's stored state. */
  datatype World = World(alive: set<string>, state: State)

  datatype Stage =
    | Start
    | HasState(first: State)
    | Asking(first: State, listing: seq<Live>, candidates: seq<string>, answers: seq<Option<set<string>>>)
    | Done(ghosts: set<string>, evidence: Option<Evidence>)

  /** The reads a verdict rests on. */
  datatype Evidence = Evidence(
    first: State, listing: seq<Live>, candidates: seq<string>, answers: seq<Option<set<string>>>, latest: State)

  /** `gone` remembers which ARNs were not alive at the moment their page was looked up. */
  datatype Machine = Machine(world: World, gone: set<string>, stage: Stage)

  /** Applies may change the world between any two reads; any read may fail. */
  datatype Event =
    | ApplyRuns(world: World)
    | ReadState(ok: bool)
    | ListLive(listing: Option<seq<Live>>)
    | AskPage(answer: Option<set<string>>)
    | ReadFresh(ok: bool)

  function NextPage(s: Stage): seq<string>
    requires s.Asking? && |s.answers| < PageCount(s.candidates)
  {
    PageOf(s.candidates, |s.answers|)
  }

  /** The full listing may come back short; the lookup of a page knows at least what is alive of it. */
  predicate Truthful(m: Machine, e: Event) {
    e.AskPage? && e.answer.Some? && m.stage.Asking? && |m.stage.answers| < PageCount(m.stage.candidates) ==>
      forall a | a in NextPage(m.stage) && a in m.world.alive :: a in e.answer.value
  }

  function Stepped(m: Machine, e: Event, region: string): Machine {
    match e
    case ApplyRuns(w) => m.(world := w)
    case ReadState(ok) =>
      if m.stage != Start then m
      else m.(stage := if ok then HasState(m.world.state) else Done({}, None))
    case ListLive(listing) =>
      if !m.stage.HasState? then m
      else if listing.None? then m.(stage := Done({}, None))
      else
        var t := StateTags(m.stage.first);
        var candidates := CandidatesIn(t, t.order, ArnsOf(listing.value), region);
        m.(stage := if candidates == [] then Done({}, None) else Asking(m.stage.first, listing.value, candidates, []))
    case AskPage(answer) =>
      if !m.stage.Asking? || |m.stage.answers| >= PageCount(m.stage.candidates) then m
      else if answer.None? then m.(stage := Done({}, None))
      else
        Machine(m.world, m.gone + (SetOf(NextPage(m.stage)) - m.world.alive),
                m.stage.(answers := m.stage.answers + [answer]))
    case ReadFresh(ok) =>
      if !m.stage.Asking? || |m.stage.answers| < PageCount(m.stage.candidates) then m
      else if !ok then m.(stage := Done({}, None))
      else
        var s := m.stage;
        m.(stage := Done(Confirmed(s.candidates, s.answers, Some(m.world.state)),
                         Some(Evidence(s.first, s.listing, s.candidates, s.answers, m.world.state))))
  }

  function RunAll(m: Machine, events: seq<Event>, region: string): Machine {
    if events == [] then m else Stepped(RunAll(m, events[..|events| - 1], region), events[|events| - 1], region)
  }

  predicate AllTruthful(m: Machine, events: seq<Event>, region: string) {
    forall n | 0 <= n < |events| :: Truthful(RunAll(m, events[..n], region), events[n])
  }

  predicate AreCandidates(first: State, listing: seq<Live>, candidates: seq<string>, region: string) {
    forall a | a in candidates :: IsCandidate(StateTags(first), ArnsOf(listing), region, a)
  }

  /** Everything looked up so far and not found was gone at that moment. */
  predicate Inv(m: Machine, region: string) {
    match m.stage
    case Asking(first, listing, candidates, answers) =>
      && AreCandidates(first, listing, candidates, region) && |answers| <= PageCount(candidates)
      && (forall k | 0 <= k < |answers| :: answers[k].Some? && LookedUp(candidates, answers, m.gone, k))
    case Done(ghosts, evidence) =>
      && (evidence.None? ==> ghosts == {})
      && (evidence.Some? ==>
            && AreCandidates(evidence.value.first, evidence.value.listing, evidence.value.candidates, region)
            && forall g | g in ghosts ::
                 g in evidence.value.candidates && g in m.gone && g in StateTags(evidence.value.latest).at)
    case _ => true
  }

  predicate LookedUp(candidates: seq<string>, answers: seq<Option<set<string>>>, gone: set<string>, k: nat)
    requires k < |answers| <= PageCount(candidates)
  {
    answers[k].Some? && forall a | a in PageOf(candidates, k) :: a in answers[k].value || a in gone
  }

  lemma {:induction false} FoundHasAll(answers: seq<Option<set<string>>>, n: nat, k: nat)
    requires k < n <= |answers| && FoundIn(answers, n).Some?
    ensures answers[k].Some? && answers[k].value <= FoundIn(answers, n).value
  {
    if k < n - 1 {
      FoundHasAll(answers, n - 1, k);
    }
  }

  /** A candidate sits on some page. */
  lemma OnSomePage(candidates: seq<string>, a: string) returns (k: nat)
    requires a in candidates
    ensures k < PageCount(candidates) && a in PageOf(candidates, k)
  {
    var i :| 0 <= i < |candidates| && candidates[i] == a;
    k := i / PAGE;
    assert PageOf(candidates, k)[i - k * PAGE] == a;
  }

  lemma StepKeepsInv(m: Machine, e: Event, region: string)
    requires Inv(m, region) && Truthful(m, e)
    ensures Inv(Stepped(m, e, region), region)
  {
    var n := Stepped(m, e, region);
    match e {
      case ListLive(listing) =>
        if m.stage.HasState? && listing.Some? {
          CandidatesAre(StateTags(m.stage.first), StateTags(m.stage.first).order, ArnsOf(listing.value), region);
        }
      case AskPage(answer) =>
        if n.stage.Asking? && m.stage.Asking? && n.stage != m.stage {
          var c, before, after := m.stage.candidates, m.stage.answers, n.stage.answers;
          forall k | 0 <= k < |after| ensures after[k].Some? && LookedUp(c, after, n.gone, k) {
            if k < |before| {
              assert LookedUp(c, before, m.gone, k);
            }
          }
        }
      case ReadFresh(ok) =>
        if n.stage.Done? && m.stage.Asking? && ok {
          var c, answers := m.stage.candidates, m.stage.answers;
          forall g | g in n.stage.ghosts ensures g in c && g in m.gone {
            var k := OnSomePage(c, g);
            FoundHasAll(answers, |answers|, k);
            assert LookedUp(c, answers, m.gone, k);
          }
        }
      case _ =>
    }
  }

  lemma {:induction false} RunKeepsInv(m: Machine, events: seq<Event>, region: string)
    requires Inv(m, region) && AllTruthful(m, events, region)
    ensures Inv(RunAll(m, events, region), region)
  {
    if events != [] {
      var n := |events| - 1;
      assert forall k | 0 <= k < n :: events[..n][..k] == events[..k] && events[..n][k] == events[k];
      assert AllTruthful(m, events[..n], region) by {
        forall k | 0 <= k < n ensures Truthful(RunAll(m, events[..n][..k], region), events[..n][k]) {
          assert Truthful(RunAll(m, events[..k], region), events[k]);
        }
      }
      RunKeepsInv(m, events[..n], region);
      StepKeepsInv(RunAll(m, events[..n], region), events[n], region);
    }
  }

  /** The `n`th event read the state for the first time, and this is what the world held. */
  predicate ReadFirstAt(start: World, events: seq<Event>, region: string, n: nat, first: State) {
    && n < |events| && events[n] == ReadState(true)
    && var m := RunAll(Machine(start, {}, Start), events[..n], region); m.stage == Start && m.world.state == first
  }

  predicate ListedAt(events: seq<Event>, n: nat, listing: seq<Live>) {
    n < |events| && events[n] == ListLive(Some(listing))
  }

  /** The `n`th event read the state once all pages were answered, and this is what the world held. */
  predicate ReadLastAt(start: World, events: seq<Event>, region: string, n: nat, latest: State) {
    && n < |events| && events[n] == ReadFresh(true)
    && var m := RunAll(Machine(start, {}, Start), events[..n], region);
       m.stage.Asking? && |m.stage.answers| >= PageCount(m.stage.candidates) && m.world.state == latest
  }

  /** First state, listing and last state are those of three events of the run, in this order. */
  predicate ReadInOrder(start: World, events: seq<Event>, region: string, e: Evidence) {
    exists n, k, j ::
      0 <= n < k < j < |events| && ReadFirstAt(start, events, region, n, e.first) &&
      ListedAt(events, k, e.listing) && ReadLastAt(start, events, region, j, e.latest)
  }

  /** What a stage holds was read in this order, by events of the run. */
  predicate WasRead(start: World, events: seq<Event>, region: string) {
    match RunAll(Machine(start, {}, Start), events, region).stage
    case HasState(first) => exists n :: 0 <= n < |events| && ReadFirstAt(start, events, region, n, first)
    case Asking(first, listing, _, _) =>
      exists n, k ::
        0 <= n < k < |events| && ReadFirstAt(start, events, region, n, first) && ListedAt(events, k, listing)
    case Done(_, Some(e)) => ReadInOrder(start, events, region, e)
    case _ => true
  }

  lemma ReadsCarry(start: World, events: seq<Event>, region: string, z: nat, n: nat)
    requires n < z <= |events|
    ensures forall first :: ReadFirstAt(start, events[..z], region, n, first) <==>
            ReadFirstAt(start, events, region, n, first)
    ensures forall listing :: ListedAt(events[..z], n, listing) <==> ListedAt(events, n, listing)
    ensures forall latest :: ReadLastAt(start, events[..z], region, n, latest) <==>
            ReadLastAt(start, events, region, n, latest)
  {
    assert events[..z][..n] == events[..n];
  }

  lemma {:induction false} EverythingWasRead(start: World, events: seq<Event>, region: string)
    ensures WasRead(start, events, region)
  {
    if events != [] {
      var z := |events| - 1;
      EverythingWasRead(start, events[..z], region);
      match RunAll(Machine(start, {}, Start), events[..z], region).stage {
        case Start =>
          ReadFromStart(start, events, region);
        case HasState(_) =>
          ReadFromState(start, events, region);
        case Asking(_, _, _, _) =>
          ReadFromAsking(start, events, region);
        case Done(_, _) =>
          ReadFromDone(start, events, region);
      }
    }
  }

  lemma ReadFromStart(start: World, events: seq<Event>, region: string)
    requires events != [] && RunAll(Machine(start, {}, Start), events[..|events| - 1], region).stage == Start
    ensures WasRead(start, events, region)
  {
    var z := |events| - 1;
    if events[z] == ReadState(true) {
      assert ReadFirstAt(start, events, region, z, RunAll(Machine(start, {}, Start), events[..z], region).world.state);
    }
  }

  lemma ReadFromState(start: World, events: seq<Event>, region: string)
    requires events != [] && WasRead(start, events[..|events| - 1], region)
    requires RunAll(Machine(start, {}, Start), events[..|events| - 1], region).stage.HasState?
    ensures WasRead(start, events, region)
  {
    var z := |events| - 1;
    var first := RunAll(Machine(start, {}, Start), events[..z], region).stage.first;
    var n :| 0 <= n < z && ReadFirstAt(start, events[..z], region, n, first);
    ReadsCarry(start, events, region, z, n);
    assert ReadFirstAt(start, events, region, n, first);
    if events[z].ListLive? && events[z].listing.Some? {
      assert ListedAt(events, z, events[z].listing.value);
    }
  }

  lemma ReadFromAsking(start: World, events: seq<Event>, region: string)
    requires events != [] && WasRead(start, events[..|events| - 1], region)
    requires RunAll(Machine(start, {}, Start), events[..|events| - 1], region).stage.Asking?
    ensures WasRead(start, events, region)
  {
    var z := |events| - 1;
    var m := RunAll(Machine(start, {}, Start), events[..z], region);
    var n, k :| 0 <= n < k < z && ReadFirstAt(start, events[..z], region, n, m.stage.first) &&
                ListedAt(events[..z], k, m.stage.listing);
    ReadsCarry(start, events, region, z, n);
    ReadsCarry(start, events, region, z, k);
    assert ReadFirstAt(start, events, region, n, m.stage.first) && ListedAt(events, k, m.stage.listing);
    if events[z] == ReadFresh(true) && |m.stage.answers| >= PageCount(m.stage.candidates) {
      assert ReadLastAt(start, events, region, z, m.world.state);
    }
  }

  lemma ReadFromDone(start: World, events: seq<Event>, region: string)
    requires events != [] && WasRead(start, events[..|events| - 1], region)
    requires RunAll(Machine(start, {}, Start), events[..|events| - 1], region).stage.Done?
    ensures WasRead(start, events, region)
  {
    var z := |events| - 1;
    var s := RunAll(Machine(start, {}, Start), events[..z], region).stage;
    if s.evidence.Some? {
      var e := s.evidence.value;
      var n, k, j :| 0 <= n < k < j < z && ReadFirstAt(start, events[..z], region, n, e.first) &&
                     ListedAt(events[..z], k, e.listing) && ReadLastAt(start, events[..z], region, j, e.latest);
      ReadsCarry(start, events, region, z, n);
      ReadsCarry(start, events, region, z, k);
      ReadsCarry(start, events, region, z, j);
      assert ReadFirstAt(start, events, region, n, e.first) && ListedAt(events, k, e.listing);
      assert ReadLastAt(start, events, region, j, e.latest);
    }
  }

  /**
   * In every interleaving of reads and applies a reported ghost was in what the world's state held at
   * the first read, with a counting tag and the scanned region, was absent from the listing of a later
   * event, was not alive when it was looked up, and was in what the state held at the last read.
   */
  lemma GhostsAreSound(start: World, events: seq<Event>, region: string, g: string)
    requires AllTruthful(Machine(start, {}, Start), events, region)
    requires var m := RunAll(Machine(start, {}, Start), events, region); m.stage.Done? && g in m.stage.ghosts
    ensures var m := RunAll(Machine(start, {}, Start), events, region);
            && m.stage.evidence.Some?
            && var e := m.stage.evidence.value;
               && IsCandidate(StateTags(e.first), ArnsOf(e.listing), region, g)
               && g in m.gone && HasTagged(e.latest, g) && ReadInOrder(start, events, region, e)
  {
    var m := RunAll(Machine(start, {}, Start), events, region);
    RunKeepsInv(Machine(start, {}, Start), events, region);
    StateTagsExactly(m.stage.evidence.value.latest);
    EverythingWasRead(start, events, region);
  }

  /** The `n`th event is an answered lookup of the page on which the ARN stands. */
  predicate AskedAt(start: World, events: seq<Event>, region: string, n: nat, g: string) {
    && n < |events| && events[n].AskPage? && events[n].answer.Some?
    && var s := RunAll(Machine(start, {}, Start), events[..n], region).stage;
       s.Asking? && |s.answers| < PageCount(s.candidates) && g in NextPage(s)
  }

  predicate AliveAt(start: World, events: seq<Event>, region: string, n: nat, g: string)
    requires n <= |events|
  {
    g in RunAll(Machine(start, {}, Start), events[..n], region).world.alive
  }

  /** An ARN counts as gone only by a lookup of its own page, at a moment when it was not alive. */
  lemma {:induction false} GoneMeansNotAlive(start: World, events: seq<Event>, region: string, g: string)
    requires g in RunAll(Machine(start, {}, Start), events, region).gone
    ensures exists n | 0 <= n < |events| ::
              AskedAt(start, events, region, n, g) && !AliveAt(start, events, region, n, g)
  {
    var n := |events| - 1;
    if n >= 0 {
      if g in RunAll(Machine(start, {}, Start), events[..n], region).gone {
        GoneMeansNotAlive(start, events[..n], region, g);
        var k :| 0 <= k < n && AskedAt(start, events[..n], region, k, g) && !AliveAt(start, events[..n], region, k, g);
        assert events[..n][..k] == events[..k];
        assert AskedAt(start, events, region, k, g) && !AliveAt(start, events, region, k, g);
      } else {
        assert AskedAt(start, events, region, n, g) && !AliveAt(start, events, region, n, g);
      }
    }
  }

  /**
   * So a resource that is alive when its own page is looked up is never a ghost, whatever becomes of
   * it later; neither is one whose removal was already written to the state at the last read.
   */
  lemma AliveOrRemovedIsNoGhost(start: World, events: seq<Event>, region: string, g: string)
    requires AllTruthful(Machine(start, {}, Start), events, region)
    requires RunAll(Machine(start, {}, Start), events, region).stage.Done?
    requires var m := RunAll(Machine(start, {}, Start), events, region);
             || (forall n | 0 <= n < |events| && AskedAt(start, events, region, n, g) ::
                AliveAt(start, events, region, n, g))
             || (forall j, latest | 0 <= j < |events| && ReadLastAt(start, events, region, j, latest) ::
                !HasTagged(latest, g))
             || m.stage.evidence.None?
    ensures g !in RunAll(Machine(start, {}, Start), events, region).stage.ghosts
  {
    var m := RunAll(Machine(start, {}, Start), events, region);
    if g in m.stage.ghosts {
      GhostsAreSound(start, events, region, g);
      GoneMeansNotAlive(start, events, region, g);
    }
  }

  /** The event is a read that fails, at the stage that makes it. */
  predicate FailsAt(m: Machine, e: Event) {
    match m.stage
    case Start => e == ReadState(false)
    case HasState(_) => e == ListLive(None)
    case Asking(_, _, candidates, answers) =>
      if |answers| < PageCount(candidates) then e == AskPage(None) else e == ReadFresh(false)
    case Done(_, _) => false
  }

  /** A failed read ends a run without a ghost, whatever follows. */
  lemma {:induction false} FailureEndsRun(start: World, events: seq<Event>, region: string, n: nat)
    requires n < |events| && FailsAt(RunAll(Machine(start, {}, Start), events[..n], region), events[n])
    ensures RunAll(Machine(start, {}, Start), events, region).stage == Done({}, None)
  {
    var last := |events| - 1;
    if n < last {
      assert events[..last][..n] == events[..n];
      FailureEndsRun(start, events[..last], region, n);
    }
  }

  // ---------- The protocol and the report ----------

  /** The machine asks exactly about the collector's candidates, and ends with what their confirmation leaves. */
  predicate AsksRightly(m: Machine, region: string) {
    match m.stage
    case Asking(first, listing, candidates, answers) => candidates == CandidatesOf(first, listing, region)
    case Done(ghosts, Some(e)) =>
      e.candidates == CandidatesOf(e.first, e.listing, region) &&
          ghosts == Confirmed(e.candidates, e.answers, Some(e.latest))
    case _ => true
  }

  function CandidatesOf(first: State, listing: seq<Live>, region: string): seq<string> {
    CandidatesIn(StateTags(first), StateTags(first).order, ArnsOf(listing), region)
  }

  lemma {:induction false} RunAsksRightly(m: Machine, events: seq<Event>, region: string)
    requires AsksRightly(m, region)
    ensures AsksRightly(RunAll(m, events, region), region)
  {
    if events != [] {
      RunAsksRightly(m, events[..|events| - 1], region);
    }
  }

  // ---------- Every ghost is found ----------

  /** What a run in its last two stages was answered. */
  function AnswersOf(s: Stage): seq<Option<set<string>>> {
    match s case Asking(_, _, _, answers) => answers case Done(_, Some(e)) => e.answers case _ => []
  }

  lemma {:induction false} AnswersWereGiven(start: World, events: seq<Event>, region: string)
    ensures forall a | a in AnswersOf(RunAll(Machine(start, {}, Start), events, region).stage) ::
              a.Some? && AskPage(a) in events
  {
    if events != [] {
      var n := |events| - 1;
      AnswersWereGiven(start, events[..n], region);
      assert events == events[..n] + [events[n]];
    }
  }

  /**
   * Completeness of a run that read everything: a candidate of the first state and the listing that the
   * state still has at the last read is a ghost exactly when no answer the run used names it.
   */
  lemma GhostsAreComplete(start: World, events: seq<Event>, region: string, g: string)
    requires var s := RunAll(Machine(start, {}, Start), events, region).stage; s.Done? && s.evidence.Some?
    ensures var s := RunAll(Machine(start, {}, Start), events, region).stage;
            var e := s.evidence.value;
            g in s.ghosts <==>
            && IsCandidate(StateTags(e.first), ArnsOf(e.listing), region, g) && HasTagged(e.latest, g)
            && forall k | 0 <= k < |e.answers| :: e.answers[k].Some? && g !in e.answers[k].value
    ensures var s := RunAll(Machine(start, {}, Start), events, region).stage;
            var e := s.evidence.value;
            && IsCandidate(StateTags(e.first), ArnsOf(e.listing), region, g) && HasTagged(e.latest, g)
            && (forall n | 0 <= n < |events| && events[n].AskPage? && events[n].answer.Some? ::
                  g !in events[n].answer.value)
            ==> g in s.ghosts
  {
    RunAsksRightly(Machine(start, {}, Start), events, region);
    var e := RunAll(Machine(start, {}, Start), events, region).stage.evidence.value;
    StateTagsExactly(e.first);
    CandidatesInExactly(StateTags(e.first), ArnsOf(e.listing), region, g);
    ConfirmedExactly(e.candidates, e.answers, Some(e.latest), g);
    AnswersWereGiven(start, events, region);
    forall k | 0 <= k < |e.answers| ensures e.answers[k].Some? && AskPage(e.answers[k]) in events {
      assert e.answers[k] in e.answers;
    }
  }

  /** The events of a scan in which every read succeeds. */
  function GoodScan(listing: seq<Live>, answers: seq<Option<set<string>>>): seq<Event> {
    [ReadState(true), ListLive(Some(listing))] + Asks(answers) + [ReadFresh(true)]
  }

  function Asks(answers: seq<Option<set<string>>>): seq<Event> {
    seq(|answers|, i requires 0 <= i < |answers| => AskPage(answers[i]))
  }

  /** Such a scan, undisturbed, comes to its end with what it read: it is never stuck. */
  lemma GoodScanEnds(start: World, listing: seq<Live>, answers: seq<Option<set<string>>>, region: string)
    requires CandidatesOf(start.state, listing, region) != []
    requires |answers| == PageCount(CandidatesOf(start.state, listing, region))
    requires forall k | 0 <= k < |answers| :: answers[k].Some?
    ensures var s := RunAll(Machine(start, {}, Start), GoodScan(listing, answers), region).stage;
            s.Done? && s.evidence ==
            Some(Evidence(start.state, listing, CandidatesOf(start.state, listing, region), answers, start.state))
  {
    var m := Machine(start, {}, Start);
    var asked := [ReadState(true), ListLive(Some(listing))] + Asks(answers);
    AsksAdvance(start, listing, answers, region, |answers|);
    assert answers[..|answers|] == answers;
    assert GoodScan(listing, answers)[..|asked|] == asked && GoodScan(listing, answers)[|asked|] == ReadFresh(true);
  }

  lemma {:induction false} AsksAdvance(start: World, listing: seq<Live>, answers: seq<Option<set<string>>>,
                                       region: string, n: nat)
    requires CandidatesOf(start.state, listing, region) != []
    requires n <= |answers| == PageCount(CandidatesOf(start.state, listing, region))
    requires forall k | 0 <= k < |answers| :: answers[k].Some?
    ensures var events := [ReadState(true), ListLive(Some(listing))] + Asks(answers[..n]);
            var m := RunAll(Machine(start, {}, Start), events, region);
            m.world == start &&
            m.stage == Asking(start.state, listing, CandidatesOf(start.state, listing, region), answers[..n])
  {
    var first := [ReadState(true), ListLive(Some(listing))];
    if n == 0 {
      assert first + Asks(answers[..0]) == first && first[..1] == [ReadState(true)] && first[..1][..0] == [];
      assert RunAll(Machine(start, {}, Start), first[..1], region).stage == HasState(start.state);
    } else {
      AsksAdvance(start, listing, answers, region, n - 1);
      hide CandidatesOf, PageCount;
      var events := first + Asks(answers[..n]);
      assert events[..|events| - 1] == first + Asks(answers[..n - 1]);
      assert events[|events| - 1] == AskPage(answers[n - 1]);
      assert answers[..n - 1] + [answers[n - 1]] == answers[..n];
    }
  }

  // ---------- The scan over all workspaces ----------

  datatype Workspace = Workspace(id: string, region: string, accountId: string)

  /** What the outside answers for one workspace; `raises` is any exception during the analysis. */
  datatype Probe = Probe(
    credentialAccount: string, listing: Option<seq<Live>>, lookups: seq<string> -> seq<Option<set<string>>>,
    latest: Option<State>, raises: bool)

  function AccountOf(ws: Workspace, p: Probe): string {
    if p.credentialAccount != "" then p.credentialAccount else ws.accountId
  }

  function CacheKey(ws: Workspace, probes: map<string, Probe>): (string, string)
    requires ws.id in probes
  {
    (AccountOf(ws, probes[ws.id]), ws.region)
  }

  /** The workspaces that have an id. */
  function WithId(workspaces: seq<Workspace>): seq<Workspace> {
    if workspaces == [] then []
    else
      var before := WithId(workspaces[..|workspaces| - 1]);
      var last := workspaces[|workspaces| - 1];
      if last.id != "" then before + [last] else before
  }

  predicate Probed(workspaces: seq<Workspace>, probes: map<string, Probe>) {
    forall ws | ws in workspaces :: ws.id in probes
  }

  predicate Answered(workspaces: seq<Workspace>, states: map<string, Option<State>>, probes: map<string, Probe>) {
    Probed(workspaces, probes) && forall ws | ws in workspaces :: ws.id in states
  }

  /** The listing of the first workspace with the same account and region. */
  function SharedListing(workspaces: seq<Workspace>, probes: map<string, Probe>,
                         key: (string, string)): Option<seq<Live>>
    requires Probed(workspaces, probes)
  {
    if workspaces == [] then None
    else if CacheKey(workspaces[0], probes) == key then probes[workspaces[0].id].listing
    else SharedListing(workspaces[1..], probes, key)
  }

  function ConfirmFor(p: Probe): Confirm {
    arns => Confirmed(arns, p.lookups(arns), p.latest)
  }

  function ScanReport(ws: Workspace, p: Probe, state: Option<State>, listing: Option<seq<Live>>,
                      owners: Owners): Report {
    if p.raises then COLLECTOR_ERROR
    else
      var codified := if state.Some? then state.value else [];
      var c := ContextOf(codified, owners, SERVICE_OWNER_TAGS, ws.region, AccountOf(ws, p));
      var r := ReportOf(c, listing, Some(ConfirmFor(p)));
      if state.None? then r.(driftChecked := false) else r
  }

  function StatesOf(workspaces: seq<Workspace>, states: map<string, Option<State>>): seq<State>
    requires forall ws | ws in workspaces :: ws.id in states
  {
    seq(|workspaces|, i requires 0 <= i < |workspaces| =>
      assert workspaces[i] in workspaces;
      if states[workspaces[i].id].Some? then states[workspaces[i].id].value else [])
  }

  method ReportWorkspace(ws: Workspace, p: Probe, state: Option<State>, listing: Option<seq<Live>>, owners: Owners)
    returns (r: Report)
    ensures r == ScanReport(ws, p, state, listing, owners)
  {
    if p.raises {
      return COLLECTOR_ERROR;
    }
    r := AnalyzeWorkspace(if state.Some? then state.value else [], ws.region, AccountOf(ws, p), listing, owners,
                          Some(ConfirmFor(p)));
    if state.None? {
      r := r.(driftChecked := false);
    }
  }

  lemma {:induction false} WithIdExactly(workspaces: seq<Workspace>, ws: Workspace)
    ensures multiset(WithId(workspaces))[ws] == if ws.id == "" then 0 else multiset(workspaces)[ws]
  {
    if workspaces != [] {
      var n := |workspaces| - 1;
      WithIdExactly(workspaces[..n], ws);
      assert workspaces == workspaces[..n] + [workspaces[n]];
    }
  }

  /** The workspaces are scanned in one region of one account: that of the credentials, else their own. */
  predicate SameScope(a: Workspace, b: Workspace, probes: map<string, Probe>)
    requires a.id in probes && b.id in probes
  {
    var own, other := probes[a.id].credentialAccount, probes[b.id].credentialAccount;
    a.region == b.region && (if own != "" then own else a.accountId) == (if other != "" then other else b.accountId)
  }

  /** A workspace is judged by what was listed for the first of its scope, which may be its own. */
  lemma {:induction false} FirstOfScopeCounts(workspaces: seq<Workspace>, probes: map<string, Probe>, n: nat)
    returns (i: nat)
    requires Probed(workspaces, probes) && n < |workspaces|
    ensures i <= n && SameScope(workspaces[i], workspaces[n], probes)
    ensures forall j | 0 <= j < i :: !SameScope(workspaces[j], workspaces[n], probes)
    ensures SharedListing(workspaces, probes, CacheKey(workspaces[n], probes)) == probes[workspaces[i].id].listing
  {
    if SameScope(workspaces[0], workspaces[n], probes) {
      i := 0;
    } else {
      i := FirstOfScopeCounts(workspaces[1..], probes, n - 1);
      i := i + 1;
      assert forall j | 0 < j < i :: workspaces[j] == workspaces[1..][j - 1];
    }
  }

  /** What the scan files for one of the workspaces. */
  function ReportFor(ws: Workspace, workspaces: seq<Workspace>, states: map<string, Option<State>>,
                     probes: map<string, Probe>, owners: Owners): Report
    requires ws in workspaces && Answered(workspaces, states, probes)
  {
    ScanReport(ws, probes[ws.id], states[ws.id], SharedListing(workspaces, probes, CacheKey(ws, probes)), owners)
  }

  /** The reports of the first `n` workspaces, in their order. */
  function ReportsUpto(workspaces: seq<Workspace>, states: map<string, Option<State>>, probes: map<string, Probe>,
                       owners: Owners, n: nat): seq<Report>
    requires n <= |workspaces| && Answered(workspaces, states, probes)
  {
    if n == 0 then []
    else
      var before := ReportsUpto(workspaces, states, probes, owners, n - 1);
      before + [ReportFor(workspaces[n - 1], workspaces, states, probes, owners)]
  }

  lemma {:induction false} OneReportEach(workspaces: seq<Workspace>, states: map<string, Option<State>>,
                                         probes: map<string, Probe>, owners: Owners, n: nat, i: nat)
    requires i < n <= |workspaces| && Answered(workspaces, states, probes)
    ensures var rs := ReportsUpto(workspaces, states, probes, owners, n);
            |rs| == n && rs[i] == ReportFor(workspaces[i], workspaces, states, probes, owners)
  {
    if i < n - 1 {
      OneReportEach(workspaces, states, probes, owners, n - 1, i);
    } else if i > 0 {
      OneReportEach(workspaces, states, probes, owners, n - 1, 0);
    }
  }

  type Cache = map<(string, string), Option<seq<Live>>>

  /** A cached listing is that of the first workspace with its key, and every key seen so far is cached. */
  predicate CacheFits(cache: Cache, workspaces: seq<Workspace>, probes: map<string, Probe>, n: nat)
    requires n <= |workspaces| && Probed(workspaces, probes)
  {
    && cache.Keys == KeysBefore(workspaces, probes, n)
    && (forall key | key in cache :: cache[key] == SharedListing(workspaces, probes, key))
  }

  function KeysBefore(workspaces: seq<Workspace>, probes: map<string, Probe>, n: nat): set<(string, string)>
    requires n <= |workspaces| && Probed(workspaces, probes)
  {
    if n == 0 then {} else KeysBefore(workspaces, probes, n - 1) + {CacheKey(workspaces[n - 1], probes)}
  }

  lemma {:induction false} KeysAreBefore(workspaces: seq<Workspace>, probes: map<string, Probe>, n: nat)
    requires n <= |workspaces| && Probed(workspaces, probes)
    ensures forall i | 0 <= i < n :: CacheKey(workspaces[i], probes) in KeysBefore(workspaces, probes, n)
  {
    if n > 0 {
      KeysAreBefore(workspaces, probes, n - 1);
    }
  }

  /** The listing for the `n`th workspace: from the cache, or asked for now and cached. */
  method CachedListing(cache: Cache, workspaces: seq<Workspace>, probes: map<string, Probe>, n: nat)
    returns (out: Cache, listing: Option<seq<Live>>)
    requires n < |workspaces| && Probed(workspaces, probes) && CacheFits(cache, workspaces, probes, n)
    ensures CacheFits(out, workspaces, probes, n + 1)
    ensures listing == SharedListing(workspaces, probes, CacheKey(workspaces[n], probes))
  {
    var key := CacheKey(workspaces[n], probes);
    out := cache;
    if key !in out {
      KeysAreBefore(workspaces, probes, n);
      FirstListing(workspaces, probes, n);
      out := out[key := probes[workspaces[n].id].listing];
    }
    listing := out[key];
  }

  method ScanNext(cache: Cache, workspaces: seq<Workspace>, states: map<string, Option<State>>,
                  probes: map<string, Probe>, owners: Owners, n: nat)
    returns (out: Cache, r: Report)
    requires n < |workspaces| && Answered(workspaces, states, probes) && CacheFits(cache, workspaces, probes, n)
    ensures CacheFits(out, workspaces, probes, n + 1)
    ensures r == ReportFor(workspaces[n], workspaces, states, probes, owners)
  {
    var ws := workspaces[n];
    var listing;
    out, listing := CachedListing(cache, workspaces, probes, n);
    r := ReportWorkspace(ws, probes[ws.id], states[ws.id], listing, owners);
  }

  /** Both passes: the tag owners of all states first, then one report per workspace with an id. */
  method ScanOnce(listed: seq<Workspace>, states: map<string, Option<State>>, probes: map<string, Probe>)
    returns (owners: Owners, reports: seq<Report>)
    requires Answered(WithId(listed), states, probes)
    ensures OwnersOf(owners, AllTagPairs(StatesOf(WithId(listed), states)))
    ensures reports == ReportsUpto(WithId(listed), states, probes, owners, |WithId(listed)|)
  {
    var workspaces := WithId(listed);
    owners := UnionOwners(StatesOf(workspaces, states));
    reports := [];
    var cache: Cache := map[];
    for n := 0 to |workspaces|
      invariant CacheFits(cache, workspaces, probes, n)
      invariant reports == ReportsUpto(workspaces, states, probes, owners, n)
    {
      var r;
      cache, r := ScanNext(cache, workspaces, states, probes, owners, n);
      reports := reports + [r];
    }
  }

  lemma {:induction false} FirstListing(workspaces: seq<Workspace>, probes: map<string, Probe>, n: nat)
    requires Probed(workspaces, probes) && n < |workspaces|
    requires forall i | 0 <= i < n :: CacheKey(workspaces[i], probes) != CacheKey(workspaces[n], probes)
    ensures SharedListing(workspaces, probes, CacheKey(workspaces[n], probes)) == probes[workspaces[n].id].listing
  {
    if n > 0 {
      assert CacheKey(workspaces[0], probes) != CacheKey(workspaces[n], probes);
      FirstListing(workspaces[1..], probes, n - 1);
    }
  }

  /** The context in which the scan judges a workspace whose state it could read. */
  function ScanContext(ws: Workspace, p: Probe, first: State, owners: Owners): Context {
    ContextOf(first, owners, SERVICE_OWNER_TAGS, ws.region, AccountOf(ws, p))
  }

  /** What the outside answered a probe is what it answered in a run of the protocol. */
  predicate Answers(p: Probe, e: Evidence) {
    !p.raises && p.lookups(e.candidates) == e.answers && p.latest == Some(e.latest)
  }

  /** The ghosts of the report are those of the run, and it counts them all. */
  lemma ReportHasTheRunsGhosts(start: World, events: seq<Event>, ws: Workspace, p: Probe, owners: Owners)
    requires var s := RunAll(Machine(start, {}, Start), events, ws.region).stage;
             s.Done? && s.evidence.Some? && Answers(p, s.evidence.value)
    ensures var s := RunAll(Machine(start, {}, Start), events, ws.region).stage;
            var e := s.evidence.value;
            var c := ScanContext(ws, p, e.first, owners);
            && GhostsOf(c, Some(e.listing), Some(ConfirmFor(p))) == s.ghosts
            && ScanReport(ws, p, Some(e.first), Some(e.listing), owners) ==
               ReportOf(c, Some(e.listing), Some(ConfirmFor(p)))
            && ScanReport(ws, p, Some(e.first), Some(e.listing), owners).deletedCount == |s.ghosts|
  {
    RunAsksRightly(Machine(start, {}, Start), events, ws.region);
    var s := RunAll(Machine(start, {}, Start), events, ws.region).stage;
    var e := s.evidence.value;
    ConfirmedAreReported(ScanContext(ws, p, e.first, owners), e.listing, p);
  }

  lemma ConfirmedAreReported(c: Context, listing: seq<Live>, p: Probe)
    ensures var candidates := CandidatesIn(c.tagged, c.tagged.order, ArnsOf(listing), c.region);
            GhostsOf(c, Some(listing), Some(ConfirmFor(p))) == Confirmed(candidates, p.lookups(candidates), p.latest)
  {
    var candidates := CandidatesIn(c.tagged, c.tagged.order, ArnsOf(listing), c.region);
    assert SetOf(candidates) == set a | a in candidates;
    assert Confirmed(candidates, p.lookups(candidates), p.latest) <= SetOf(candidates);
    assert candidates == [] ==> SetOf(candidates) == {};
  }

  /**
   * The protocol's promise, said of the report: what it shows as a ghost was a candidate of the first
   * state and the listing, was not alive at some lookup of its page, and was in the state read last.
   */
  lemma ReportedGhostsAreSound(start: World, events: seq<Event>, ws: Workspace, p: Probe, owners: Owners, g: string)
    requires AllTruthful(Machine(start, {}, Start), events, ws.region)
    requires var s := RunAll(Machine(start, {}, Start), events, ws.region).stage;
             && s.Done? && s.evidence.Some? && Answers(p, s.evidence.value)
             && var e := s.evidence.value;
                g in GhostsOf(ScanContext(ws, p, e.first, owners), Some(e.listing), Some(ConfirmFor(p)))
    ensures var e := RunAll(Machine(start, {}, Start), events, ws.region).stage.evidence.value;
            && IsCandidate(StateTags(e.first), ArnsOf(e.listing), ws.region, g) && HasTagged(e.latest, g)
            && ReadInOrder(start, events, ws.region, e)
    ensures exists n | 0 <= n < |events| ::
              AskedAt(start, events, ws.region, n, g) && !AliveAt(start, events, ws.region, n, g)
  {
    ReportHasTheRunsGhosts(start, events, ws, p, owners);
    GhostsAreSound(start, events, ws.region, g);
    GoneMeansNotAlive(start, events, ws.region, g);
  }

  /**
   * Nor does the filed report miss one: in a scan that read everything, the ghosts are exactly the
   * candidates that no page's answer names and the fresh state still has. Each is listed and counted, and is drift.
   */
  lemma ReportedGhostsExactly(ws: Workspace, p: Probe, state: State, listing: seq<Live>, owners: Owners, g: string)
    requires !p.raises
    ensures var c := ScanContext(ws, p, state, owners);
            var r := ScanReport(ws, p, Some(state), Some(listing), owners);
            var candidates := CandidatesOf(state, listing, ws.region);
            var ghosts := GhostsOf(c, Some(listing), Some(ConfirmFor(p)));
            && (g in ghosts <==>
                  && IsCandidate(StateTags(state), ArnsOf(listing), ws.region, g)
                  && p.latest.Some? && HasTagged(p.latest.value, g)
                  && forall k | 0 <= k < |p.lookups(candidates)| ::
                       p.lookups(candidates)[k].Some? && g !in p.lookups(candidates)[k].value)
            && r.deletedCount == |ghosts|
            && (g in ghosts ==>
                  r.hasDrift && r.driftChecked && r.deletedCount > 0 &&
                  var e := StateTags(state).at[g];
                  Drift(e.address, e.kind, Deleted, "in state but not found in AWS") in r.resources)
  {
    var c := ScanContext(ws, p, state, owners);
    var candidates := CandidatesOf(state, listing, ws.region);
    ConfirmedAreReported(c, listing, p);
    ConfirmedExactly(candidates, p.lookups(candidates), p.latest, g);
    StateTagsExactly(state);
    CandidatesInExactly(StateTags(state), ArnsOf(listing), ws.region, g);
    GhostIsListed(state, c, listing, ConfirmFor(p), g);
  }

  lemma GhostIsListed(state: State, c: Context, listing: seq<Live>, confirm: Confirm, g: string)
    requires c == ContextOf(state, c.owners, SERVICE_OWNER_TAGS, c.region, c.accountId)
    ensures var r := ReportOf(c, Some(listing), Some(confirm));
            var ghosts := GhostsOf(c, Some(listing), Some(confirm));
            && r.deletedCount == |ghosts| && r.driftChecked
            && (g in ghosts ==>
                  r.hasDrift && r.deletedCount > 0 && g in c.tagged.at &&
                  var e := c.tagged.at[g];
                  Drift(e.address, e.kind, Deleted, "in state but not found in AWS") in r.resources)
  {
    var deleted, gone := ReportLists(state, c, Some(listing), Some(confirm));
    var r := ReportOf(c, Some(listing), Some(confirm));
    hide ReportOf, GhostsOf, ContextOf;
    if g in GhostsOf(c, Some(listing), Some(confirm)) {
      var i :| 0 <= i < |gone| && gone[i] == g;
      assert deleted[i] in r.resources;
    }
  }

  /** Any failed read yields no ghost at all. */
  lemma FailedReadYieldsNoGhost(c: Context, listing: Option<seq<Live>>, p: Probe, k: nat)
    requires listing.Some? && p.latest.Some? ==>
               var answers := p.lookups(CandidatesIn(c.tagged, c.tagged.order, ArnsOf(listing.value), c.region));
               k < |answers| && answers[k].None?
    ensures GhostsOf(c, listing, Some(ConfirmFor(p))) == {}
  {
    if listing.Some? {
      var candidates := CandidatesIn(c.tagged, c.tagged.order, ArnsOf(listing.value), c.region);
      ConfirmedAreReported(c, listing.value, p);
      if p.latest.Some? {
        FailureSticks(p.lookups(candidates), k + 1, |p.lookups(candidates)|);
      }
    }
  }

  /** A workspace whose state or listing could not be read, or whose analysis raised, shows no drift. */
  lemma UncheckedExactly(ws: Workspace, p: Probe, state: Option<State>, listing: Option<seq<Live>>, owners: Owners)
    ensures var r := ScanReport(ws, p, state, listing, owners);
            && (r.driftChecked <==> !p.raises && state.Some? && listing.Some?)
            && (p.raises || listing.None? || state.None? ==> !r.hasDrift)
  {
    if state.None? {
      var c := ContextOf([], owners, SERVICE_OWNER_TAGS, ws.region, AccountOf(ws, p));
      var items := if listing.Some? then listing.value else [];
      ModifiedMatchDrifting(c, items);
      NothingTracked(c, items);
      assert CandidatesIn(c.tagged, c.tagged.order, ArnsOf(items), c.region) == [];
      assert SortKeys({}) == [];
    }
  }

  lemma {:induction false} NothingTracked(c: Context, live: seq<Live>)
    requires c.codified.managedIds == {} && c.codified.arnlessIds == {}
    ensures Drifting(c, live) == []
  {
    if live != [] {
      NothingTracked(c, live[..|live| - 1]);
    }
  }
}
