// How a plan's resource changes are classified and counted.

module PlanSummary {
  datatype Kind = NoOp | Read | Replace | Create | Delete | Update | Unknown

  function ActionSet(actions: seq<string>): set<string> {
    set a | a in actions
  }

  function Classify(actions: seq<string>): Kind {
    var a := ActionSet(actions);
    if a == {"no-op"} then NoOp
    else if a == {"read"} then Read
    else if "create" in a && "delete" in a then Replace
    else if "create" in a then Create
    else if "delete" in a then Delete
    else if "update" in a then Update
    else Unknown
  }

  datatype Summary = Summary(add: nat, change: nat, destroy: nat, noOp: nat, read: nat) {
    predicate IsNoChanges() {
      add == 0 && change == 0 && destroy == 0
    }
  }

  function CountKind(entries: seq<seq<string>>, kind: Kind): nat {
    if entries == [] then 0
    else CountKind(entries[..|entries| - 1], kind) + (if Classify(entries[|entries| - 1]) == kind then 1 else 0)
  }

  function SummaryOf(entries: seq<seq<string>>): Summary {
    var n := (kind: Kind) => CountKind(entries, kind);
    Summary(n(Create) + n(Replace), n(Update), n(Delete) + n(Replace), n(NoOp), n(Read))
  }

  /** One more entry of a kind; a replacement counts as an add and a destroy. */
  function Bumped(s: Summary, kind: Kind): Summary {
    match kind
    case Create => s.(add := s.add + 1)
    case Update => s.(change := s.change + 1)
    case Delete => s.(destroy := s.destroy + 1)
    case Replace => s.(add := s.add + 1, destroy := s.destroy + 1)
    case NoOp => s.(noOp := s.noOp + 1)
    case Read => s.(read := s.read + 1)
    case Unknown => s
  }

  lemma OneMore(entries: seq<seq<string>>, actions: seq<string>)
    ensures SummaryOf(entries + [actions]) == Bumped(SummaryOf(entries), Classify(actions))
  {
    assert (entries + [actions])[..|entries|] == entries;
    forall kind
      ensures CountKind(entries + [actions], kind) == CountKind(entries, kind) +
              (if Classify(actions) == kind then 1 else 0) {
    }
  }

  /** The counting loop; a replacement counts as an add and a destroy. */
  method Summarize(entries: seq<seq<string>>) returns (sum: Summary)
    ensures sum == SummaryOf(entries)
  {
    var add, change, destroy, noOp, read := 0, 0, 0, 0, 0;
    for i := 0 to |entries|
      invariant Summary(add, change, destroy, noOp, read) == SummaryOf(entries[..i])
    {
      assert entries[..i + 1][..i] == entries[..i];
      var kind := Classify(entries[i]);
      if kind == Create {
        add := add + 1;
      } else if kind == Update {
        change := change + 1;
      } else if kind == Delete {
        destroy := destroy + 1;
      } else if kind == Replace {
        add := add + 1;
        destroy := destroy + 1;
      } else if kind == NoOp {
        noOp := noOp + 1;
      } else if kind == Read {
        read := read + 1;
      }
    }
    assert entries[..|entries|] == entries;
    sum := Summary(add, change, destroy, noOp, read);
  }

  predicate Mutates(actions: seq<string>) {
    "create" in actions || "update" in actions || "delete" in actions
  }

  lemma MutatesByKind(actions: seq<string>)
    ensures Mutates(actions) <==> Classify(actions) in {Create, Update, Delete, Replace}
  {
    var a := ActionSet(actions);
    assert forall x :: x in actions <==> x in a;
    assert "create" !in {"no-op"} && "create" !in {"read"};
  }

  /** A plan counts as "no changes" exactly when no entry creates, updates or deletes. */
  lemma {:induction false} NoChangesExactly(entries: seq<seq<string>>)
    ensures SummaryOf(entries).IsNoChanges() <==> forall i | 0 <= i < |entries| :: !Mutates(entries[i])
  {
    if entries != [] {
      NoChangesExactly(entries[..|entries| - 1]);
      MutatesByKind(entries[|entries| - 1]);
    }
  }

  function HowMany(entries: seq<seq<string>>, counts: seq<string> -> bool): nat {
    if entries == [] then 0
    else HowMany(entries[..|entries| - 1], counts) + (if counts(entries[|entries| - 1]) then 1 else 0)
  }

  /** The entry has this action and no other, perhaps more than once. */
  predicate IsOnly(actions: seq<string>, action: string) {
    action in actions && forall a | a in actions :: a == action
  }

  lemma KindsByAction(a: seq<string>)
    ensures "create" in a <==> Classify(a) in {Create, Replace}
    ensures "delete" in a <==> Classify(a) in {Delete, Replace}
    ensures "update" in a && "create" !in a && "delete" !in a <==> Classify(a) == Update
    ensures IsOnly(a, "no-op") <==> Classify(a) == NoOp
    ensures IsOnly(a, "read") <==> Classify(a) == Read
  {
    assert forall x :: x in a <==> x in ActionSet(a);
    assert "create" != "no-op" && "create" != "read" && "delete" != "no-op" && "delete" != "read";
    assert "update" != "no-op" && "update" != "read" && "no-op" != "read";
    assert "no-op"[0] == 'n' && "read"[0] == 'r' && "create"[0] == 'c' && "delete"[0] == 'd' && "update"[0] == 'u';
  }

  /**
   * What each number counts: the entries that create, those that delete, those that update and do
   * neither, and those with nothing but no-ops or reads.
   */
  lemma {:induction false} CountsExactly(entries: seq<seq<string>>)
    ensures var s := SummaryOf(entries);
            && s.add == HowMany(entries, a => "create" in a) && s.destroy == HowMany(entries, a => "delete" in a)
            && s.change == HowMany(entries, a => "update" in a && "create" !in a && "delete" !in a)
            && s.noOp == HowMany(entries, a => IsOnly(a, "no-op")) && s.read == HowMany(entries, a => IsOnly(a, "read"))
  {
    if entries != [] {
      CountsExactly(entries[..|entries| - 1]);
      KindsByAction(entries[|entries| - 1]);
    }
  }

  /** Every entry of a known kind is counted once, and replacements once more. */
  lemma {:induction false} CountsAddUp(entries: seq<seq<string>>)
    ensures var s := SummaryOf(entries);
            s.add + s.change + s.destroy + s.noOp + s.read ==
            |entries| - CountKind(entries, Unknown) + CountKind(entries, Replace)
  {
    if entries != [] {
      CountsAddUp(entries[..|entries| - 1]);
    }
  }
}
