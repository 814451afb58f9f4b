// The CLI's shim that moves global options in front of the command, and a reader that says
// what an argument list means.

module ArgvHoist {
  import opened Texts

  const VALUE_OPTS: set<string> := {"--profile", "-p", "--url", "--bu", "--output", "-o"}
  const FLAG_OPTS: set<string> := {"--version"}
  const GLOBAL_OPTS: set<string> := VALUE_OPTS + FLAG_OPTS

  datatype Param = Param(opts: seq<string>, secondaryOpts: seq<string>)

  /** A Click command; a plain command has no subcommands. */
  datatype Command = Command(params: seq<Param>, commands: map<string, Command>)

  // ---------- Tokens ----------

  predicate IsOption(token: string) {
    "-" <= token
  }

  /** The part of a token before its first `=`. */
  function Name(token: string): (name: string)
    ensures name <= token
  {
    if token == "" || token[0] == '=' then "" else [token[0]] + Name(token[1..])
  }

  predicate HasEquals(token: string) {
    |Name(token)| < |token|
  }

  function Attached(token: string): string {
    if HasEquals(token) then token[|Name(token)| + 1..] else ""
  }

  predicate IsGlobal(token: string) {
    IsOption(token) && Name(token) in GLOBAL_OPTS
  }

  /** A global option whose value, if any, is in the token itself. */
  predicate IsWhole(token: string) {
    Name(token) in FLAG_OPTS || HasEquals(token)
  }

  /** A token that is moved on its own: a flag, or an option with its value attached. */
  predicate StandsAlone(token: string) {
    Name(token) in FLAG_OPTS || Attached(token) != ""
  }

  /** The two spellings of an option are one option. */
  function Key(name: string): string {
    if name == "-p" then "--profile" else if name == "-o" then "--output" else name
  }

  // ---------- The command walk ----------

  function DeclaredBy(params: seq<Param>): (out: set<string>)
    ensures forall o :: o in out <==>
              exists i :: 0 <= i < |params| && (o in params[i].opts || o in params[i].secondaryOpts)
  {
    if params == [] then {}
    else
      var p := params[|params| - 1];
      var rest := DeclaredBy(params[..|params| - 1]);
      rest + (set o | o in p.opts) + (set o | o in p.secondaryOpts)
  }

  method DeclaredOpts(command: Command) returns (out: set<string>)
    ensures out == DeclaredBy(command.params)
  {
    out := {};
    for n := 0 to |command.params|
      invariant out == DeclaredBy(command.params[..n])
    {
      assert command.params[..n + 1][..n] == command.params[..n];
      out := out + (set o | o in command.params[n].opts);
      out := out + (set o | o in command.params[n].secondaryOpts);
    }
    assert command.params[..|command.params|] == command.params;
  }

  /** Where the positional tokens lead, stopping at the first that names no subcommand. */
  function Resolve(command: Command, tokens: seq<string>): Command
    decreases |tokens|
  {
    if tokens == [] then command
    else if IsOption(tokens[0]) then Resolve(command, tokens[1..])
    else if tokens[0] in command.commands then Resolve(command.commands[tokens[0]], tokens[1..])
    else command
  }

  /** Whether the walk leaves the command it starts from. */
  predicate Descends(command: Command, tokens: seq<string>) {
    tokens != [] &&
    (if IsOption(tokens[0]) then Descends(command, tokens[1..]) else tokens[0] in command.commands)
  }

  method ResolveTarget(group: Command, tokens: seq<string>) returns (command: Command, moved: bool)
    ensures command == Resolve(group, tokens) && moved == Descends(group, tokens)
  {
    command, moved := group, false;
    var i := 0;
    while i < |tokens|
      invariant i <= |tokens|
      invariant Resolve(group, tokens) == Resolve(command, tokens[i..])
      invariant if moved then Descends(group, tokens)
                else command == group && Descends(group, tokens) == Descends(group, tokens[i..])
    {
      var token := tokens[i];
      assert tokens[i..][1..] == tokens[i + 1..];
      i := i + 1;
      if IsOption(token) {
        continue;
      }
      if command.commands == map[] {
        break;
      }
      if token !in command.commands {
        break;
      }
      command, moved := command.commands[token], true;
    }
  }

  function Conflicts(group: Command, head: seq<string>): set<string> {
    if Descends(group, head) then DeclaredBy(Resolve(group, head).params) else {}
  }

  // ---------- Hoisting ----------

  function HeadLength(argv: seq<string>): (n: nat)
    ensures n <= |argv| && "--" !in argv[..n] && (n < |argv| ==> argv[n] == "--")
  {
    if argv == [] || argv[0] == "--" then 0
    else
      var n := 1 + HeadLength(argv[1..]);
      assert argv[..n] == [argv[0]] + argv[1..][..n - 1];
      n
  }

  function HeadOf(argv: seq<string>): seq<string> {
    argv[..HeadLength(argv)]
  }

  function TailOf(argv: seq<string>): seq<string> {
    argv[HeadLength(argv)..]
  }

  predicate Hoistable(token: string, conflicts: set<string>) {
    IsGlobal(token) && Name(token) !in conflicts
  }

  /** What the loop hoists and keeps from the tokens still ahead. */
  function Scan(tokens: seq<string>, seen: bool, conflicts: set<string>): (seq<string>, seq<string>)
    decreases |tokens|
  {
    if tokens == [] then ([], [])
    else
      var t := tokens[0];
      if !IsOption(t) then
        var (h, k) := Scan(tokens[1..], true, conflicts); (h, [t] + k)
      else if seen && Hoistable(t, conflicts) then
        if StandsAlone(t) then
          var (h, k) := Scan(tokens[1..], seen, conflicts); ([t] + h, k)
        else if |tokens| > 1 then
          var (h, k) := Scan(tokens[2..], seen, conflicts); ([t, tokens[1]] + h, k)
        else ([], [t])
      else
        var (h, k) := Scan(tokens[1..], seen, conflicts); (h, [t] + k)
  }

  function Hoisted(argv: seq<string>, group: Command): seq<string> {
    var (h, k) := Scan(HeadOf(argv), false, Conflicts(group, HeadOf(argv)));
    h + k + TailOf(argv)
  }

  /** The loop's accumulators when it ends, given what they hold now. */
  function Loop(tokens: seq<string>, seen: bool, h: seq<string>, k: seq<string>, conflicts: set<string>)
    : (seq<string>, seq<string>)
    decreases |tokens|
  {
    if tokens == [] then (h, k)
    else
      var t := tokens[0];
      if !IsOption(t) then Loop(tokens[1..], true, h, k + [t], conflicts)
      else if seen && Hoistable(t, conflicts) then
        if StandsAlone(t) then Loop(tokens[1..], seen, h + [t], k, conflicts)
        else if |tokens| > 1 then Loop(tokens[2..], seen, h + [t, tokens[1]], k, conflicts)
        else Loop(tokens[1..], seen, h, k + [t], conflicts)
      else Loop(tokens[1..], seen, h, k + [t], conflicts)
  }

  lemma {:induction false} LoopIsScan(tokens: seq<string>, seen: bool, h: seq<string>, k: seq<string>,
                                      conflicts: set<string>)
    ensures var p := Scan(tokens, seen, conflicts);
            Loop(tokens, seen, h, k, conflicts) == (h + p.0, k + p.1)
    decreases |tokens|
  {
    if tokens == [] {
      assert h + [] == h && k + [] == k;
    } else {
      var t := tokens[0];
      if IsOption(t) && seen && Hoistable(t, conflicts) && !StandsAlone(t) {
        if |tokens| > 1 {
          LoopIsScan(tokens[2..], seen, h + [t, tokens[1]], k, conflicts);
          ConcatAssociates(h, [t, tokens[1]], Scan(tokens[2..], seen, conflicts).0);
        } else {
          LoopIsScan(tokens[1..], seen, h, k + [t], conflicts);
        }
      } else if IsOption(t) && seen && Hoistable(t, conflicts) {
        LoopIsScan(tokens[1..], seen, h + [t], k, conflicts);
        ConcatAssociates(h, [t], Scan(tokens[1..], seen, conflicts).0);
      } else {
        var s := seen || !IsOption(t);
        LoopIsScan(tokens[1..], s, h, k + [t], conflicts);
        ConcatAssociates(k, [t], Scan(tokens[1..], s, conflicts).1);
      }
    }
  }

  /** The loop over the tokens. */
  method ScanHead(head: seq<string>, conflicts: set<string>) returns (hoisted: seq<string>, kept: seq<string>)
    ensures (hoisted, kept) == Scan(head, false, conflicts)
  {
    hoisted, kept := [], [];
    var i, seenCommand := 0, false;
    while i < |head|
      invariant i <= |head|
      invariant Loop(head[i..], seenCommand, hoisted, kept, conflicts) == Loop(head, false, [], [], conflicts)
    {
      var token := head[i];
      assert head[i..][1..] == head[i + 1..];
      if !IsOption(token) {
        seenCommand := true;
        kept := kept + [token];
        i := i + 1;
        continue;
      }
      if seenCommand && Name(token) in GLOBAL_OPTS && Name(token) !in conflicts {
        if Name(token) in FLAG_OPTS || Attached(token) != "" {
          hoisted := hoisted + [token];
          i := i + 1;
        } else if i + 1 < |head| {
          assert head[i..][2..] == head[i + 2..];
          hoisted := hoisted + [token, head[i + 1]];
          i := i + 2;
        } else {
          kept := kept + [token];
          i := i + 1;
        }
        continue;
      }
      kept := kept + [token];
      i := i + 1;
    }
    LoopIsScan(head, false, [], [], conflicts);
    assert [] + Scan(head, false, conflicts).0 == Scan(head, false, conflicts).0;
    assert [] + Scan(head, false, conflicts).1 == Scan(head, false, conflicts).1;
  }

  method HoistGlobalOptions(argv: seq<string>, group: Command) returns (out: seq<string>)
    ensures out == Hoisted(argv, group)
  {
    if argv == [] {
      return argv;
    }
    var head, tail := argv, [];
    if "--" in argv {
      var cut := HeadLength(argv);
      head, tail := argv[..cut], argv[cut..];
    }
    assert head == HeadOf(argv) && tail == TailOf(argv);
    var target, moved := ResolveTarget(group, head);
    var conflicts := {};
    if moved {
      conflicts := DeclaredOpts(target);
    }
    var hoisted, kept := ScanHead(head, conflicts);
    out := hoisted + kept + tail;
  }

  // ---------- Hoisting is a stable partition ----------

  /** The tokens at the positions where the mask has the given value, in order. */
  function Select(tokens: seq<string>, mask: seq<bool>, keep: bool): seq<string>
    requires |tokens| == |mask|
  {
    if tokens == [] then []
    else if mask[0] == keep then [tokens[0]] + Select(tokens[1..], mask[1..], keep)
    else Select(tokens[1..], mask[1..], keep)
  }

  function Mask(tokens: seq<string>, seen: bool, conflicts: set<string>): (mask: seq<bool>)
    ensures |mask| == |tokens|
    decreases |tokens|
  {
    if tokens == [] then []
    else
      var t := tokens[0];
      if !IsOption(t) then [false] + Mask(tokens[1..], true, conflicts)
      else if seen && Hoistable(t, conflicts) then
        if StandsAlone(t) then [true] + Mask(tokens[1..], seen, conflicts)
        else if |tokens| > 1 then [true, true] + Mask(tokens[2..], seen, conflicts)
        else [false]
      else [false] + Mask(tokens[1..], seen, conflicts)
  }

  /**
   * Reading the tokens from the left, whatever is hoisted is a global option the target does not
   * declare: on its own when it stands alone, else together with the token right behind it, its value.
   */
  predicate HoistsUnits(tokens: seq<string>, mask: seq<bool>, conflicts: set<string>)
    requires |tokens| == |mask|
    decreases |tokens|
  {
    if tokens == [] then true
    else if !mask[0] then HoistsUnits(tokens[1..], mask[1..], conflicts)
    else
      && Hoistable(tokens[0], conflicts)
      && if StandsAlone(tokens[0]) then HoistsUnits(tokens[1..], mask[1..], conflicts)
         else |tokens| > 1 && mask[1] && HoistsUnits(tokens[2..], mask[2..], conflicts)
  }

  /** Whole options and complete option-value pairs, one behind the other. */
  predicate Paired(tokens: seq<string>, conflicts: set<string>)
    decreases |tokens|
  {
    if tokens == [] then true
    else
      && Hoistable(tokens[0], conflicts)
      && if StandsAlone(tokens[0]) then Paired(tokens[1..], conflicts)
         else |tokens| > 1 && Paired(tokens[2..], conflicts)
  }

  /** Behind the first word, a hoistable option is kept only where its value is missing: at the very end. */
  predicate LeavesNone(tokens: seq<string>, mask: seq<bool>, conflicts: set<string>)
    requires |tokens| == |mask|
  {
    forall i, j | 0 <= i < j < |tokens| && !mask[i] && !IsOption(tokens[i]) && !mask[j] &&
                  Hoistable(tokens[j], conflicts) ::
      j == |tokens| - 1 && !StandsAlone(tokens[j])
  }

  lemma {:induction false} MaskHoistsUnits(tokens: seq<string>, seen: bool, conflicts: set<string>)
    ensures HoistsUnits(tokens, Mask(tokens, seen, conflicts), conflicts)
    decreases |tokens|
  {
    if tokens != [] {
      var t, m := tokens[0], Mask(tokens, seen, conflicts);
      if IsOption(t) && seen && Hoistable(t, conflicts) && !StandsAlone(t) && |tokens| > 1 {
        MaskHoistsUnits(tokens[2..], seen, conflicts);
        assert m[2..] == Mask(tokens[2..], seen, conflicts);
      } else {
        MaskHoistsUnits(tokens[1..], seen || !IsOption(t), conflicts);
        assert m[1..] == Mask(tokens[1..], seen || !IsOption(t), conflicts);
      }
    }
  }

  /** Once a word was seen, what is kept and hoistable is the last token and has no value. */
  lemma {:induction false} MaskLeavesNone(tokens: seq<string>, conflicts: set<string>, j: nat)
    requires j < |tokens| && !Mask(tokens, true, conflicts)[j] && Hoistable(tokens[j], conflicts)
    ensures j == |tokens| - 1 && !StandsAlone(tokens[j])
    decreases |tokens|
  {
    var t := tokens[0];
    if IsOption(t) && Hoistable(t, conflicts) && !StandsAlone(t) && |tokens| > 1 {
      MaskLeavesNone(tokens[2..], conflicts, j - 2);
    } else if j > 0 {
      MaskLeavesNone(tokens[1..], conflicts, j - 1);
    }
  }

  lemma {:induction false} MaskBehindWord(tokens: seq<string>, seen: bool, conflicts: set<string>, i: nat, j: nat)
    requires i < j < |tokens| && !Mask(tokens, seen, conflicts)[i] && !IsOption(tokens[i])
    requires !Mask(tokens, seen, conflicts)[j] && Hoistable(tokens[j], conflicts)
    ensures j == |tokens| - 1 && !StandsAlone(tokens[j])
    decreases |tokens|
  {
    var t := tokens[0];
    if seen {
      MaskLeavesNone(tokens, conflicts, j);
    } else if i == 0 {
      MaskLeavesNone(tokens[1..], conflicts, j - 1);
    } else {
      MaskBehindWord(tokens[1..], seen || !IsOption(t), conflicts, i - 1, j - 1);
    }
  }

  /** Options in front of the first word are in the right place already. */
  predicate FrontStays(tokens: seq<string>, mask: seq<bool>)
    requires |tokens| == |mask|
  {
    forall i | 0 <= i < |tokens| && mask[i] :: exists j :: 0 <= j < i && !mask[j] && !IsOption(tokens[j])
  }

  lemma {:induction false} MaskBehindSome(tokens: seq<string>, conflicts: set<string>, i: nat) returns (j: nat)
    requires i < |tokens| && Mask(tokens, false, conflicts)[i]
    ensures j < i && !Mask(tokens, false, conflicts)[j] && !IsOption(tokens[j])
    decreases |tokens|
  {
    if !IsOption(tokens[0]) {
      j := 0;
    } else {
      j := MaskBehindSome(tokens[1..], conflicts, i - 1);
      j := j + 1;
    }
  }

  lemma {:induction false} UnitsArePaired(tokens: seq<string>, mask: seq<bool>, conflicts: set<string>)
    requires |tokens| == |mask| && HoistsUnits(tokens, mask, conflicts)
    ensures Paired(Select(tokens, mask, true), conflicts)
    decreases |tokens|
  {
    if tokens != [] {
      if mask[0] && !StandsAlone(tokens[0]) {
        UnitsArePaired(tokens[2..], mask[2..], conflicts);
        SelectTwo(tokens, mask, true);
        assert Select(tokens, mask, true)[2..] == Select(tokens[2..], mask[2..], true);
      } else {
        UnitsArePaired(tokens[1..], mask[1..], conflicts);
        if mask[0] {
          assert Select(tokens, mask, true)[1..] == Select(tokens[1..], mask[1..], true);
        }
      }
    }
  }

  lemma SelectTwo(tokens: seq<string>, mask: seq<bool>, keep: bool)
    requires |tokens| == |mask| >= 2 && mask[0] == mask[1] == true
    ensures Select(tokens, mask, keep) ==
            if keep then [tokens[0], tokens[1]] + Select(tokens[2..], mask[2..], keep)
            else Select(tokens[2..], mask[2..], keep)
  {
    assert tokens[1..][1..] == tokens[2..] && mask[1..][1..] == mask[2..];
    assert keep ==> Select(tokens[1..], mask[1..], keep) == [tokens[1]] + Select(tokens[2..], mask[2..], keep);
  }

  lemma {:induction false} ScanSelects(tokens: seq<string>, seen: bool, conflicts: set<string>)
    ensures var m := Mask(tokens, seen, conflicts);
            Scan(tokens, seen, conflicts) == (Select(tokens, m, true), Select(tokens, m, false))
    decreases |tokens|
  {
    if tokens != [] {
      var t := tokens[0];
      var m := Mask(tokens, seen, conflicts);
      if IsOption(t) && seen && Hoistable(t, conflicts) && !StandsAlone(t) {
        if |tokens| > 1 {
          ScanSelects(tokens[2..], seen, conflicts);
          SelectTwo(tokens, m, true);
          SelectTwo(tokens, m, false);
          assert m[2..] == Mask(tokens[2..], seen, conflicts);
        } else {
          assert tokens == [t] && m == [false];
          assert Select(tokens[1..], m[1..], false) == [] && Select(tokens[1..], m[1..], true) == [];
          assert Select(tokens, m, false) == [t];
        }
      } else {
        ScanSelects(tokens[1..], seen || !IsOption(t), conflicts);
        assert m[1..] == Mask(tokens[1..], seen || !IsOption(t), conflicts);
      }
    }
  }

  lemma {:induction false} SelectSplits(tokens: seq<string>, mask: seq<bool>)
    requires |tokens| == |mask|
    ensures multiset(Select(tokens, mask, true)) + multiset(Select(tokens, mask, false)) == multiset(tokens)
  {
    if tokens != [] {
      SelectSplits(tokens[1..], mask[1..]);
      MultisetCons(tokens[0], Select(tokens[1..], mask[1..], mask[0]));
      MultisetCons(tokens[0], tokens[1..]);
      assert tokens == [tokens[0]] + tokens[1..];
      assert Select(tokens, mask, !mask[0]) == Select(tokens[1..], mask[1..], !mask[0]);
    }
  }

  lemma MultisetCons(t: string, ts: seq<string>)
    ensures multiset([t] + ts) == multiset{t} + multiset(ts)
  {
  }

  /**
   * For every argument list: hoisting only moves tokens, keeps both groups in order and the tail
   * verbatim, takes a separate value along with its option, leaves no option it could take behind the
   * first word, and takes none in front of it.
   */
  lemma HoistingIsStablePartition(argv: seq<string>, group: Command) returns (mask: seq<bool>)
    ensures |mask| == |HeadOf(argv)|
    ensures var head, c := HeadOf(argv), Conflicts(group, HeadOf(argv));
            HoistsUnits(head, mask, c) && Paired(Select(head, mask, true), c) && LeavesNone(head, mask, c) &&
                FrontStays(head, mask)
    ensures Hoisted(argv, group) ==
            Select(HeadOf(argv), mask, true) + Select(HeadOf(argv), mask, false) + TailOf(argv)
    ensures multiset(Hoisted(argv, group)) == multiset(argv)
  {
    var head, conflicts := HeadOf(argv), Conflicts(group, HeadOf(argv));
    mask := Mask(head, false, conflicts);
    MaskHoistsUnits(head, false, conflicts);
    UnitsArePaired(head, mask, conflicts);
    forall i | 0 <= i < |head| && mask[i] ensures exists j :: 0 <= j < i && !mask[j] && !IsOption(head[j]) {
      var j := MaskBehindSome(head, conflicts, i);
    }
    forall i, j | 0 <= i < j < |head| && !mask[i] && !IsOption(head[i]) && !mask[j] && Hoistable(head[j], conflicts)
      ensures j == |head| - 1 && !StandsAlone(head[j])
    {
      MaskBehindWord(head, false, conflicts, i, j);
    }
    ScanSelects(head, false, conflicts);
    SelectSplits(head, mask);
    assert argv == head + TailOf(argv);
  }

  // ---------- What an argument list means ----------

  /** Global bindings, other options before the command, command words, their arguments, the tail. */
  datatype Reading = Reading(
    globals: map<string, string>, early: seq<string>, words: seq<string>, args: seq<string>, tail: seq<string>)

  /** The options in front of the command: bindings (the last one wins), other options, what follows. */
  function Early(tokens: seq<string>): (map<string, string>, seq<string>, seq<string>)
    decreases |tokens|
  {
    if tokens == [] || !IsOption(tokens[0]) then (map[], [], tokens)
    else
      var t := tokens[0];
      if !IsGlobal(t) then
        var (g, e, rest) := Early(tokens[1..]); (g, [t] + e, rest)
      else if IsWhole(t) then
        var (g, e, rest) := Early(tokens[1..]); (map[Key(Name(t)) := Attached(t)] + g, e, rest)
      else if |tokens| > 1 then
        var (g, e, rest) := Early(tokens[2..]); (map[Key(Name(t)) := tokens[1]] + g, e, rest)
      else (map[], [t], [])
  }

  /** The global options from the command on, wherever they stand, and what is left without them. */
  function Late(tokens: seq<string>, conflicts: set<string>): (map<string, string>, seq<string>)
    decreases |tokens|
  {
    if tokens == [] then (map[], [])
    else
      var t := tokens[0];
      if !Hoistable(t, conflicts) then
        var (g, rest) := Late(tokens[1..], conflicts); (g, [t] + rest)
      else if IsWhole(t) then
        var (g, rest) := Late(tokens[1..], conflicts); (map[Key(Name(t)) := Attached(t)] + g, rest)
      else if |tokens| > 1 then
        var (g, rest) := Late(tokens[2..], conflicts); (map[Key(Name(t)) := tokens[1]] + g, rest)
      else (map[], [t])
  }

  /** Command words, and everything else in its order. */
  function Words(command: Command, tokens: seq<string>): (seq<string>, seq<string>)
    decreases |tokens|
  {
    if tokens == [] then ([], [])
    else if IsOption(tokens[0]) then
      var (w, a) := Words(command, tokens[1..]); (w, [tokens[0]] + a)
    else if tokens[0] in command.commands then
      var (w, a) := Words(command.commands[tokens[0]], tokens[1..]); ([tokens[0]] + w, a)
    else ([], tokens)
  }

  /** The command walk of a reader that knows which global options carry a separate value. */
  function TrueTarget(command: Command, tokens: seq<string>): Command
    decreases |tokens|
  {
    if tokens == [] then command
    else if IsOption(tokens[0]) then
      if IsGlobal(tokens[0]) && !IsWhole(tokens[0]) && |tokens| > 1 then TrueTarget(command, tokens[2..])
      else TrueTarget(command, tokens[1..])
    else if tokens[0] in command.commands then TrueTarget(command.commands[tokens[0]], tokens[1..])
    else command
  }

  function TrueConflicts(group: Command, rest: seq<string>): set<string> {
    if rest != [] && rest[0] in group.commands then DeclaredBy(TrueTarget(group, rest).params) else {}
  }

  /** Globals are allowed before the command only: how Click reads the root options. */
  function ReadInFront(argv: seq<string>, group: Command): Reading {
    var (g, e, rest) := Early(HeadOf(argv));
    var (w, a) := Words(group, rest);
    Reading(g, e, w, a, TailOf(argv))
  }

  /** Globals are allowed anywhere, except those the command declares itself. */
  function ReadAnywhere(argv: seq<string>, group: Command): Reading {
    var (g, e, rest) := Early(HeadOf(argv));
    var (late, left) := Late(rest, TrueConflicts(group, rest));
    var (w, a) := Words(group, left);
    Reading(g + late, e, w, a, TailOf(argv))
  }

  // ---------- The conditions ----------

  /** No token is a global value option with an empty `=`. */
  predicate NoEmptyValues(tokens: seq<string>) {
    forall t | t in tokens && IsGlobal(t) && HasEquals(t) :: Attached(t) != ""
  }

  /** Before the command, no separate value of a global option looks like an option. */
  predicate PlainValues(tokens: seq<string>)
    decreases |tokens|
  {
    tokens == [] || !IsOption(tokens[0]) ||
    (if IsGlobal(tokens[0]) && !IsWhole(tokens[0]) && |tokens| > 1 then !IsOption(tokens[1]) && PlainValues(tokens[2..])
     else PlainValues(tokens[1..]))
  }

  /** The keys of the global options before the command, in order and with repetitions. */
  function EarlyKeys(tokens: seq<string>): seq<string>
    decreases |tokens|
  {
    if tokens == [] || !IsOption(tokens[0]) then []
    else if !IsGlobal(tokens[0]) then EarlyKeys(tokens[1..])
    else if IsWhole(tokens[0]) then [Key(Name(tokens[0]))] + EarlyKeys(tokens[1..])
    else if |tokens| > 1 then [Key(Name(tokens[0]))] + EarlyKeys(tokens[2..])
    else []
  }

  predicate Distinct(keys: seq<string>) {
    forall i, j | 0 <= i < j < |keys| :: keys[i] != keys[j]
  }

  /** No global option is given twice, before and after the command taken together. */
  predicate NothingTwice(argv: seq<string>, group: Command) {
    var rest := Early(HeadOf(argv)).2;
    && Distinct(EarlyKeys(HeadOf(argv)))
    && forall k | k in EarlyKeys(HeadOf(argv)) :: k !in Late(rest, TrueConflicts(group, rest)).0
  }

  /** Reading on from the command, the shim and the reader agree on which options are the command's own. */
  predicate SameOwner(tokens: seq<string>, c: set<string>, d: set<string>)
    decreases |tokens|
  {
    if tokens == [] then true
    else
      var t := tokens[0];
      if !IsGlobal(t) || (!IsWhole(t) && |tokens| == 1) then SameOwner(tokens[1..], c, d)
      else if (Name(t) in c) != (Name(t) in d) then false
      else if Name(t) in c || IsWhole(t) then SameOwner(tokens[1..], c, d)
      else SameOwner(tokens[2..], c, d)
  }

  // ---------- The shim's output, read in front ----------

  lemma {:induction false} ScanIsLate(tokens: seq<string>, c: set<string>)
    requires NoEmptyValues(tokens)
    ensures Early(Scan(tokens, true, c).0) == (Late(tokens, c).0, [], []) && CompleteOptions(Scan(tokens, true, c).0)
    ensures Scan(tokens, true, c).1 == Late(tokens, c).1
    decreases |tokens|
  {
    if tokens != [] {
      var t := tokens[0];
      assert t in tokens && |tokens| == 1 ==> tokens[1..] == [];
      if Hoistable(t, c) {
        if IsWhole(t) {
          ScanIsLate(tokens[1..], c);
          var h := Scan(tokens[1..], true, c).0;
          assert ([t] + h)[1..] == h;
        } else if |tokens| > 1 {
          ScanIsLate(tokens[2..], c);
          var h := Scan(tokens[2..], true, c).0;
          assert ([t, tokens[1]] + h)[2..] == h;
        }
      } else {
        ScanIsLate(tokens[1..], c);
      }
    }
  }

  lemma MapsAssociate<K, V>(a: map<K, V>, b: map<K, V>, c: map<K, V>)
    ensures (a + b) + c == a + (b + c)
  {
  }

  /** Options that are all read, then more. */
  lemma {:induction false} EarlyAppend(a: seq<string>, b: seq<string>)
    requires Early(a).2 == [] && CompleteOptions(a)
    ensures Early(a + b) == (Early(a).0 + Early(b).0, Early(a).1 + Early(b).1, Early(b).2)
    decreases |a|
  {
    if a == [] {
      assert a + b == b && map[] + Early(b).0 == Early(b).0 && [] + Early(b).1 == Early(b).1;
    } else {
      var t := a[0];
      var n := if IsGlobal(t) && !IsWhole(t) then 2 else 1;
      assert (a + b)[n..] == a[n..] + b;
      EarlyAppend(a[n..], b);
      var g, e := Early(a[n..]).0, Early(a[n..]).1;
      if IsGlobal(t) {
        MapsAssociate(map[Key(Name(t)) := if n == 2 then a[1] else Attached(t)], g, Early(b).0);
      } else {
        ConcatAssociates([t], e, Early(b).1);
      }
    }
  }

  /** A list of whole options and option-value pairs, with nothing left over. */
  predicate CompleteOptions(a: seq<string>)
    decreases |a|
  {
    a == [] || (IsOption(a[0]) &&
      if IsGlobal(a[0]) && !IsWhole(a[0]) then |a| > 1 && CompleteOptions(a[2..]) else CompleteOptions(a[1..]))
  }

  lemma {:induction false} EarlyBinds(tokens: seq<string>)
    ensures forall k :: k in Early(tokens).0 <==> k in EarlyKeys(tokens)
    decreases |tokens|
  {
    if tokens != [] && IsOption(tokens[0]) {
      var t := tokens[0];
      if !IsGlobal(t) || IsWhole(t) {
        EarlyBinds(tokens[1..]);
      } else if |tokens| > 1 {
        EarlyBinds(tokens[2..]);
      }
    }
  }

  /** One option at the front, with its separate value if it has one. */
  function Unit(tokens: seq<string>): (unit: seq<string>)
    requires tokens != []
    ensures unit <= tokens
  {
    if IsGlobal(tokens[0]) && !IsWhole(tokens[0]) && |tokens| > 1 then [tokens[0], tokens[1]] else [tokens[0]]
  }

  /** The shim moves such a unit as a whole, or leaves it as a whole. */
  lemma ScanUnit(tokens: seq<string>, seen: bool, c: set<string>)
    requires PlainValues(tokens) && NoEmptyValues(tokens) && StartsWithUnit(tokens)
    ensures var unit := Unit(tokens);
            var (h, k) := Scan(tokens[|unit|..], seen || |unit| == 2, c);
            Scan(tokens, seen, c) == if seen && Hoistable(tokens[0], c) then (unit + h, k) else (h, unit + k)
  {
    assert tokens[0] in tokens;
    if |Unit(tokens)| == 2 {
      var (h, k) := Scan(tokens[2..], true, c);
      assert tokens[1..][1..] == tokens[2..] && Scan(tokens[1..], seen, c) == (h, [tokens[1]] + k);
      ConcatAssociates([tokens[0]], [tokens[1]], k);
      assert [tokens[0]] + [tokens[1]] == Unit(tokens);
    }
  }

  function Binding(unit: seq<string>): map<string, string>
    requires unit != []
  {
    if !IsGlobal(unit[0]) then map[]
    else map[Key(Name(unit[0])) := if IsWhole(unit[0]) || |unit| == 1 then Attached(unit[0]) else unit[1]]
  }

  lemma EarlyUnit(tokens: seq<string>, x: seq<string>)
    requires StartsWithUnit(tokens)
    ensures var unit := Unit(tokens);
            var (g, e, rest) := Early(x);
            Early(unit + x) == (Binding(unit) + g, if IsGlobal(tokens[0]) then e else [tokens[0]] + e, rest)
  {
    var unit := Unit(tokens);
    assert (unit + x)[|unit|..] == x;
    assert map[] + Early(x).0 == Early(x).0;
  }

  /** `a` is what the shim hoists from the options before the command, and reading loses nothing by it. */
  predicate LeadsWith(tokens: seq<string>, seen: bool, c: set<string>, a: seq<string>) {
    var (h, k) := Scan(tokens, seen, c);
    var (g, e, rest) := Early(tokens);
    && h == a + Scan(rest, true, c).0
    && CompleteOptions(a) && Early(a).1 == [] && Early(a).2 == []
    && Early(k).1 == e && Early(k).2 == Scan(rest, true, c).1
    && (Distinct(EarlyKeys(tokens)) ==> Early(a).0 + Early(k).0 == g)
    && Early(a).0.Keys <= g.Keys && Early(k).0.Keys <= g.Keys
  }

  predicate StartsWithUnit(tokens: seq<string>) {
    tokens != [] && IsOption(tokens[0]) && (IsGlobal(tokens[0]) && !IsWhole(tokens[0]) ==> |tokens| > 1)
  }

  lemma LeadHoists(tokens: seq<string>, c: set<string>, b: seq<string>)
    requires PlainValues(tokens) && NoEmptyValues(tokens) && StartsWithUnit(tokens) && Hoistable(tokens[0], c)
    requires LeadsWith(tokens[|Unit(tokens)|..], true, c, b)
    ensures LeadsWith(tokens, true, c, Unit(tokens) + b)
  {
    var unit := Unit(tokens);
    var rest := tokens[|unit|..];
    var (h, k) := Scan(rest, true, c);
    ScanUnit(tokens, true, c);
    EarlyUnit(tokens, rest);
    EarlyUnit(tokens, b);
    assert tokens == unit + rest && (unit + b)[|unit|..] == b;
    ConcatAssociates(unit, b, Scan(Early(rest).2, true, c).0);
    MapsAssociate(Binding(unit), Early(b).0, Early(k).0);
    if Distinct(EarlyKeys(tokens)) {
      KeptBinds(tokens, map[], map[]);
    }
  }

  lemma LeadKeeps(tokens: seq<string>, seen: bool, c: set<string>, b: seq<string>)
    requires PlainValues(tokens) && NoEmptyValues(tokens) && StartsWithUnit(tokens) &&
             !(seen && Hoistable(tokens[0], c))
    requires LeadsWith(tokens[|Unit(tokens)|..], seen || |Unit(tokens)| == 2, c, b)
    ensures LeadsWith(tokens, seen, c, b)
  {
    var unit := Unit(tokens);
    var rest := tokens[|unit|..];
    var (h, k) := Scan(rest, seen || |unit| == 2, c);
    ScanUnit(tokens, seen, c);
    EarlyUnit(tokens, rest);
    EarlyUnit(tokens, k);
    assert tokens == unit + rest;
    EarlyBinds(rest);
    if Distinct(EarlyKeys(tokens)) {
      KeptBinds(tokens, Early(b).0, Early(k).0);
    }
  }

  lemma {:induction false} LeadingOptions(tokens: seq<string>, seen: bool, c: set<string>) returns (a: seq<string>)
    requires PlainValues(tokens) && NoEmptyValues(tokens)
    ensures LeadsWith(tokens, seen, c, a)
    decreases |tokens|
  {
    a := [];
    if StartsWithUnit(tokens) {
      var unit := Unit(tokens);
      a := LeadingOptions(tokens[|unit|..], seen || |unit| == 2, c);
      if seen && Hoistable(tokens[0], c) {
        LeadHoists(tokens, c, a);
        a := unit + a;
      } else {
        LeadKeeps(tokens, seen, c, a);
      }
    } else {
      NothingLeads(tokens, seen, c);
    }
  }

  lemma NothingLeads(tokens: seq<string>, seen: bool, c: set<string>)
    requires NoEmptyValues(tokens) && !StartsWithUnit(tokens)
    ensures LeadsWith(tokens, seen, c, [])
  {
    if tokens != [] && IsOption(tokens[0]) {
      assert tokens == [tokens[0]] && tokens[0] in tokens;
    }
  }

  lemma MapsSwap<K, V>(x: map<K, V>, b: map<K, V>, y: map<K, V>)
    requires forall k | k in b :: k !in x
    ensures x + (b + y) == b + (x + y)
  {
  }

  lemma DistinctCons(k: string, keys: seq<string>)
    ensures Distinct([k] + keys) ==> Distinct(keys) && k !in keys
  {
    var all := [k] + keys;
    assert all[0] == k && forall i | 0 <= i < |keys| :: all[i + 1] == keys[i];
    if Distinct(all) {
      forall i | 0 <= i < |keys| ensures keys[i] != k {
        assert all[0] != all[i + 1];
      }
      forall i, j | 0 <= i < j < |keys| ensures keys[i] != keys[j] {
        assert all[i + 1] != all[j + 1];
      }
    }
  }

  lemma KeptBinds(tokens: seq<string>, x: map<string, string>, y: map<string, string>)
    requires StartsWithUnit(tokens) && Distinct(EarlyKeys(tokens))
    requires forall k | k in x :: k in EarlyKeys(tokens[|Unit(tokens)|..])
    ensures Distinct(EarlyKeys(tokens[|Unit(tokens)|..]))
    ensures x + (Binding(Unit(tokens)) + y) == Binding(Unit(tokens)) + (x + y)
  {
    if IsGlobal(tokens[0]) {
      DistinctCons(Key(Name(tokens[0])), EarlyKeys(tokens[|Unit(tokens)|..]));
    }
    MapsSwap(x, Binding(Unit(tokens)), y);
  }

  lemma {:induction false} SameOwnerReads(tokens: seq<string>, c: set<string>, d: set<string>)
    requires SameOwner(tokens, c, d)
    ensures Late(tokens, c) == Late(tokens, d)
    decreases |tokens|
  {
    if tokens != [] {
      var t := tokens[0];
      if !IsGlobal(t) || (!IsWhole(t) && |tokens| == 1) || Name(t) in c || IsWhole(t) {
        var after := tokens[1..];
        assert |tokens| == 1 ==> after == [] && [t] + Late(after, c).1 == [t] == [t] + Late(after, d).1;
        SameOwnerReads(tokens[1..], c, d);
      } else {
        SameOwnerReads(tokens[2..], c, d);
      }
    }
  }

  lemma {:induction false} HeadLengthOf(x: seq<string>, tail: seq<string>)
    requires "--" !in x && (tail != [] ==> tail[0] == "--")
    ensures HeadLength(x + tail) == |x| && HeadOf(x + tail) == x && TailOf(x + tail) == tail
  {
    if x == [] {
      assert x + tail == tail;
    } else {
      HeadLengthOf(x[1..], tail);
      assert (x + tail)[1..] == x[1..] + tail;
    }
  }

  /** How the shim's output reads, whatever the conflicts. */
  lemma OutputReading(argv: seq<string>, group: Command) returns (a: map<string, string>, b: map<string, string>)
    requires PlainValues(HeadOf(argv)) && NoEmptyValues(HeadOf(argv))
    ensures var (g, e, rest) := Early(HeadOf(argv));
            var (late, left) := Late(rest, Conflicts(group, HeadOf(argv)));
            && ReadInFront(Hoisted(argv, group), group) ==
               Reading(a + (late + b), e, Words(group, left).0, Words(group, left).1, TailOf(argv))
            && (Distinct(EarlyKeys(HeadOf(argv))) ==> a + b == g)
            && a.Keys <= g.Keys && b.Keys <= g.Keys
  {
    var head, c := HeadOf(argv), Conflicts(group, HeadOf(argv));
    var rest := Early(head).2;
    var (h, k) := Scan(head, false, c);
    var lead := LeadingOptions(head, false, c);
    RestIsPart(head);
    ScanIsLate(rest, c);
    var hr := Scan(rest, true, c).0;
    EarlyAppend(lead, hr + k);
    EarlyAppend(hr, k);
    a, b := Early(lead).0, Early(k).0;
    ConcatAssociates(lead, hr, k);
    assert h + k == lead + (hr + k);
    ScanKeepsTokens(head, c);
    HeadLengthOf(h + k, TailOf(argv));
    ConcatAssociates([], [], Early(k).1);
  }

  lemma {:induction false} RestIsPart(tokens: seq<string>)
    ensures forall t | t in Early(tokens).2 :: t in tokens
    decreases |tokens|
  {
    if tokens != [] && IsOption(tokens[0]) {
      var t := tokens[0];
      if !IsGlobal(t) || IsWhole(t) {
        RestIsPart(tokens[1..]);
      } else if |tokens| > 1 {
        RestIsPart(tokens[2..]);
      }
    }
  }

  lemma ScanKeepsTokens(head: seq<string>, c: set<string>)
    ensures forall t | t in Scan(head, false, c).0 + Scan(head, false, c).1 :: t in head
  {
    var mask := Mask(head, false, c);
    ScanSelects(head, false, c);
    SelectSplits(head, mask);
    forall t | t in Scan(head, false, c).0 + Scan(head, false, c).1 ensures t in head {
      assert t in multiset(Select(head, mask, true)) + multiset(Select(head, mask, false));
      assert t in multiset(head);
    }
  }

  lemma NothingTwiceSplits(argv: seq<string>, group: Command)
    requires NothingTwice(argv, group)
    ensures var (g, e, rest) := Early(HeadOf(argv));
            Distinct(EarlyKeys(HeadOf(argv))) && forall k | k in g :: k !in Late(rest, TrueConflicts(group, rest)).0
  {
    EarlyBinds(HeadOf(argv));
  }

  lemma MapsRotate<K, V>(a: map<K, V>, b: map<K, V>, late: map<K, V>)
    requires forall k | k in b :: k !in late
    ensures a + (late + b) == (a + b) + late
  {
  }

  /** Hoisting preserves meaning when the shim and the reader agree on the command's own options. */
  lemma HoistingPreservesMeaning(argv: seq<string>, group: Command)
    requires PlainValues(HeadOf(argv)) && NoEmptyValues(HeadOf(argv)) && NothingTwice(argv, group)
    requires var rest := Early(HeadOf(argv)).2;
             SameOwner(rest, Conflicts(group, HeadOf(argv)), TrueConflicts(group, rest))
    ensures ReadInFront(Hoisted(argv, group), group) == ReadAnywhere(argv, group)
  {
    var rest := Early(HeadOf(argv)).2;
    NothingTwiceSplits(argv, group);
    var d := TrueConflicts(group, rest);
    SameOwnerReads(rest, Conflicts(group, HeadOf(argv)), d);
    var a, b := OutputReading(argv, group);
    MapsRotate(a, b, Late(rest, d).0);
  }

  // ---------- The condition is exact ----------

  /** Each global option name stands on at most one token. */
  predicate NamedOnce(tokens: seq<string>) {
    forall i, j | 0 <= i < j < |tokens| && IsGlobal(tokens[i]) && IsGlobal(tokens[j]) ::
      Name(tokens[i]) != Name(tokens[j])
  }

  lemma {:induction false} LateIsPart(tokens: seq<string>, c: set<string>)
    ensures forall t | t in Late(tokens, c).1 :: t in tokens
    decreases |tokens|
  {
    if tokens != [] {
      LateIsPart(tokens[1..], c);
      if |tokens| > 1 {
        LateIsPart(tokens[2..], c);
      }
    }
  }

  /** A token is claimed by the command in one reading only, so one of the two lacks it. */
  lemma {:induction false} OtherOwnerShows(tokens: seq<string>, c: set<string>, d: set<string>) returns (t: string)
    requires !SameOwner(tokens, c, d) && NamedOnce(tokens)
    ensures t in tokens && IsGlobal(t) && (t in Late(tokens, c).1) != (t in Late(tokens, d).1)
    decreases |tokens|
  {
    var u := tokens[0];
    if IsGlobal(u) && (IsWhole(u) || |tokens| > 1) && (Name(u) in c) != (Name(u) in d) {
      t := u;
      var free := if Name(u) in c then d else c;
      assert forall i | 1 <= i < |tokens| :: tokens[i] != u;
      LateIsPart(tokens[1..], free);
      if |tokens| > 1 {
        LateIsPart(tokens[2..], free);
      }
    } else {
      var n := if !IsGlobal(u) || !(IsWhole(u) || |tokens| > 1) || Name(u) in c || IsWhole(u) then 1 else 2;
      t := OtherOwnerShows(tokens[n..], c, d);
      assert forall i | 1 <= i < |tokens| && IsGlobal(tokens[i]) :: tokens[i] != u;
    }
  }

  lemma {:induction false} WordsKeepTokens(command: Command, tokens: seq<string>)
    ensures forall t :: t in tokens <==> t in Words(command, tokens).0 || t in Words(command, tokens).1
    decreases |tokens|
  {
    if tokens != [] {
      if IsOption(tokens[0]) {
        WordsKeepTokens(command, tokens[1..]);
      } else if tokens[0] in command.commands {
        WordsKeepTokens(command.commands[tokens[0]], tokens[1..]);
      }
    }
  }

  /** And only then: where shim and reader part on an option's owner, the output means something else. */
  lemma HoistingPreservesMeaningExactly(argv: seq<string>, group: Command)
    requires PlainValues(HeadOf(argv)) && NoEmptyValues(HeadOf(argv)) && NothingTwice(argv, group)
    requires NamedOnce(Early(HeadOf(argv)).2)
    ensures var rest := Early(HeadOf(argv)).2;
            ReadInFront(Hoisted(argv, group), group) == ReadAnywhere(argv, group) <==>
            SameOwner(rest, Conflicts(group, HeadOf(argv)), TrueConflicts(group, rest))
  {
    var rest := Early(HeadOf(argv)).2;
    var c, d := Conflicts(group, HeadOf(argv)), TrueConflicts(group, rest);
    if SameOwner(rest, c, d) {
      HoistingPreservesMeaning(argv, group);
    } else {
      var t := OtherOwnerShows(rest, c, d);
      WordsKeepTokens(group, Late(rest, c).1);
      WordsKeepTokens(group, Late(rest, d).1);
      var a, b := OutputReading(argv, group);
    }
  }

  // ---------- The documented usage ----------

  /** While the walk can still go down, it meets no global option with a separate value. */
  predicate WordsUnsplit(command: Command, tokens: seq<string>)
    decreases |tokens|
  {
    command.commands == map[] || tokens == [] ||
    if IsOption(tokens[0]) then
      !(IsGlobal(tokens[0]) && !IsWhole(tokens[0]) && |tokens| > 1) && WordsUnsplit(command, tokens[1..])
    else if tokens[0] in command.commands then WordsUnsplit(command.commands[tokens[0]], tokens[1..])
    else true
  }

  lemma {:induction false} SameWalk(command: Command, tokens: seq<string>)
    requires WordsUnsplit(command, tokens)
    ensures Resolve(command, tokens) == TrueTarget(command, tokens)
    decreases |tokens|
  {
    if tokens != [] {
      if IsOption(tokens[0]) {
        SameWalk(command, tokens[1..]);
        if |tokens| > 1 && command.commands == map[] {
          SameWalk(command, tokens[2..]);
          assert IsOption(tokens[1]) ==> Resolve(command, tokens[1..]) == Resolve(command, tokens[2..]) by {
            assert tokens[1..][1..] == tokens[2..];
          }
          LeafStays(command, tokens[1..]);
          LeafStays(command, tokens[2..]);
        }
      } else if tokens[0] in command.commands {
        SameWalk(command.commands[tokens[0]], tokens[1..]);
      }
    }
  }

  lemma {:induction false} LeafStays(command: Command, tokens: seq<string>)
    requires command.commands == map[]
    ensures Resolve(command, tokens) == command
    decreases |tokens|
  {
    if tokens != [] {
      LeafStays(command, tokens[1..]);
    }
  }

  lemma {:induction false} UnsplitLeads(group: Command, tokens: seq<string>)
    requires WordsUnsplit(group, tokens) && group.commands != map[]
    ensures var rest := Early(tokens).2;
            && PlainValues(tokens) && WordsUnsplit(group, rest) && Resolve(group, tokens) == Resolve(group, rest)
            && (Descends(group, tokens) <==> rest != [] && rest[0] in group.commands)
    decreases |tokens|
  {
    if tokens != [] && IsOption(tokens[0]) {
      UnsplitLeads(group, tokens[1..]);
      assert |tokens| == 1 ==> tokens[1..] == [];
    }
  }

  lemma {:induction false} SameSetSameOwner(tokens: seq<string>, c: set<string>)
    ensures SameOwner(tokens, c, c)
    decreases |tokens|
  {
    if tokens != [] {
      SameSetSameOwner(tokens[1..], c);
      if |tokens| > 1 {
        SameSetSameOwner(tokens[2..], c);
      }
    }
  }

  /** With no separate global value before or among the command words, hoisting preserves meaning. */
  lemma HoistingPreservesDocumentedUsage(argv: seq<string>, group: Command)
    requires group.commands != map[] && WordsUnsplit(group, HeadOf(argv))
    requires NoEmptyValues(HeadOf(argv)) && NothingTwice(argv, group)
    ensures ReadInFront(Hoisted(argv, group), group) == ReadAnywhere(argv, group)
  {
    var rest := Early(HeadOf(argv)).2;
    UnsplitLeads(group, HeadOf(argv));
    SameWalk(group, rest);
    SameSetSameOwner(rest, TrueConflicts(group, rest));
    HoistingPreservesMeaning(argv, group);
  }

  lemma {:induction false} PlainName(token: string)
    requires '=' !in token
    ensures Name(token) == token
  {
    if token != "" {
      PlainName(token[1..]);
      assert token == [token[0]] + token[1..];
    }
  }

  // ---------- What becomes of one option ----------

  /** A name ends at the first `=`, whatever follows it. */
  lemma {:induction false} NameEndsAtEquals(opt: string, value: string)
    requires '=' !in opt
    ensures Name(opt + "=" + value) == opt && Attached(opt + "=" + value) == value && HasEquals(opt + "=" + value)
  {
    var token := opt + "=" + value;
    assert token[|opt|] == '=' && token[|opt| + 1..] == value;
    if opt != "" {
      NameEndsAtEquals(opt[1..], value);
      assert token[1..] == opt[1..] + "=" + value && opt == [opt[0]] + opt[1..];
      assert token[0] == opt[0] && opt[0] in opt;
    }
  }

  /** A value option as it is spelled: with its value attached, or in front of it. */
  predicate Spells(unit: seq<string>, opt: string, value: string) {
    && opt in {"--profile", "-p", "--url", "--bu", "--output", "-o"}
    && (unit == [opt, value] || (value != "" && unit == [opt + "=" + value]))
  }

  function LongName(opt: string): string {
    match opt case "-p" => "--profile" case "-o" => "--output" case _ => opt
  }

  lemma UnitIsRead(unit: seq<string>, opt: string, value: string)
    requires Spells(unit, opt, value)
    ensures IsGlobal(unit[0]) && Name(unit[0]) == opt && Key(opt) == LongName(opt)
    ensures |unit| == 1 ==> IsWhole(unit[0]) && StandsAlone(unit[0]) && Attached(unit[0]) == value
    ensures |unit| == 2 ==> !IsWhole(unit[0]) && !StandsAlone(unit[0])
  {
    OptIsSpelled(opt);
    PlainName(opt);
    NameEndsAtEquals(opt, value);
    assert |unit| == 1 ==> unit[0][..|opt|] == opt && unit[0][0] == opt[0];
  }

  lemma UnitIsTaken(unit: seq<string>, opt: string, value: string, more: seq<string>, c: set<string>)
    requires Spells(unit, opt, value) && opt !in c
    ensures Scan(unit + more, true, c) == (unit + Scan(more, true, c).0, Scan(more, true, c).1)
    ensures Late(unit + more, c) == (map[LongName(opt) := value] + Late(more, c).0, Late(more, c).1)
  {
    UnitIsRead(unit, opt, value);
    var all := unit + more;
    assert all[|unit|..] == more && all[0] == unit[0];
    if |unit| == 2 {
      assert all[1] == value && all[2..] == more;
    } else {
      assert all[1..] == more && Hoistable(all[0], c) && Key(Name(all[0])) == LongName(opt);
      var (g, rest) := Late(all[1..], c);
      assert Late(all, c) == (map[Key(Name(all[0])) := Attached(all[0])] + g, rest);
    }
  }

  /** The list does not end on an option whose value is still to come. */
  predicate EndsWhole(tokens: seq<string>, c: set<string>) {
    tokens != [] ==> var last := tokens[|tokens| - 1]; Hoistable(last, c) ==> StandsAlone(last)
  }

  predicate HasWord(tokens: seq<string>) {
    exists i :: 0 <= i < |tokens| && !IsOption(tokens[i])
  }

  lemma {:induction false} ScanAppend(a: seq<string>, b: seq<string>, seen: bool, c: set<string>)
    requires EndsWhole(a, c)
    ensures var (h, k) := Scan(a, seen, c);
            var (h', k') := Scan(b, seen || HasWord(a), c);
            Scan(a + b, seen, c) == (h + h', k + k')
    decreases |a|
  {
    if a == [] {
      assert a + b == b && [] + Scan(b, seen, c).0 == Scan(b, seen, c).0;
      assert [] + Scan(b, seen, c).1 == Scan(b, seen, c).1;
    } else {
      hide Hoistable, StandsAlone, IsOption;
      var t := a[0];
      var n := if IsOption(t) && seen && Hoistable(t, c) && !StandsAlone(t) then 2 else 1;
      assert (a + b)[n..] == a[n..] + b && (a + b)[0] == t;
      var now := seen || !IsOption(t);
      ScanAppend(a[n..], b, now, c);
      assert (seen || HasWord(a)) == (now || HasWord(a[n..])) by {
        assert HasWord(a[n..]) ==> HasWord(a);
      }
      var (h, k) := Scan(a[n..], now, c);
      var (h', k') := Scan(b, now || HasWord(a[n..]), c);
      ConcatAssociates(a[..n], h, h');
      ConcatAssociates([t], k, k');
      if n == 2 {
        assert a[..2] == [t, a[1]] && (a + b)[1] == a[1];
        assert Scan(a + b, seen, c) == (a[..2] + (h + h'), k + k');
      } else if IsOption(t) && seen && Hoistable(t, c) {
        assert a[..1] == [t];
        assert Scan(a + b, seen, c) == ([t] + (h + h'), k + k');
      } else {
        assert Scan(a + b, seen, c) == (h + h', [t] + (k + k'));
      }
    }
  }

  lemma {:induction false} LateAppend(a: seq<string>, b: seq<string>, c: set<string>)
    requires EndsWhole(a, c) && NoEmptyValues(a)
    ensures Late(a + b, c) == (Late(a, c).0 + Late(b, c).0, Late(a, c).1 + Late(b, c).1)
    decreases |a|
  {
    if a == [] {
      assert a + b == b && map[] + Late(b, c).0 == Late(b, c).0 && [] + Late(b, c).1 == Late(b, c).1;
    } else {
      var t := a[0];
      assert t in a;
      var n := if Hoistable(t, c) && !IsWhole(t) then 2 else 1;
      assert (a + b)[n..] == a[n..] + b && (a + b)[0] == t;
      LateAppend(a[n..], b, c);
      if Hoistable(t, c) {
        assert n == 2 ==> (a + b)[1] == a[1];
        MapsAssociate(map[Key(Name(t)) := if n == 2 then a[1] else Attached(t)], Late(a[n..], c).0, Late(b, c).0);
      } else {
        ConcatAssociates([t], Late(a[n..], c).1, Late(b, c).1);
      }
    }
  }

  /**
   * Behind a word, a value option the target does not declare moves to the front with its value,
   * attached or not, and a `--version` does; around it the tokens are treated as they would be without it.
   */
  lemma OptionIsHoisted(a: seq<string>, unit: seq<string>, opt: string, value: string, b: seq<string>,
                        tail: seq<string>, group: Command)
    requires Spells(unit, opt, value) || (unit == [opt] && opt == "--version")
    requires "--" !in a + unit + b && (tail != [] ==> tail[0] == "--")
    requires HasWord(a) && EndsWhole(a, Conflicts(group, a + unit + b)) && opt !in Conflicts(group, a + unit + b)
    ensures var c := Conflicts(group, a + unit + b);
            var (h, k) := Scan(a, false, c);
            var (h', k') := Scan(b, true, c);
            Hoisted(a + unit + b + tail, group) == h + unit + h' + k + k' + tail
  {
    var head := a + unit + b;
    var c := Conflicts(group, head);
    HeadLengthOf(head, tail);
    if opt == "--version" {
      FlagIsTaken(b, c);
    } else {
      UnitIsTaken(unit, opt, value, b, c);
    }
    ScanInside(a, unit, b, c);
    hide Scan, Hoisted, Spells, EndsWhole, Conflicts;
    Assembled(head + tail, group, Scan(a, false, c), Scan(b, true, c), unit);
  }

  lemma ScanInside(a: seq<string>, unit: seq<string>, b: seq<string>, c: set<string>)
    requires HasWord(a) && EndsWhole(a, c)
    requires Scan(unit + b, true, c) == (unit + Scan(b, true, c).0, Scan(b, true, c).1)
    ensures Scan(a + unit + b, false, c) ==
            (Scan(a, false, c).0 + (unit + Scan(b, true, c).0), Scan(a, false, c).1 + Scan(b, true, c).1)
  {
    ScanAppend(a, unit + b, false, c);
    assert a + unit + b == a + (unit + b);
  }

  lemma Assembled(argv: seq<string>, group: Command, x: (seq<string>, seq<string>), y: (seq<string>, seq<string>),
                  unit: seq<string>)
    requires Scan(HeadOf(argv), false, Conflicts(group, HeadOf(argv))) == (x.0 + (unit + y.0), x.1 + y.1)
    ensures Hoisted(argv, group) == x.0 + unit + y.0 + x.1 + y.1 + TailOf(argv)
  {
    hide Scan;
    assert (x.0 + (unit + y.0)) + (x.1 + y.1) + TailOf(argv) == x.0 + unit + y.0 + x.1 + y.1 + TailOf(argv);
  }

  lemma FlagIsTaken(more: seq<string>, c: set<string>)
    requires "--version" !in c
    ensures Scan(["--version"] + more, true, c) == (["--version"] + Scan(more, true, c).0, Scan(more, true, c).1)
  {
    VersionIsFlag(c);
    hide Hoistable, StandsAlone, IsOption;
    assert (["--version"] + more)[1..] == more && (["--version"] + more)[0] == "--version";
  }

  lemma VersionIsFlag(c: set<string>)
    requires "--version" !in c
    ensures IsOption("--version") && Hoistable("--version", c) && StandsAlone("--version")
  {
    PlainName("--version");
  }

  lemma EmptyIsTaken(opt: string, next: string, more: seq<string>, c: set<string>)
    requires opt in {"--profile", "-p", "--url", "--bu", "--output", "-o"} && opt !in c
    ensures Scan([opt + "=", next] + more, true, c) ==
            ([opt + "=", next] + Scan(more, true, c).0, Scan(more, true, c).1)
  {
    var t := opt + "=";
    var all := [t, next] + more;
    EmptyValue(opt);
    assert Hoistable(t, c) && !StandsAlone(t);
    hide Hoistable, StandsAlone, IsOption;
    assert all[2..] == more && all[0] == t && all[1] == next;
  }

  lemma EmptyValue(opt: string)
    requires opt in {"--profile", "-p", "--url", "--bu", "--output", "-o"}
    ensures IsOption(opt + "=") && Name(opt + "=") == opt && Attached(opt + "=") == "" && HasEquals(opt + "=")
    ensures opt + "=" != "--"
  {
    OptIsSpelled(opt);
    NameEndsAtEquals(opt, "");
    assert opt + "=" + "" == opt + "=";
    assert (opt + "=")[|opt|] == '=' && (opt + "=")[0] == opt[0];
  }

  /**
   * An empty value changes the meaning: `whoami --url= x` has `x` for an argument, but the shim takes it
   * along to the front, where it stands before the command.
   */
  lemma EmptyValueMovesWord(word: string, opt: string, x: string, leaf: Command, group: Command)
    requires opt in {"--profile", "-p", "--url", "--bu", "--output", "-o"} && opt !in DeclaredBy(leaf.params)
    requires leaf.commands == map[] && word in group.commands && group.commands[word] == leaf
    requires !IsOption(word) && !IsOption(x) && x !in group.commands
    ensures var argv := [word, opt + "=", x];
            Hoisted(argv, group) == [opt + "=", x, word] &&
            ReadInFront(Hoisted(argv, group), group) != ReadAnywhere(argv, group)
  {
    var t := opt + "=";
    var argv, out := [word, t, x], [t, x, word];
    EmptyValue(opt);
    EmptyIsHoisted(word, opt, x, leaf, group);
    HeadLengthOf(out, []);
    assert out + [] == out && out[1..] == [x, word];
    assert IsGlobal(t) && IsWhole(t) && Early([x, word]) == (map[], [], [x, word]);
    assert Early(out).2 == [x, word];
    assert Words(group, [x, word]) == ([], [x, word]);
    HeadLengthOf(argv, []);
    assert argv + [] == argv && Early(argv).2 == argv;
    var left := Late(argv, TrueConflicts(group, argv)).1;
    assert left == [word] + Late(argv[1..], TrueConflicts(group, argv)).1;
    assert left[0] == word;
  }

  lemma EmptyIsHoisted(word: string, opt: string, x: string, leaf: Command, group: Command)
    requires opt in {"--profile", "-p", "--url", "--bu", "--output", "-o"} && opt !in DeclaredBy(leaf.params)
    requires leaf.commands == map[] && word in group.commands && group.commands[word] == leaf && !IsOption(word)
    requires !IsOption(x)
    ensures Hoisted([word, opt + "=", x], group) == [opt + "=", x, word]
  {
    var t := opt + "=";
    var argv := [word, t, x];
    EmptyValue(opt);
    HeadLengthOf(argv, []);
    assert argv + [] == argv && argv[1..] == [t, x];
    LeafStays(leaf, argv[1..]);
    var c := Conflicts(group, argv);
    assert c == DeclaredBy(leaf.params);
    EmptyIsTaken(opt, x, [], c);
    assert [t, x] + [] == [t, x];
    assert Scan([], true, c) == ([], []) && Scan([t, x], true, c) == ([t, x], []);
    assert argv[0] == word && [word] + [] == [word];
    assert Scan(argv, false, c) == ([t, x], [word]);
    assert [t, x] + [word] + [] == [t, x, word];
  }

  /** And it is bound to its value under its long name, unless the same option stands in front or follows. */
  lemma OptionIsBound(argv: seq<string>, group: Command, x: seq<string>, unit: seq<string>, opt: string, value: string,
                      y: seq<string>)
    requires PlainValues(HeadOf(argv)) && NoEmptyValues(HeadOf(argv)) && Spells(unit, opt, value)
    requires Early(HeadOf(argv)).2 == x + unit + y
    requires var c := Conflicts(group, HeadOf(argv));
             && EndsWhole(x, c) && opt !in c
             && LongName(opt) !in Early(HeadOf(argv)).0 && LongName(opt) !in Late(y, c).0
    ensures var globals := ReadInFront(Hoisted(argv, group), group).globals;
            LongName(opt) in globals && globals[LongName(opt)] == value
  {
    var c := Conflicts(group, HeadOf(argv));
    RestIsPart(HeadOf(argv));
    assert x + unit + y == x + (unit + y);
    assert NoEmptyValues(x) by {
      assert forall t | t in x :: t in x + unit + y;
    }
    LateAppend(x, unit + y, c);
    UnitIsTaken(unit, opt, value, y, c);
    var front, behind := OutputReading(argv, group);
  }

  /** A binding only the shim takes from behind the command shows in the output. */
  lemma StolenBindingShows(argv: seq<string>, group: Command, key: string)
    requires PlainValues(HeadOf(argv)) && NoEmptyValues(HeadOf(argv))
    requires var rest := Early(HeadOf(argv)).2;
             && key in Late(rest, Conflicts(group, HeadOf(argv))).0
             && key !in Early(HeadOf(argv)).0 && key !in Late(rest, TrueConflicts(group, rest)).0
    ensures ReadInFront(Hoisted(argv, group), group) != ReadAnywhere(argv, group)
  {
    var a, b := OutputReading(argv, group);
    assert key in ReadInFront(Hoisted(argv, group), group).globals;
  }

  /**
   * Any separate value in front that names no command hides the command, whose own option is then
   * taken. If that is the option in front over again, it must not stand there twice.
   */
  lemma LeadingValueHidesCommand(opt: string, value: string, rest: seq<string>, tail: seq<string>, group: Command,
                                 key: string)
    requires opt in VALUE_OPTS && !IsOption(value) && value !in group.commands
    requires rest != [] && !IsOption(rest[0]) && "--" !in rest && NoEmptyValues(rest)
    requires tail != [] ==> tail[0] == "--"
    requires key in Late(rest, {}).0 && key !in Late(rest, TrueConflicts(group, rest)).0
    requires key == Key(opt) ==> NamedOnce(rest)
    ensures var argv := [opt, value] + rest + tail;
            ReadInFront(Hoisted(argv, group), group) != ReadAnywhere(argv, group)
  {
    var head := [opt, value] + rest;
    var argv := head + tail;
    PlainOpt(opt);
    HeadLengthOf(head, tail);
    assert head[2..] == rest && head[1..][0] == value;
    assert PlainValues(rest) && PlainValues(head) && Early(rest) == (map[], [], rest);
    assert Early(head) == (map[Key(opt) := value] + map[], [], rest);
    assert !Descends(group, head[1..]) && !Descends(group, head);
    assert NoEmptyValues(head);
    if key != Key(opt) {
      StolenBindingShows(argv, group, key);
    } else {
      assert EarlyKeys(rest) == [] && EarlyKeys(head) == [Key(opt)];
      assert NothingTwice(argv, group);
      if SameOwner(rest, {}, TrueConflicts(group, rest)) {
        SameOwnerReads(rest, {}, TrueConflicts(group, rest));
      }
      HoistingPreservesMeaningExactly(argv, group);
    }
  }

  lemma PlainOpt(opt: string)
    requires opt in VALUE_OPTS
    ensures IsOption(opt) && Name(opt) == opt && !IsWhole(opt) && IsGlobal(opt) && opt != "--"
  {
    OptIsSpelled(opt);
    PlainName(opt);
  }

  lemma OptIsSpelled(opt: string)
    requires opt in VALUE_OPTS
    ensures IsOption(opt) && '=' !in opt && opt != "--" && opt !in FLAG_OPTS
  {
    if |opt| == 2 {
      assert opt == "-p" || opt == "-o";
    } else {
      assert opt[2] != 'v';
    }
  }

  /** The condition is needed: `-o json` before `profile add` hides the command, which loses its own `--url`. */
  lemma LeadingValueStealsOption()
    ensures var add := Command([Param(["--url"], [])], map[]);
            var group := Command([], map["profile" := Command([], map["add" := add])]);
            var argv := ["-o", "json"] + ["profile", "add", "--url", "x"];
            ReadInFront(Hoisted(argv, group), group) != ReadAnywhere(argv, group)
  {
    var add := Command([Param(["--url"], [])], map[]);
    var profile := Command([], map["add" := add]);
    var group := Command([], map["profile" := profile]);
    var rest := ["profile", "add", "--url", "x"];
    UrlIsTaken(rest);
    UrlIsOwn(add, profile, group, rest);
    PlainName("--url");
    LeadingValueHidesCommand("-o", "json", rest, [], group, "--url");
    assert ["-o", "json"] + rest + [] == ["-o", "json"] + rest;
  }

  lemma UrlIsTaken(rest: seq<string>)
    requires rest == ["profile", "add", "--url", "x"]
    ensures "--url" in Late(rest, {}).0
  {
    PlainName("--url");
    assert rest[1..][1..] == ["--url", "x"];
    assert "--url" in Late(["--url", "x"], {}).0;
    assert Late(rest[1..], {}).0 == Late(["--url", "x"], {}).0;
  }

  lemma UrlIsOwn(add: Command, profile: Command, group: Command, rest: seq<string>)
    requires add == Command([Param(["--url"], [])], map[]) && profile == Command([], map["add" := add])
    requires group == Command([], map["profile" := profile])
    requires rest == ["profile", "add", "--url", "x"]
    ensures "--url" !in Late(rest, TrueConflicts(group, rest)).0
  {
    PlainName("--url");
    var own := ["--url", "x"];
    assert rest[1..][1..] == own;
    assert TrueTarget(group, rest) == TrueTarget(profile, rest[1..]) == TrueTarget(add, own);
    SameWalk(add, own);
    LeafStays(add, own);
    assert "--url" in add.params[0].opts;
    UrlIsKept(rest, DeclaredBy(add.params));
  }

  lemma UrlIsKept(rest: seq<string>, c: set<string>)
    requires rest == ["profile", "add", "--url", "x"] && "--url" in c
    ensures "--url" !in Late(rest, c).0
  {
    PlainName("--url");
    var own := ["--url", "x"];
    assert rest[1..][1..] == own;
    assert Late(own[1..], c).0 == map[] && Late(own, c).0 == map[];
    assert Late(rest[1..], c).0 == Late(own, c).0;
  }
}
