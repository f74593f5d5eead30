/** The script interpreter: a flat loop over commands with a stack of conditions. */
module Script {
  import opened ConfigLines
  import opened ConfigEditor
  import opened ConfigActions
  import opened Placeholders
  import opened FileOps

  datatype Comparison = Equal | NotEqual | IsSet

  datatype Condition = Condition(op: Comparison, arg1: string, arg2: string)

  datatype Command =
    | If(cond: Condition)
    | EndIf
    | Var(name: string, template: string)
    | Config(cfg: string, group: string, param: string, action: Action, value: string)
    | Network(net: string, netAction: NetAction)
    | FromTemplate(cfg: string, fill: TemplateAction)

  /** The bare form holds when its argument is empty. */
  function Eval(c: Condition, vars: Vars): bool {
    var a, b := Substitute(c.arg1, vars), Substitute(c.arg2, vars);
    match c.op
    case Equal => a == b
    case NotEqual => a != b
    case IsSet => a == ""
  }

  predicate IsBracket(cmd: Command) { cmd.If? || cmd.EndIf? }

  function Base(vars: Vars): string { if "CONFIGS_PATH" in vars then vars["CONFIGS_PATH"] else "" }

  /** A file command with its values substituted and its paths fixed. */
  function Resolve(cmd: Command, vars: Vars): FileOp
    requires !IsBracket(cmd) && !cmd.Var?
  {
    match cmd
    case Config(cfg, group, param, action, value) =>
      ConfigOp(Base(vars), cfg, Step(action, Key(group, param), Substitute(value, vars)))
    case Network(net, action) => NetworkOp(Base(vars), net, action)
    case FromTemplate(cfg, fill) => TemplateOp(Base(vars), cfg, fill, vars)
  }

  datatype World = World(vars: Vars, files: Files)

  /** One command that is not a bracket; nothing when it throws. */
  function Execute(cmd: Command, w: World, dry: bool): Option<World>
    requires !IsBracket(cmd)
  {
    if cmd.Var? then Some(w.(vars := w.vars[cmd.name := Substitute(cmd.template, w.vars)]))
    else
      match Effect(w.files, Resolve(cmd, w.vars), dry)
      case None => None
      case Some(files) => Some(w.(files := files))
  }

  /** How a run ends: after the last command, by an exception, or by closing a condition that was never opened. */
  datatype Outcome =
    | Finished(world: World, stack: seq<Condition>)
    | Aborted(files: Files)
    | Underflow(files: Files)

  function FilesOf(outcome: Outcome): Files {
    match outcome
    case Finished(world, _) => world.files
    case Aborted(files) => files
    case Underflow(files) => files
  }

  predicate Allows(stack: seq<Condition>, vars: Vars) {
    stack == [] || Eval(stack[|stack| - 1], vars)
  }

  /** `run_commands`: the innermost condition is evaluated again for every command. */
  function Run(cmds: seq<Command>, stack: seq<Condition>, w: World, dry: bool): Outcome
    decreases |cmds|
  {
    if cmds == [] then Finished(w, stack)
    else
      var cmd := cmds[0];
      if cmd.If? then Run(cmds[1..], stack + [cmd.cond], w, dry)
      else if cmd.EndIf? then
        if stack == [] then Underflow(w.files) else Run(cmds[1..], stack[..|stack| - 1], w, dry)
      else if !Allows(stack, w.vars) then Run(cmds[1..], stack, w, dry)
      else
        match Execute(cmd, w, dry)
        case None => Aborted(w.files)
        case Some(next) => Run(cmds[1..], stack, next, dry)
  }

  // ---- What runs does not depend on the files ----

  datatype End = AtEnd(stack: seq<Condition>) | AtUnderflow

  /** The file operations of a script and its final variables, computed without any file. */
  datatype Plan = Plan(ops: seq<FileOp>, vars: Vars, end: End)

  function PlanOf(cmds: seq<Command>, stack: seq<Condition>, vars: Vars): Plan
    decreases |cmds|
  {
    if cmds == [] then Plan([], vars, AtEnd(stack))
    else
      var cmd := cmds[0];
      if cmd.If? then PlanOf(cmds[1..], stack + [cmd.cond], vars)
      else if cmd.EndIf? then
        if stack == [] then Plan([], vars, AtUnderflow) else PlanOf(cmds[1..], stack[..|stack| - 1], vars)
      else if !Allows(stack, vars) then PlanOf(cmds[1..], stack, vars)
      else if cmd.Var? then PlanOf(cmds[1..], stack, vars[cmd.name := Substitute(cmd.template, vars)])
      else
        var rest := PlanOf(cmds[1..], stack, vars);
        rest.(ops := [Resolve(cmd, vars)] + rest.ops)
  }

  /** Carrying out a plan. */
  function Carry(plan: Plan, files: Files, dry: bool): Outcome {
    match Effects(files, plan.ops, dry)
    case Stopped(last) => Aborted(last)
    case Done(last) =>
      match plan.end
      case AtEnd(stack) => Finished(World(plan.vars, last), stack)
      case AtUnderflow => Underflow(last)
  }

  /** Non-interference: which commands execute, with which values, and the final variables depend only on the script
      and the initial variables; the files and the dry-run flag decide only where an exception cuts the run short. */
  lemma {:induction false} RunFollowsPlan(cmds: seq<Command>, stack: seq<Condition>, w: World, dry: bool)
    ensures Run(cmds, stack, w, dry) == Carry(PlanOf(cmds, stack, w.vars), w.files, dry)
    decreases |cmds|
  {
    hide Eval, Resolve, Effect, Substitute;
    if cmds != [] {
      var cmd := cmds[0];
      if cmd.If? {
        RunFollowsPlan(cmds[1..], stack + [cmd.cond], w, dry);
      } else if cmd.EndIf? {
        if stack != [] { RunFollowsPlan(cmds[1..], stack[..|stack| - 1], w, dry); }
      } else if !Allows(stack, w.vars) {
        RunFollowsPlan(cmds[1..], stack, w, dry);
      } else {
        var next := Execute(cmd, w, dry);
        if next.Some? { RunFollowsPlan(cmds[1..], stack, next.value, dry); }
        if !cmd.Var? {
          var rest := PlanOf(cmds[1..], stack, w.vars);
          assert ([Resolve(cmd, w.vars)] + rest.ops)[1..] == rest.ops;
        }
      }
    }
  }

  /** A dry run leaves every file as it is. */
  lemma {:induction false} DryRun(cmds: seq<Command>, stack: seq<Condition>, w: World)
    ensures FilesOf(Run(cmds, stack, w, true)) == w.files
  {
    RunFollowsPlan(cmds, stack, w, true);
    DryRunChangesNothing(w.files, PlanOf(cmds, stack, w.vars).ops);
  }

  // ---- Brackets ----

  /** No prefix of the script closes more conditions than `depth` plus those it opens. */
  predicate Nested(cmds: seq<Command>, depth: nat) {
    cmds != [] ==>
      match cmds[0]
      case If(_) => Nested(cmds[1..], depth + 1)
      case EndIf => depth > 0 && Nested(cmds[1..], depth - 1)
      case _ => Nested(cmds[1..], depth)
  }

  lemma {:induction false} PlanUnderflows(cmds: seq<Command>, stack: seq<Condition>, vars: Vars)
    ensures PlanOf(cmds, stack, vars).end.AtUnderflow? <==> !Nested(cmds, |stack|)
    decreases |cmds|
  {
    hide Eval, Resolve, Substitute;
    if cmds != [] {
      var cmd := cmds[0];
      if cmd.If? {
        PlanUnderflows(cmds[1..], stack + [cmd.cond], vars);
      } else if cmd.EndIf? {
        if stack != [] { PlanUnderflows(cmds[1..], stack[..|stack| - 1], vars); }
      } else {
        PlanUnderflows(cmds[1..], stack, vars);
        if cmd.Var? { PlanUnderflows(cmds[1..], stack, vars[cmd.name := Substitute(cmd.template, vars)]); }
      }
    }
  }

  /** A run pops an empty stack exactly when the script is not nested and no operation before that point throws. */
  lemma UnderflowIffNotNested(cmds: seq<Command>, stack: seq<Condition>, w: World, dry: bool)
    ensures Run(cmds, stack, w, dry).Underflow? <==>
            !Nested(cmds, |stack|) && Effects(w.files, PlanOf(cmds, stack, w.vars).ops, dry).Done?
  {
    hide Run, PlanOf, Effects, Nested;
    PlanUnderflows(cmds, stack, w.vars);
    RunFollowsPlan(cmds, stack, w, dry);
  }

  /** A script as a tree of guarded blocks. */
  datatype Blocks =
    | Nil
    | Do(cmd: Command, next: Blocks)
    | Guard(cond: Condition, body: Blocks, next: Blocks)

  predicate ProperBlocks(bs: Blocks) {
    match bs
    case Nil => true
    case Do(cmd, next) => !IsBracket(cmd) && ProperBlocks(next)
    case Guard(_, body, next) => ProperBlocks(body) && ProperBlocks(next)
  }

  function Flatten(bs: Blocks): seq<Command> {
    match bs
    case Nil => []
    case Do(cmd, next) => [cmd] + Flatten(next)
    case Guard(cond, body, next) => [If(cond)] + Flatten(body) + [EndIf] + Flatten(next)
  }

  /** Well bracketed: nested, and everything opened is closed. */
  predicate Balanced(cmds: seq<Command>, depth: nat) {
    if cmds == [] then depth == 0
    else
      match cmds[0]
      case If(_) => Balanced(cmds[1..], depth + 1)
      case EndIf => depth > 0 && Balanced(cmds[1..], depth - 1)
      case _ => Balanced(cmds[1..], depth)
  }

  lemma GuardFlattens(cmds: seq<Command>, body: Blocks, next: Blocks, rest: seq<Command>)
    requires cmds != [] && cmds[0].If? && cmds[1..] == Flatten(body) + ([EndIf] + (Flatten(next) + rest))
    ensures cmds == Flatten(Guard(cmds[0].cond, body, next)) + rest
  {
    assert cmds == [cmds[0]] + cmds[1..];
  }

  lemma {:induction false} BlocksOf(cmds: seq<Command>, depth: nat) returns (bs: Blocks, rest: seq<Command>)
    requires Balanced(cmds, depth)
    ensures ProperBlocks(bs) && cmds == Flatten(bs) + rest
    ensures if depth == 0 then rest == [] else rest != [] && rest[0] == EndIf && Balanced(rest[1..], depth - 1)
    decreases |cmds|
  {
    if cmds == [] || cmds[0].EndIf? {
      bs, rest := Nil, cmds;
    } else if cmds[0].If? {
      var body, afterBody := BlocksOf(cmds[1..], depth + 1);
      var next, afterNext := BlocksOf(afterBody[1..], depth);
      bs, rest := Guard(cmds[0].cond, body, next), afterNext;
      assert afterBody == [EndIf] + afterBody[1..];
      GuardFlattens(cmds, body, next, rest);
    } else {
      var next, afterNext := BlocksOf(cmds[1..], depth);
      bs, rest := Do(cmds[0], next), afterNext;
      assert cmds == [cmds[0]] + (Flatten(next) + rest);
    }
  }

  /** How a walk ends: with a world, or by an exception that leaves the files as they then are. */
  datatype Stride = Went(world: World) | Threw(files: Files)

  /** The recursive walk: every command is guarded by its innermost condition, evaluated at that command. */
  function Walk(bs: Blocks, guard: Option<Condition>, w: World, dry: bool): Stride
    requires ProperBlocks(bs)
  {
    match bs
    case Nil => Went(w)
    case Do(cmd, next) =>
      if guard.Some? && !Eval(guard.value, w.vars) then Walk(next, guard, w, dry)
      else
        var after := Execute(cmd, w, dry);
        if after.None? then Threw(w.files) else Walk(next, guard, after.value, dry)
    case Guard(cond, body, next) =>
      var after := Walk(body, Some(cond), w, dry);
      if after.Threw? then after else Walk(next, guard, after.world, dry)
  }

  function Top(stack: seq<Condition>): Option<Condition> {
    if stack == [] then None else Some(stack[|stack| - 1])
  }

  lemma {:induction false} StackRunIsWalk(bs: Blocks, rest: seq<Command>, stack: seq<Condition>, w: World, dry: bool)
    requires ProperBlocks(bs)
    ensures Run(Flatten(bs) + rest, stack, w, dry) ==
            match Walk(bs, Top(stack), w, dry)
            case Went(after) => Run(rest, stack, after, dry)
            case Threw(files) => Aborted(files)
    decreases bs
  {
    hide Eval, Execute;
    var cmds := Flatten(bs) + rest;
    match bs
    case Nil => assert cmds == rest;
    case Do(cmd, next) =>
      assert cmds[1..] == Flatten(next) + rest;
      if !Allows(stack, w.vars) {
        StackRunIsWalk(next, rest, stack, w, dry);
      } else {
        var after := Execute(cmd, w, dry);
        if after.Some? { StackRunIsWalk(next, rest, stack, after.value, dry); }
      }
    case Guard(cond, body, next) =>
      var inner := stack + [cond];
      var tail := [EndIf] + (Flatten(next) + rest);
      assert cmds == [If(cond)] + (Flatten(body) + tail);
      assert cmds[1..] == Flatten(body) + tail && tail[1..] == Flatten(next) + rest;
      assert inner[..|inner| - 1] == stack && Top(inner) == Some(cond);
      StackRunIsWalk(body, tail, inner, w, dry);
      var after := Walk(body, Some(cond), w, dry);
      if after.Went? { StackRunIsWalk(next, rest, stack, after.world, dry); }
  }

  /** Every well-bracketed script never pops an empty stack, ends with it empty, and runs as its block tree. */
  lemma BalancedScriptRunsAsTree(cmds: seq<Command>, w: World, dry: bool) returns (bs: Blocks)
    requires Balanced(cmds, 0)
    ensures ProperBlocks(bs) && Flatten(bs) == cmds
    ensures Run(cmds, [], w, dry) ==
            match Walk(bs, None, w, dry)
            case Went(after) => Finished(after, [])
            case Threw(files) => Aborted(files)
  {
    var rest;
    bs, rest := BlocksOf(cmds, 0);
    assert Flatten(bs) + [] == cmds;
    StackRunIsWalk(bs, [], [], w, dry);
  }

  // ---- When a guard is an ordinary condition ----

  predicate Unnested(bs: Blocks) {
    match bs
    case Nil => true
    case Do(_, next) => Unnested(next)
    case Guard(_, _, _) => false
  }

  /** The references of a condition, when each `$` in it opens one. */
  predicate WellPlacedCondition(c: Condition) { WellPlaced(c.arg1) && WellPlaced(c.arg2) }

  function ConditionMentions(c: Condition): set<string>
    requires WellPlacedCondition(c)
  {
    Mentions(Pieces(c.arg1)) + Mentions(Pieces(c.arg2))
  }

  /** Assignments that keep the stored values free of `$` and stay away from the given names. */
  predicate TameAssignments(bs: Blocks, vars: Vars, avoided: set<string>)
    requires Unnested(bs)
  {
    match bs
    case Nil => true
    case Do(cmd, next) =>
      if !cmd.Var? then TameAssignments(next, vars, avoided)
      else
        && cmd.name !in avoided && '}' !in cmd.name
        && WellPlaced(cmd.template) && Mentions(Pieces(cmd.template)) <= vars.Keys
        && TameAssignments(next, vars[cmd.name := Substitute(cmd.template, vars)], avoided)
  }

  lemma EvalUnaffected(c: Condition, vars: Vars, name: string, value: string)
    requires WellPlacedCondition(c) && name !in ConditionMentions(c)
    requires PlainStore(vars) && PlainStore(vars[name := value])
    ensures Eval(c, vars[name := value]) == Eval(c, vars)
  {
    hide Substitute, PlainStore, PlainFor, WellPlaced, Mentions, Pieces;
    var vars' := vars[name := value];
    assert name !in Mentions(Pieces(c.arg1)) && name !in Mentions(Pieces(c.arg2));
    PlainStoreFor(vars, Mentions(Pieces(c.arg1)));
    PlainStoreFor(vars', Mentions(Pieces(c.arg1)));
    PlainStoreFor(vars, Mentions(Pieces(c.arg2)));
    PlainStoreFor(vars', Mentions(Pieces(c.arg2)));
    SubstituteDependsOnMentioned(c.arg1, vars, vars');
    SubstituteDependsOnMentioned(c.arg2, vars, vars');
  }

  lemma {:induction false} SteadyGuard(bs: Blocks, c: Condition, w: World, dry: bool)
    requires ProperBlocks(bs) && Unnested(bs) && WellPlacedCondition(c) && PlainStore(w.vars)
    requires TameAssignments(bs, w.vars, ConditionMentions(c))
    ensures Walk(bs, Some(c), w, dry) == if Eval(c, w.vars) then Walk(bs, None, w, dry) else Went(w)
    decreases bs
  {
    hide Eval, Effect, Resolve, Substitute, PlainStore, WellPlaced;
    match bs
    case Nil =>
    case Do(cmd, next) =>
      if !Eval(c, w.vars) {
        SkippedGuard(bs, c, w, dry);
      } else {
        var after := Execute(cmd, w, dry);
        if cmd.Var? {
          AssignmentKeepsStorePlain(w.vars, cmd.name, cmd.template);
          EvalUnaffected(c, w.vars, cmd.name, Substitute(cmd.template, w.vars));
        }
        if after.Some? { SteadyGuard(next, c, after.value, dry); }
      }
  }

  lemma {:induction false} SkippedGuard(bs: Blocks, c: Condition, w: World, dry: bool)
    requires ProperBlocks(bs) && Unnested(bs) && !Eval(c, w.vars)
    ensures Walk(bs, Some(c), w, dry) == Went(w)
    decreases bs
  {
    hide Eval, Execute;
    if bs.Do? { SkippedGuard(bs.next, c, w, dry); }
  }

  /** An unnested block that does not assign what its own condition mentions is the ordinary `if`. */
  lemma GuardIsOrdinaryIf(c: Condition, body: Blocks, w: World, dry: bool)
    requires ProperBlocks(body) && Unnested(body) && WellPlacedCondition(c) && PlainStore(w.vars)
    requires TameAssignments(body, w.vars, ConditionMentions(c))
    ensures Run([If(c)] + Flatten(body) + [EndIf], [], w, dry) ==
            if Eval(c, w.vars) then Run(Flatten(body), [], w, dry) else Finished(w, [])
  {
    hide Eval, PlainStore, WellPlaced, Execute, Run;
    var block := Guard(c, body, Nil);
    assert Flatten(block) + [] == [If(c)] + Flatten(body) + [EndIf];
    assert Flatten(body) + [] == Flatten(body);
    StackRunIsWalk(block, [], [], w, dry);
    StackRunIsWalk(body, [], [], w, dry);
    SteadyGuard(body, c, w, dry);
    NothingLeft(w, dry);
    assert Walk(block, None, w, dry) == Walk(body, Some(c), w, dry) by { assert block.next == Nil; }
  }

  lemma NothingLeft(w: World, dry: bool)
    ensures Run([], [], w, dry) == Finished(w, [])
  {
  }

  /** Only the innermost condition counts: an outer one changes nothing about a block that is alone in it. */
  lemma OuterConditionIsIgnored(outer: Condition, inner: Condition, body: Blocks, w: World, dry: bool)
    requires ProperBlocks(body)
    ensures Run([If(outer)] + ([If(inner)] + Flatten(body) + [EndIf]) + [EndIf], [], w, dry) ==
            Run([If(inner)] + Flatten(body) + [EndIf], [], w, dry)
  {
    hide Eval, Execute, Run;
    var block := Guard(inner, body, Nil);
    var nested := Guard(outer, block, Nil);
    assert Flatten(block) + [] == [If(inner)] + Flatten(body) + [EndIf];
    assert Flatten(nested) + [] == [If(outer)] + ([If(inner)] + Flatten(body) + [EndIf]) + [EndIf];
    StackRunIsWalk(block, [], [], w, dry);
    StackRunIsWalk(nested, [], [], w, dry);
    assert Walk(nested, None, w, dry) == Walk(block, Some(outer), w, dry) == Walk(block, None, w, dry);
  }

  /** What a condition compares: its sides with every defined reference replaced. */
  lemma ConditionMeaning(c: Condition, vars: Vars)
    requires WellPlacedCondition(c) && PlainFor(vars, ConditionMentions(c))
    ensures c.op == Equal ==> (Eval(c, vars) <==> Simultaneous(c.arg1, vars) == Simultaneous(c.arg2, vars))
    ensures c.op == NotEqual ==> (Eval(c, vars) <==> Simultaneous(c.arg1, vars) != Simultaneous(c.arg2, vars))
    ensures c.op == IsSet ==> (Eval(c, vars) <==> Simultaneous(c.arg1, vars) == "")
  {
    hide WellPlaced, PlainFor, Simultaneous, Substitute, Mentions;
    PlainForFewer(vars, ConditionMentions(c), Mentions(Pieces(c.arg1)));
    PlainForFewer(vars, ConditionMentions(c), Mentions(Pieces(c.arg2)));
    PassesAreSimultaneous(c.arg1, vars, MapOrder(vars.Keys));
    PassesAreSimultaneous(c.arg2, vars, MapOrder(vars.Keys));
  }

  /** The bare `if ${NAME}` is no test for a variable being set: it holds exactly when the variable is stored empty. */
  lemma BareConditionHoldsIff(name: string, vars: Vars)
    requires PlainFor(vars, {name}) && '$' !in name && '}' !in name
    ensures Eval(Condition(IsSet, Pattern(name), ""), vars) <==> name in vars && vars[name] == ""
  {
    hide Substitute;
    SubstituteReference(name, vars);
    assert Pattern(name) != "";
  }

  // ---- Where a script acts ----

  predicate ActsIn(ops: seq<FileOp>, base: string) { forall i :: 0 <= i < |ops| ==> ops[i].base == base }

  /** A script that never assigns `CONFIGS_PATH` acts in one directory: the one that is set when it starts. */
  lemma {:induction false} PlanStaysInDirectory(cmds: seq<Command>, stack: seq<Condition>, vars: Vars)
    requires forall i :: 0 <= i < |cmds| && cmds[i].Var? ==> cmds[i].name != "CONFIGS_PATH"
    ensures ActsIn(PlanOf(cmds, stack, vars).ops, Base(vars))
    decreases |cmds|
  {
    hide Eval, Substitute;
    if cmds != [] {
      var cmd := cmds[0];
      if cmd.If? {
        PlanStaysInDirectory(cmds[1..], stack + [cmd.cond], vars);
      } else if cmd.EndIf? {
        if stack != [] { PlanStaysInDirectory(cmds[1..], stack[..|stack| - 1], vars); }
      } else if cmd.Var? && Allows(stack, vars) {
        PlanStaysInDirectory(cmds[1..], stack, vars[cmd.name := Substitute(cmd.template, vars)]);
      } else {
        PlanStaysInDirectory(cmds[1..], stack, vars);
      }
    }
  }
}
