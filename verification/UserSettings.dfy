/** "It will not alter any user settings if they exist": setup scripts of `default` actions, and of `config ... ensure`
    for the keys that are not the user's to decide, over whole runs. */
module UserSettings {
  import opened ConfigLines
  import opened ConfigEditor
  import opened ConfigStore
  import opened ConfigActions
  import opened FileOps
  import opened Networks
  import opened Placeholders
  import opened Script

  /** An operation of a setup script: any `config` command, `network` and `fromtemplate` with `default` only; templates
      are used for the node's own file only. */
  predicate SetupOp(op: FileOp) {
    match op
    case ConfigOp(_, name, step) => PrintableStep(step) && (name == NODE || NetworkName(name))
    case NetworkOp(_, name, action) => !action.NetEnsure? && (name == NODE || NetworkName(name))
    case TemplateOp(_, name, fill, _) => fill == FromDefault && name == NODE
  }

  predicate SetupOps(ops: seq<FileOp>) { forall i :: 0 <= i < |ops| ==> SetupOp(ops[i]) }

  /** The operation insists on a value for the key. */
  predicate Forces(op: FileOp, k: Key) { op.ConfigOp? && op.step.action == Ensure && op.step.key == k }

  ghost function Forced(ops: seq<FileOp>): Key -> bool {
    k => exists i :: 0 <= i < |ops| && Forces(ops[i], k)
  }

  // ---- What a setup run can do to the files ----

  /** Nothing is lost: settings stay, settled ones that are not forced with their value, and failing lookups keep
      failing. */
  ghost predicate KeptText(before: string, after: string, forced: Key -> bool) {
    forall k ::
      && (Ask(before, k).Is? ==> Ask(after, k).Is?)
      && (!forced(k) && Settled(Ask(before, k)) ==> Ask(after, k) == Ask(before, k))
      && (Ask(before, k).Fails? <==> Ask(after, k).Fails?)
  }

  ghost predicate Kept(before: Files, after: Files, forced: Key -> bool) {
    forall path :: path in before ==> path in after && KeptText(before[path], after[path], forced)
  }

  lemma StepKeeps(text: string, s: Step, forced: Key -> bool)
    requires PrintableStep(s) && (s.action == Ensure ==> forced(s.key)) && Apply(text, s).Some?
    ensures KeptText(text, Apply(text, s).value, forced)
    ensures s.action != Get ==> Ask(Apply(text, s).value, s.key).Is?
  {
    hide Ask, SetText, Printable, IsPlaceholder;
    if s.action != Get { SetTextActsAsMapUpdate(text, s.key, s.value); }
  }

  lemma KeptTextReflexive(text: string, forced: Key -> bool)
    ensures KeptText(text, text, forced)
  {
  }

  lemma KeptTextTransitive(a: string, b: string, c: string, forced: Key -> bool)
    requires KeptText(a, b, forced) && KeptText(b, c, forced)
    ensures KeptText(a, c, forced)
  {
    hide Ask, IsPlaceholder;
  }

  lemma KeptReflexive(files: Files, forced: Key -> bool)
    ensures Kept(files, files, forced)
  {
  }

  lemma KeptTransitive(a: Files, b: Files, c: Files, forced: Key -> bool)
    requires Kept(a, b, forced) && Kept(b, c, forced)
    ensures Kept(a, c, forced)
  {
    hide KeptText;
    forall path | path in a ensures path in c && KeptText(a[path], c[path], forced) {
      KeptTextTransitive(a[path], b[path], c[path], forced);
    }
  }

  lemma OpKeeps(files: Files, op: FileOp, forced: Key -> bool)
    requires SetupOp(op) && (forall k :: Forces(op, k) ==> forced(k)) && Effect(files, op, false).Some?
    ensures Kept(files, Effect(files, op, false).value, forced)
  {
    hide ConfigPath, Apply, Ask, Populate, KeptText, PrintableStep;
    forall text { KeptTextReflexive(text, forced); }
    if op.ConfigOp? {
      var path := ConfigTarget(files, op.base, op.name);
      assert op.step.action == Ensure ==> Forces(op, op.step.key);
      StepKeeps(files[path], op.step, forced);
    }
  }

  lemma {:induction false} OpsKeep(files: Files, ops: seq<FileOp>, forced: Key -> bool)
    requires SetupOps(ops) && forall i, k :: 0 <= i < |ops| && Forces(ops[i], k) ==> forced(k)
    ensures Kept(files, Effects(files, ops, false).files, forced)
    decreases |ops|
  {
    hide Kept, Effect, SetupOp, Forces;
    KeptReflexive(files, forced);
    if ops != [] && Effect(files, ops[0], false).Some? {
      var next := Effect(files, ops[0], false).value;
      OpKeeps(files, ops[0], forced);
      OpsKeep(next, ops[1..], forced);
      KeptTransitive(files, next, Effects(next, ops[1..], false).files, forced);
    }
  }

  // ---- A second run ----

  /** The files and the settings that are there stay there, whatever their values. */
  ghost predicate Standing(before: Files, after: Files) { Kept(before, after, AnyKey) }

  predicate AnyKey(k: Key) { true }

  /** Both runs go through the same files: nothing gained, nothing lost. */
  lemma StaysLevel(files: Files, op: FileOp, rest: seq<FileOp>, last: Files)
    requires SetupOp(op) && SetupOps(rest)
    requires Effect(files, op, false).Some? && Effects(Effect(files, op, false).value, rest, false) == Done(last)
    requires Standing(last, files)
    ensures var next := Effect(files, op, false).value;
      Standing(last, next) && Standing(next, files) && files.Keys == next.Keys == last.Keys
  {
    hide Effect, Effects, SetupOp, KeptText, Forces;
    var next := Effect(files, op, false).value;
    OpKeeps(files, op, AnyKey);
    OpsKeep(next, rest, AnyKey);
    KeptTransitive(last, files, next, AnyKey);
    KeptTransitive(next, last, files, AnyKey);
  }

  /** The path is not one of the operation's, or the operation's network has no file at all. */
  predicate Vacant(op: FileOp, files: Files, path: string) {
    Elsewhere(op, path) || (ConfigPath(op.base, op.name, On) !in files && ConfigPath(op.base, op.name, Off) !in files)
  }

  /** The operation has nothing to do with the file. */
  predicate Elsewhere(op: FileOp, path: string) {
    path != ConfigPath(op.base, op.name, On) && path != ConfigPath(op.base, op.name, Off)
  }

  /** An operation that creates nothing does not notice a file that appears where it found none. */
  lemma OpIgnoresNewFile(files: Files, op: FileOp, path: string, text: string)
    requires SetupOp(op) && Vacant(op, files, path) && path !in files
    requires Effect(files, op, false).Some? && Effect(files, op, false).value.Keys == files.Keys
    ensures Effect(files[path := text], op, false) == Some(Effect(files, op, false).value[path := text])
  {
    hide ConfigPath, Apply, PrintableStep, Populate;
    var next := Effect(files, op, false).value;
    var on, off := ConfigPath(op.base, op.name, On), ConfigPath(op.base, op.name, Off);
    match op
    case ConfigOp(base, name, step) =>
      var target := ConfigTarget(files, base, name);
      assert target != path && target == ConfigTarget(files[path := text], base, name);
      assert next[path := text] == files[path := text][target := next[target]];
    case NetworkOp(_, _, action) =>
      assert action.NetDefault? ==> on in files || off in files by {
        assert on in next.Keys ==> on in files;
        assert off in next.Keys ==> off in files;
      }
    case TemplateOp(_, _, _, _) =>
      assert on in next.Keys ==> on in files;
  }

  lemma {:induction false} RunIgnoresNewFile(files: Files, ops: seq<FileOp>, last: Files, path: string, text: string)
    requires SetupOps(ops) && Effects(files, ops, false) == Done(last) && Standing(last, files)
    requires path !in last && forall i :: 0 <= i < |ops| ==> Vacant(ops[i], last, path)
    ensures Effects(files[path := text], ops, false) == Done(last[path := text])
    decreases |ops|
  {
    hide Effect, SetupOp, Standing, Vacant;
    if ops != [] {
      var next := Effect(files, ops[0], false).value;
      StaysLevel(files, ops[0], ops[1..], last);
      VacantByKeys(ops[0], files, last, path);
      OpIgnoresNewFile(files, ops[0], path, text);
      RunIgnoresNewFile(next, ops[1..], last, path, text);
    }
  }

  lemma VacantByKeys(op: FileOp, files: Files, last: Files, path: string)
    requires files.Keys == last.Keys
    ensures Vacant(op, files, path) <==> Vacant(op, last, path)
  {
  }

  /** The file that an operation creates was vacant for every operation. */
  lemma CreatedWasVacant(files: Files, op: FileOp, path: string, other: FileOp)
    requires SetupOp(op) && SetupOp(other) && Effect(files, op, false).Some?
    requires path !in files && path in Effect(files, op, false).value
    ensures Vacant(other, files, path)
    ensures Effect(files, op, false).value == files[path := Effect(files, op, false).value[path]]
  {
    PathOfCreation(files, op, path);
    hide Effect, SetupOp, ConfigPath;
    if NetworkName(op.name) { PathsApart(op.base, op.name, other.base, other.name); }
    if NetworkName(other.name) { PathsApart(other.base, other.name, op.base, op.name); }
  }

  lemma PathOfCreation(files: Files, op: FileOp, path: string)
    requires SetupOp(op) && Effect(files, op, false).Some?
    requires path !in files && path in Effect(files, op, false).value
    ensures op.name == NODE || NetworkName(op.name)
    ensures !Elsewhere(op, path) && Vacant(op, files, path)
    ensures Effect(files, op, false).value == files[path := Effect(files, op, false).value[path]]
  {
    hide Apply, Populate, PrintableStep;
  }

  /** The two texts differ at most at the key of the step: the write of the step makes them equal. For a `default` step
      they are equal already, or the key is unsettled in both, or the second text has had the write and stands by it. */
  ghost predicate Alike(x: string, y: string, s: Step) {
    && SetText(x, s.key, s.value).Some? && SetText(y, s.key, s.value) == SetText(x, s.key, s.value)
    && (s.action == Default ==>
         x == y ||
         if IsPlaceholder(s.value) then !Settled(Ask(x, s.key)) && !Settled(Ask(y, s.key))
         else SetText(y, s.key, s.value) == Some(y))
  }

  lemma AlikeElsewhere(x: string, y: string, s: Step, l: Key)
    requires Printable(s.key, s.value) && Alike(x, y, s)
    ensures l != s.key ==> Ask(y, l) == Ask(x, l)
    ensures !Ask(x, s.key).Fails? && !Ask(y, s.key).Fails?
    ensures SetText(y, s.key, s.value) == Some(y) ==> Ask(y, s.key) == Is(s.value)
  {
    hide Ask, SetText, Printable, IsPlaceholder;
    SetTextActsAsMapUpdate(x, s.key, s.value);
    SetTextActsAsMapUpdate(y, s.key, s.value);
  }

  /** Writing another key that is present keeps the two texts alike. */
  lemma OtherWriteKeepsAlike(x: string, y: string, s: Step, l: Key, w: string)
    requires Printable(s.key, s.value) && Printable(l, w) && Alike(x, y, s) && l != s.key && Ask(x, l).Is?
    ensures SetText(x, l, w).Some? && SetText(y, l, w).Some?
    ensures Alike(SetText(x, l, w).value, SetText(y, l, w).value, s)
  {
    hide Ask, SetText, Printable, IsPlaceholder;
    AlikeElsewhere(x, y, s, l);
    SetTextsCommute(x, s.key, s.value, l, w);
    SetTextsCommute(y, s.key, s.value, l, w);
    SetTextActsAsMapUpdate(x, l, w);
    SetTextActsAsMapUpdate(y, l, w);
    SetTextActsAsMapUpdate(SetText(x, l, w).value, s.key, s.value);
  }

  /** Writing the key itself makes the two texts equal. */
  lemma SameWriteMerges(x: string, y: string, s: Step, u: string)
    requires Printable(s.key, s.value) && Printable(s.key, u) && Alike(x, y, s)
    ensures SetText(x, s.key, u).Some? && SetText(y, s.key, u) == SetText(x, s.key, u)
    ensures SetText(SetText(x, s.key, u).value, s.key, s.value) == SetText(x, s.key, s.value)
  {
    hide Ask, SetText, Printable, IsPlaceholder;
    AlikeElsewhere(x, y, s, s.key);
    SetTextActsAsMapUpdate(x, s.key, u);
    SetTextActsAsMapUpdate(y, s.key, u);
    LaterSetTextWins(x, s.key, s.value, u);
    LaterSetTextWins(y, s.key, s.value, u);
    LaterSetTextWins(x, s.key, u, s.value);
  }

  lemma StepKeepsAlike(x: string, y: string, s: Step, t: Step)
    requires PrintableStep(s) && PrintableStep(t) && s.action != Get && Alike(x, y, s) && Apply(x, t).Some?
    requires t.action != Get && t.key != s.key ==> Ask(x, t.key).Is?
    ensures Apply(y, t).Some? && Alike(Apply(x, t).value, Apply(y, t).value, s)
  {
    hide Ask, SetText, Printable, IsPlaceholder;
    AlikeElsewhere(x, y, s, t.key);
    if t.action != Get {
      if t.key != s.key {
        OtherWriteKeepsAlike(x, y, s, t.key, t.value);
      } else {
        SameWriteMerges(x, y, s, t.value);
      }
    }
  }

  /** An operation that creates nothing runs alike on files that differ in one text only. */
  lemma OpKeepsAlike(files: Files, op: FileOp, path: string, y: string, s: Step) returns (y': string)
    requires PrintableStep(s) && s.action != Get && SetupOp(op) && path in files && Alike(files[path], y, s)
    requires Effect(files, op, false).Some? && Effect(files, op, false).value.Keys == files.Keys
    requires Standing(Effect(files, op, false).value, files)
    ensures Effect(files[path := y], op, false) == Some(Effect(files, op, false).value[path := y'])
    ensures Alike(Effect(files, op, false).value[path], y', s)
  {
    hide ConfigPath, Apply, Populate, Ask, PrintableStep, Alike, KeptText;
    var next := Effect(files, op, false).value;
    var on, off := ConfigPath(op.base, op.name, On), ConfigPath(op.base, op.name, Off);
    y' := y;
    match op
    case ConfigOp(base, name, step) =>
      var target := ConfigTarget(files, base, name);
      assert target == ConfigTarget(files[path := y], base, name);
      if target == path {
        StepKeeps(files[path], step, AnyKey);
        if step.action != Get { PresentBefore(next[path], files[path], step.key); }
        StepKeepsAlike(files[path], y, s, step);
        y' := Apply(y, step).value;
        assert next[path := y'] == files[path := y][path := y'];
      } else {
        assert next[path := y] == files[path := y][target := next[target]];
      }
    case NetworkOp(_, _, action) =>
      assert action.NetDefault? ==> on in files || off in files by {
        assert on in next.Keys ==> on in files;
        assert off in next.Keys ==> off in files;
      }
    case TemplateOp(_, _, _, _) =>
      assert on in next.Keys ==> on in files;
  }

  lemma PresentBefore(after: string, before: string, k: Key)
    requires KeptText(after, before, AnyKey) && Ask(after, k).Is?
    ensures Ask(before, k).Is?
  {
  }

  lemma {:induction false} RunKeepsAlike(files: Files, ops: seq<FileOp>, last: Files, path: string, y: string, s: Step)
    returns (y': string)
    requires SetupOps(ops) && Effects(files, ops, false) == Done(last) && Standing(last, files)
    requires path in files && path in last && PrintableStep(s) && s.action != Get && Alike(files[path], y, s)
    ensures Effects(files[path := y], ops, false) == Done(last[path := y']) && Alike(last[path], y', s)
    decreases |ops|
  {
    hide Effect, SetupOp, Standing, PrintableStep, Alike;
    if ops == [] {
      y' := y;
    } else {
      var next := Effect(files, ops[0], false).value;
      StaysLevel(files, ops[0], ops[1..], last);
      assert next.Keys == files.Keys;
      var mid := OpKeepsAlike(files, ops[0], path, y, s);
      y' := RunKeepsAlike(next, ops[1..], last, path, mid, s);
    }
  }

  lemma ApplyWrites(text: string, s: Step)
    requires PrintableStep(s) && Apply(text, s).Some? && Apply(text, s) != Some(text)
    ensures s.action != Get && (s.action == Default ==> !Settled(Ask(text, s.key)))
    ensures Apply(text, s) == SetText(text, s.key, s.value)
  {
  }

  lemma AlikeAtTheStart(x: string, s: Step)
    requires PrintableStep(s) && Apply(x, s).Some? && Apply(x, s) != Some(x)
    ensures s.action != Get && Alike(x, Apply(x, s).value, s)
  {
    hide Ask, SetText, Printable, IsPlaceholder;
    ApplyWrites(x, s);
    SetTextActsAsMapUpdate(x, s.key, s.value);
    LaterSetTextWins(x, s.key, s.value, s.value);
  }

  /** The write of the last operation, repeated after a run that has seen it, ends in the same place. */
  lemma AlikeAtTheEnd(x: string, y: string, s: Step)
    requires PrintableStep(s) && Apply(x, s).Some? && Apply(x, s) != Some(x) && Alike(x, y, s)
    ensures Apply(y, s) == Apply(x, s)
  {
    hide Ask, SetText, Printable, IsPlaceholder;
    ApplyWrites(x, s);
    AlikeElsewhere(x, y, s, s.key);
  }

  /** The last operation edited a file: a second run of all operations ends with the same edit. */
  lemma SecondRunAfterEdit(files: Files, ops: seq<FileOp>, op: FileOp)
    requires SetupOps(ops) && SetupOp(op) && Effects(files, ops, false) == Done(files)
    requires op.ConfigOp? && Effect(files, op, false).Some?
    ensures var last := Effect(files, op, false).value; Effects(last, ops + [op], false) == Done(last)
  {
    hide Apply, PrintableStep, Alike, ConfigPath;
    var last, path, s := Effect(files, op, false).value, ConfigTarget(files, op.base, op.name), op.step;
    EffectsConcat(last, ops, [op], false);
    if Apply(files[path], s) == Some(files[path]) {
      assert last == files;
    } else {
      AlikeAtTheStart(files[path], s);
      KeptReflexive(files, AnyKey);
      var y := RunKeepsAlike(files, ops, files, path, last[path], s);
      assert files[path := last[path]] == last;
      AlikeAtTheEnd(files[path], y, s);
      assert ConfigTarget(files[path := y], op.base, op.name) == path;
      assert files[path := y][path := last[path]] == last;
      assert Effect(files[path := y], op, false) == Some(last);
    }
    assert [op][1..] == [];
  }

  /** The last operation created a file. */
  lemma SecondRunAfterCreation(files: Files, ops: seq<FileOp>, op: FileOp, path: string)
    requires SetupOps(ops) && SetupOp(op) && Effects(files, ops, false) == Done(files)
    requires Effect(files, op, false).Some? && path !in files && path in Effect(files, op, false).value
    ensures var last := Effect(files, op, false).value; Effects(last, ops + [op], false) == Done(last)
  {
    hide Effect, SetupOp, Kept, Vacant;
    var last := Effect(files, op, false).value;
    CreatedWasVacant(files, op, path, op);
    forall i | 0 <= i < |ops| ensures Vacant(ops[i], files, path) { CreatedWasVacant(files, op, path, ops[i]); }
    KeptReflexive(files, AnyKey);
    RunIgnoresNewFile(files, ops, files, path, last[path]);
    EffectsConcat(last, ops, [op], false);
    CreationIsFinal(files, op, path);
    assert [op][1..] == [];
  }

  lemma CreationIsFinal(files: Files, op: FileOp, path: string)
    requires SetupOp(op) && Effect(files, op, false).Some? && path !in files && path in Effect(files, op, false).value
    ensures var last := Effect(files, op, false).value; Effect(last, op, false) == Some(last)
  {
    hide Apply, Populate, PrintableStep, ConfigPath;
  }

  lemma NothingCreated(files: Files, op: FileOp)
    requires SetupOp(op) && !op.ConfigOp? && Effect(files, op, false).Some?
    requires forall path :: path in Effect(files, op, false).value ==> path in files
    ensures Effect(files, op, false).value == files
  {
    hide Apply, Populate, PrintableStep, ConfigPath;
  }

  /** After an error-free run of setup operations, a second run leaves every file byte-identical. */
  lemma {:induction false} SetupOpsAreIdempotent(files: Files, ops: seq<FileOp>)
    requires SetupOps(ops) && Effects(files, ops, false).Done?
    ensures var last := Effects(files, ops, false).files; Effects(last, ops, false) == Done(last)
    decreases |ops|
  {
    hide Effect, SetupOp;
    if ops != [] {
      var front, op := ops[..|ops| - 1], ops[|ops| - 1];
      assert ops == front + [op] && [op][1..] == [];
      EffectsConcat(files, front, [op], false);
      SetupOpsAreIdempotent(files, front);
      var before := Effects(files, front, false).files;
      var last := Effect(before, op, false).value;
      if path :| path in last && path !in before {
        SecondRunAfterCreation(before, front, op, path);
      } else if op.ConfigOp? {
        SecondRunAfterEdit(before, front, op);
      } else {
        NothingCreated(before, op);
        EffectsConcat(last, front, [op], false);
      }
    }
  }

  // ---- Whole scripts ----

  /** The commands of a setup script, such as the one that the package ships. */
  predicate SetupCommand(cmd: Command) {
    match cmd
    case Config(cfg, _, _, _, _) => cfg == NODE || NetworkName(cfg)
    case Network(net, action) => !action.NetEnsure? && (net == NODE || NetworkName(net))
    case FromTemplate(cfg, fill) => fill == FromDefault && cfg == NODE
    case _ => true
  }

  predicate PrintableOps(ops: seq<FileOp>) {
    forall i :: 0 <= i < |ops| && ops[i].ConfigOp? ==> PrintableStep(ops[i].step)
  }

  /** Only setup commands, and the values they come to can be written to a file. */
  predicate SetupScript(cmds: seq<Command>, vars: map<string, string>) {
    (forall i :: 0 <= i < |cmds| ==> SetupCommand(cmds[i])) && PrintableOps(PlanOf(cmds, [], vars).ops)
  }

  /** No `config ... ensure`. */
  predicate OnlyDefaults(cmds: seq<Command>) {
    forall i :: 0 <= i < |cmds| && cmds[i].Config? ==> cmds[i].action != Ensure
  }

  lemma {:induction false} SetupScriptsPlanSetupOps(cmds: seq<Command>, stack: seq<Condition>, vars: map<string,
                                                    string>)
    requires forall i :: 0 <= i < |cmds| ==> SetupCommand(cmds[i])
    requires PrintableOps(PlanOf(cmds, stack, vars).ops)
    ensures SetupOps(PlanOf(cmds, stack, vars).ops)
    decreases |cmds|
  {
    hide Eval, Substitute, PrintableStep;
    if cmds != [] {
      var cmd := cmds[0];
      if cmd.If? {
        SetupScriptsPlanSetupOps(cmds[1..], stack + [cmd.cond], vars);
      } else if cmd.EndIf? {
        if stack != [] { SetupScriptsPlanSetupOps(cmds[1..], stack[..|stack| - 1], vars); }
      } else if !Allows(stack, vars) {
        SetupScriptsPlanSetupOps(cmds[1..], stack, vars);
      } else if cmd.Var? {
        SetupScriptsPlanSetupOps(cmds[1..], stack, vars[cmd.name := Substitute(cmd.template, vars)]);
      } else {
        var all, rest := PlanOf(cmds, stack, vars).ops, PlanOf(cmds[1..], stack, vars).ops;
        assert all == [Resolve(cmd, vars)] + rest;
        assert rest == all[1..] && PrintableOps(rest);
        assert all[0] == Resolve(cmd, vars);
        SetupScriptsPlanSetupOps(cmds[1..], stack, vars);
      }
    }
  }

  predicate ForceNothing(ops: seq<FileOp>) {
    forall i :: 0 <= i < |ops| && ops[i].ConfigOp? ==> ops[i].step.action != Ensure
  }

  lemma {:induction false} DefaultsForceNothing(cmds: seq<Command>, stack: seq<Condition>, vars: map<string, string>)
    requires OnlyDefaults(cmds)
    ensures ForceNothing(PlanOf(cmds, stack, vars).ops)
    decreases |cmds|
  {
    hide Eval, Substitute;
    if cmds != [] {
      var cmd := cmds[0];
      if cmd.If? {
        DefaultsForceNothing(cmds[1..], stack + [cmd.cond], vars);
      } else if cmd.EndIf? {
        if stack != [] { DefaultsForceNothing(cmds[1..], stack[..|stack| - 1], vars); }
      } else if cmd.Var? && Allows(stack, vars) {
        DefaultsForceNothing(cmds[1..], stack, vars[cmd.name := Substitute(cmd.template, vars)]);
      } else {
        DefaultsForceNothing(cmds[1..], stack, vars);
      }
    }
  }

  /** A setup script never moves a network. */
  lemma SetupScriptsLeaveNetworks(cmds: seq<Command>, vars: map<string, string>)
    requires SetupScript(cmds, vars)
    ensures LeavesNetworks(cmds, vars)
  {
    hide PlanOf, SetupCommand, PrintableStep;
    SetupScriptsPlanSetupOps(cmds, [], vars);
  }

  lemma SetupScriptsKeep(cmds: seq<Command>, w: World)
    requires SetupScript(cmds, w.vars)
    ensures Kept(w.files, FilesOf(Run(cmds, [], w, false)), Forced(PlanOf(cmds, [], w.vars).ops))
  {
    hide PlanOf, Run, Effects, SetupCommand, PrintableOps, SetupOp, Kept, Forces;
    var ops := PlanOf(cmds, [], w.vars).ops;
    RunFollowsPlan(cmds, [], w, false);
    SetupScriptsPlanSetupOps(cmds, [], w.vars);
    OpsKeep(w.files, ops, Forced(ops));
  }

  /** A setup script never takes away a file or a setting, never changes a setting that is there, is no placeholder and
      is not forced by the script, and never enables or disables a network that has a configuration, however its run
      ends. A script of default actions forces nothing. */
  lemma UserSettingsSurvive(cmds: seq<Command>, w: World, path: string, k: Key)
    requires SetupScript(cmds, w.vars) && path in w.files
    ensures path in FilesOf(Run(cmds, [], w, false))
    ensures var text := FilesOf(Run(cmds, [], w, false))[path];
      && (Ask(w.files[path], k).Is? ==> Ask(text, k).Is?)
      && (Settled(Ask(w.files[path], k)) && (OnlyDefaults(cmds) || !Forced(PlanOf(cmds, [], w.vars).ops)(k)) ==>
           Ask(text, k) == Ask(w.files[path], k))
    ensures var last := FilesOf(Run(cmds, [], w, false));
      forall b, n :: NetworkName(n) && Content(w.files, b, n).Some? ==>
        (HasOn(last, b, n) <==> HasOn(w.files, b, n)) && (HasOff(last, b, n) <==> HasOff(w.files, b, n))
  {
    hide PlanOf, Ask, IsPlaceholder, Run, SetupCommand, PrintableOps, OnlyDefaults, Content, HasOn, HasOff;
    SetupScriptsKeep(cmds, w);
    if OnlyDefaults(cmds) { DefaultsForceNothing(cmds, [], w.vars); }
    assert KeptText(w.files[path], FilesOf(Run(cmds, [], w, false))[path], Forced(PlanOf(cmds, [], w.vars).ops));
    SetupScriptsLeaveNetworks(cmds, w.vars);
    forall b, n | NetworkName(n) && Content(w.files, b, n).Some?
      ensures HasOn(FilesOf(Run(cmds, [], w, false)), b, n) <==> HasOn(w.files, b, n)
      ensures HasOff(FilesOf(Run(cmds, [], w, false)), b, n) <==> HasOff(w.files, b, n)
    {
      RunKeepsPlace(cmds, w, b, n);
    }
  }

  /** After an error-free run, a second run from the same variables does the same and changes no byte of any file. */
  lemma SecondRunChangesNothing(cmds: seq<Command>, w: World)
    requires SetupScript(cmds, w.vars) && Run(cmds, [], w, false).Finished?
    ensures var first := Run(cmds, [], w, false);
      Run(cmds, [], World(w.vars, first.world.files), false) == first
  {
    hide PlanOf, SetupOps, Run, Effects, SetupCommand, PrintableOps;
    SetupScriptsPlanSetupOps(cmds, [], w.vars);
    var plan, files := PlanOf(cmds, [], w.vars), Run(cmds, [], w, false).world.files;
    RunFollowsPlan(cmds, [], w, false);
    RunFollowsPlan(cmds, [], World(w.vars, files), false);
    SetupOpsAreIdempotent(w.files, plan.ops);
  }

  // ---- One setting under any script ----

  /** The operation works on other files, or neither moves nor rebuilds its file and does not insist on a value for the
      key. */
  predicate Spares(op: FileOp, path: string, k: Key) {
    Elsewhere(op, path) ||
    match op
    case ConfigOp(_, _, step) => PrintableStep(step) && !Forces(op, k)
    case NetworkOp(_, _, action) => !action.NetEnsure?
    case TemplateOp(_, _, fill, _) => fill == FromDefault
  }

  lemma SparedByStep(text: string, s: Step, k: Key)
    requires PrintableStep(s) && (s.action == Ensure ==> s.key != k)
    requires Apply(text, s).Some? && Settled(Ask(text, k))
    ensures Ask(Apply(text, s).value, k) == Ask(text, k)
  {
    hide Ask, SetText, Printable, IsPlaceholder;
    if s.action != Get { SetTextActsAsMapUpdate(text, s.key, s.value); }
  }

  lemma SparedByOp(files: Files, op: FileOp, path: string, k: Key)
    requires Spares(op, path, k) && Effect(files, op, false).Some? && path in files && Settled(Ask(files[path], k))
    ensures path in Effect(files, op, false).value
    ensures Ask(Effect(files, op, false).value[path], k) == Ask(files[path], k)
  {
    hide Ask, Apply, ConfigPath, Populate, PrintableStep, IsPlaceholder;
    if op.ConfigOp? && ConfigTarget(files, op.base, op.name) == path { SparedByStep(files[path], op.step, k); }
  }

  lemma {:induction false} SparedByOps(files: Files, ops: seq<FileOp>, path: string, k: Key)
    requires (forall i :: 0 <= i < |ops| ==> Spares(ops[i], path, k)) && path in files && Settled(Ask(files[path], k))
    ensures var last := Effects(files, ops, false).files; path in last && Ask(last[path], k) == Ask(files[path], k)
    decreases |ops|
  {
    hide Ask, Effect, Spares, IsPlaceholder;
    if ops != [] && Effect(files, ops[0], false).Some? {
      SparedByOp(files, ops[0], path, k);
      SparedByOps(Effect(files, ops[0], false).value, ops[1..], path, k);
    }
  }

  /** A setting that is there and not a placeholder survives every script in which no operation on its file insists on
      its key, or moves or rebuilds the file; what the script does to other files does not matter. */
  lemma UnforcedSettingSurvives(cmds: seq<Command>, w: World, path: string, k: Key)
    requires var ops := PlanOf(cmds, [], w.vars).ops; forall i :: 0 <= i < |ops| ==> Spares(ops[i], path, k)
    requires path in w.files && Settled(Ask(w.files[path], k))
    ensures var last := FilesOf(Run(cmds, [], w, false)); path in last && Ask(last[path], k) == Ask(w.files[path], k)
  {
    hide PlanOf, Ask, Run, Effects, Spares, IsPlaceholder;
    RunFollowsPlan(cmds, [], w, false);
    SparedByOps(w.files, PlanOf(cmds, [], w.vars).ops, path, k);
  }
}
