/** What the commands of a script, as they are written, do to the files at their paths. */
module CommandRuns {
  import opened ConfigLines
  import opened ConfigEditor
  import opened ConfigStore
  import opened ConfigActions
  import opened Placeholders
  import opened FileOps
  import opened Script
  import opened Networks

  // ---- Scripts that edit one file ----

  /** Commands for one configuration, and assignments that leave the directory alone. */
  predicate EditScript(cmds: seq<Command>, cfg: string) {
    forall i :: 0 <= i < |cmds| ==>
      (cmds[i].Config? && cmds[i].cfg == cfg) || (cmds[i].Var? && cmds[i].name != "CONFIGS_PATH")
  }

  /** The directory that is set; nothing when it was never set. */
  predicate ActsUnder(vars: Vars, b: string) {
    if "CONFIGS_PATH" in vars then vars["CONFIGS_PATH"] == b else b == ""
  }

  /** The actions of the script, each with the group, the parameter and the substituted value of its command. */
  function StepsOf(cmds: seq<Command>, vars: Vars): seq<Step> {
    if cmds == [] then []
    else
      match cmds[0]
      case Config(_, group, param, action, value) =>
        [Step(action, Key(group, param), Substitute(value, vars))] + StepsOf(cmds[1..], vars)
      case Var(name, template) => StepsOf(cmds[1..], vars[name := Substitute(template, vars)])
      case _ => StepsOf(cmds[1..], vars)
  }

  function VarsAfter(cmds: seq<Command>, vars: Vars): Vars {
    if cmds == [] then vars
    else if cmds[0].Var? then VarsAfter(cmds[1..], vars[cmds[0].name := Substitute(cmds[0].template, vars)])
    else VarsAfter(cmds[1..], vars)
  }

  /** The file that is edited: the node's own, or the enabled one of the network, or the disabled one if there is no
      other. */
  function EditedPath(files: Files, b: string, cfg: string): string {
    if cfg == NODE then b + "/etc/cellframe-node.cfg"
    else
      var on := b + "/etc/network/" + cfg + ".cfg";
      if on !in files && on + ".dis" in files then on + ".dis" else on
  }

  lemma EditedPathIsTarget(files: Files, b: string, cfg: string)
    ensures EditedPath(files, b, cfg) == ConfigTarget(files, b, cfg)
    ensures EditedPath(files, b, cfg) in files ==>
      Content(files, b, cfg).Some? && PathOf(files, b, cfg) == EditedPath(files, b, cfg)
  {
    if cfg == NODE {
      NodePaths(b);
    } else {
      OffPath(b, cfg);
      assert b + "/etc/network/" + (cfg + ".cfg") == b + "/etc/network/" + cfg + ".cfg";
    }
  }

  lemma {:induction false} EditScriptPlan(cmds: seq<Command>, cfg: string, vars: Vars)
    requires EditScript(cmds, cfg)
    ensures PlanOf(cmds, [], vars) ==
            Plan(Edits(Base(vars), cfg, StepsOf(cmds, vars)), VarsAfter(cmds, vars), AtEnd([]))
    decreases |cmds|
  {
    hide Substitute;
    if cmds != [] {
      var cmd, rest := cmds[0], cmds[1..];
      if cmd.Var? {
        EditScriptPlan(rest, cfg, vars[cmd.name := Substitute(cmd.template, vars)]);
      } else {
        EditScriptPlan(rest, cfg, vars);
        var step := Step(cmd.action, Key(cmd.group, cmd.param), Substitute(cmd.value, vars));
        assert Edits(Base(vars), cfg, [step] + StepsOf(rest, vars)) ==
               [ConfigOp(Base(vars), cfg, step)] + Edits(Base(vars), cfg, StepsOf(rest, vars));
      }
    }
  }

  /** A script of `config` commands for one file, with assignments between them, aborts exactly when it reaches a key
      whose lookup fails; else it edits that one file, which then holds what the commands, taken one by one, make of the
      map that it held. */
  lemma EditScriptIsMapFold(cmds: seq<Command>, cfg: string, w: World, b: string, m: map<Key, string>,
                            broken: iset<Key>)
    requires EditScript(cmds, cfg) && (cfg == NODE || NetworkName(cfg))
    requires ActsUnder(w.vars, b) && EditedPath(w.files, b, cfg) in w.files
    requires Holds(w.files[EditedPath(w.files, b, cfg)], m, broken)
    requires forall s :: s in StepsOf(cmds, w.vars) ==> PrintableStep(s)
    ensures var outcome, steps, path := Run(cmds, [], w, false), StepsOf(cmds, w.vars), EditedPath(w.files, b, cfg);
      if exists s :: s in steps && s.key in broken then outcome.Aborted?
      else
        && outcome.Finished? && path in outcome.world.files
        && outcome == Finished(World(VarsAfter(cmds, w.vars), w.files[path := outcome.world.files[path]]), [])
        && Holds(outcome.world.files[path], MapSteps(m, steps), broken)
  {
    hide PlanOf, Run, Effects, StepsOf, VarsAfter, EditedPath, ApplyAll, Holds, MapSteps, Content, PathOf;
    hide PrintableStep;
    var path, steps := EditedPath(w.files, b, cfg), StepsOf(cmds, w.vars);
    EditedPathIsTarget(w.files, b, cfg);
    EditScriptPlan(cmds, cfg, w.vars);
    RunFollowsPlan(cmds, [], w, false);
    EditsWorkOnContent(w.files, b, cfg, steps);
    ConfigScriptIsMapFold(w.files[path], steps, m, broken);
  }

  // ---- One command ----

  lemma OneCommand(cmd: Command, w: World)
    requires !IsBracket(cmd)
    ensures Run([cmd], [], w, false) ==
            match Execute(cmd, w, false)
            case None => Aborted(w.files)
            case Some(next) => Finished(next, [])
  {
    assert [cmd][1..] == [];
  }

  lemma Assoc(a: string, b: string, c: string)
    ensures a + b + c == a + (b + c)
  {
  }

  lemma NodePaths(b: string)
    ensures ConfigPath(b, NODE, On) == b + "/etc/cellframe-node.cfg"
    ensures ConfigPath(b, NODE, Template) == b + "/share/configs/cellframe-node.cfg"
  {
    Assoc(b, "/etc/", "cellframe-node.cfg");
    Assoc(b, "/share/configs/", "cellframe-node.cfg");
  }

  lemma NetworkPaths(b: string, net: string)
    requires net != NODE
    ensures ConfigPath(b, net, On) == b + "/etc/network/" + net + ".cfg"
    ensures ConfigPath(b, net, Off) == b + "/etc/network/" + net + ".cfg.dis"
    ensures ConfigPath(b, net, Template) == b + "/share/configs/network/" + net + ".cfg"
  {
  }

  /** The files after a `network` command that finds what it needs. */
  function NetworkMade(files: Files, on: string, off: string, template: string, action: NetAction): Option<Files> {
    var made := if template in files then Some(files[template]) else None;
    match action
    case NetCheck => Some(files)
    case NetDefault(wantOn) =>
      if on in files || off in files then Some(files)
      else if made.None? then None
      else Some(files[if wantOn then on else off := made.value])
    case NetEnsure(true) =>
      if on in files then Some(files)
      else if off in files then Some((files - {off})[on := files[off]])
      else if made.None? then None
      else Some(files[on := made.value])
    case NetEnsure(false) =>
      if on in files then Some((files - {on})[off := files[on]])
      else if off in files then Some(files)
      else if made.None? then None
      else Some(files[off := made.value])
  }

  /** A `network` command as it is written: `on` and `off` mean the two files of that network in the directory that is
      set, `default` leaves a network that has either alone, and the text comes from its own template. */
  lemma NetworkCommandRuns(net: string, action: NetAction, w: World, b: string)
    requires NetworkName(net) && ActsUnder(w.vars, b)
    ensures var on, off := b + "/etc/network/" + net + ".cfg", b + "/etc/network/" + net + ".cfg.dis";
      Run([Network(net, action)], [], w, false) ==
      match NetworkMade(w.files, on, off, b + "/share/configs/network/" + net + ".cfg", action)
      case None => Aborted(w.files)
      case Some(files) => Finished(World(w.vars, files), [])
  {
    hide ConfigPath, Run;
    OneCommand(Network(net, action), w);
    NetworkPaths(b, net);
    PathsApart(b, net, b, net);
  }

  /** `fromtemplate` as it is written, for the node's own file: with the variables of that moment. */
  lemma FromTemplateRuns(fill: TemplateAction, w: World, b: string)
    requires ActsUnder(w.vars, b)
    ensures var path, template := b + "/etc/cellframe-node.cfg", b + "/share/configs/cellframe-node.cfg";
      var source := if fill == FromOther then path else template;
      Run([FromTemplate(NODE, fill)], [], w, false) ==
      if fill == FromDefault && path in w.files then Finished(w, [])
      else if source !in w.files then Aborted(w.files)
      else Finished(World(w.vars, w.files[path := Populate(w.files[source], w.vars)]), [])
  {
    hide ConfigPath, Run, Populate, TemplateEffect;
    OneCommand(FromTemplate(NODE, fill), w);
    NodePaths(b);
    if fill == FromOther { PopulatesInPlace(w.files, b, NODE, w.vars); }
    else { FromTemplateMakesFile(w.files, b, NODE, fill, w.vars); }
  }

  /** What a `var` command assigns reaches the value of a later command through its reference. */
  lemma VariableReachesFile(name: string, value: string, cfg: string, k: Key, w: World, b: string)
    requires ActsUnder(w.vars, b) && name != "CONFIGS_PATH"
    requires (cfg == NODE || NetworkName(cfg)) && EditedPath(w.files, b, cfg) in w.files
    requires PlainStore(w.vars) && '$' !in name && '}' !in name && '$' !in value
    requires Printable(k, value) && !Ask(w.files[EditedPath(w.files, b, cfg)], k).Fails?
    ensures var path := EditedPath(w.files, b, cfg);
      var outcome := Run([Var(name, value), Config(cfg, k.group, k.param, Ensure, Pattern(name))], [], w, false);
      && outcome.Finished? && path in outcome.world.files && Ask(outcome.world.files[path], k) == Is(value)
      && outcome.world == World(w.vars[name := value], w.files[path := outcome.world.files[path]])
  {
    hide Run, Substitute, Ask, EditedPath, Printable, MapSteps, ApplyAll;
    var path, after := EditedPath(w.files, b, cfg), w.vars[name := value];
    var cmds := [Var(name, value), Config(cfg, k.group, k.param, Ensure, Pattern(name))];
    var steps := [Step(Ensure, k, value)];
    assert Substitute(value, w.vars) == value by { SubstitutePlainText(value, w.vars); }
    SubstituteReference(name, after);
    AssignThenWrite(name, value, cfg, k, Pattern(name), w.vars);
    var m, broken := EveryFileHoldsAMap(w.files[path]);
    EditScriptIsMapFold(cmds, cfg, w, b, m, broken);
    OneEnsure(m, k, value);
  }

  lemma AssignThenWrite(name: string, template: string, cfg: string, k: Key, value: string, vars: Vars)
    ensures var cmds := [Var(name, template), Config(cfg, k.group, k.param, Ensure, value)];
      var after := vars[name := Substitute(template, vars)];
      StepsOf(cmds, vars) == [Step(Ensure, k, Substitute(value, after))] && VarsAfter(cmds, vars) == after
  {
    hide Substitute;
    var write := Config(cfg, k.group, k.param, Ensure, value);
    var cmds, after := [Var(name, template), write], vars[name := Substitute(template, vars)];
    assert cmds[1..] == [write] && [write][1..] == [];
    assert StepsOf([write], after) == [Step(Ensure, k, Substitute(value, after))] && VarsAfter([write], after) == after;
  }

  lemma OneEnsure(m: map<Key, string>, k: Key, v: string)
    ensures MapSteps(m, [Step(Ensure, k, v)]) == m[k := v]
  {
    assert [Step(Ensure, k, v)][1..] == [];
  }

  lemma SubstitutePlainText(value: string, vars: Vars)
    requires '$' !in value && PlainStore(vars)
    ensures Substitute(value, vars) == value
  {
    hide WellPlaced, Substitute, Mentions;
    RenderPlain(value);
    RenderWellPlaced(PlainPieces(value));
    MentionsPlain(value);
    PlainStoreFor(vars, {});
    PassesAreSimultaneous(value, vars, MapOrder(vars.Keys));
    FillPlain(value, vars, vars.Keys);
  }
}
