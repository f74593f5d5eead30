/** Configuration paths, and what the `config`, `network` and `fromtemplate` commands do to the file system. */
module FileOps {
  import opened Text
  import opened ConfigLines
  import opened ConfigEditor
  import opened ConfigStore
  import opened ConfigActions
  import opened Placeholders
  import opened Templates

  /** The files of the installation, by path. */
  type Files = map<string, string>

  // ---- Paths ----

  const NODE: string := "cellframe-node"

  datatype Place = On | Off | Template

  function ConfigPath(base: string, name: string, place: Place): string {
    if name == NODE then
      if place == Template then base + "/share/configs/" + "cellframe-node.cfg"
      else base + "/etc/" + "cellframe-node.cfg"
    else
      match place
      case On => base + "/etc/network/" + (name + ".cfg")
      case Off => base + "/etc/network/" + (name + ".cfg.dis")
      case Template => base + "/share/configs/network/" + (name + ".cfg")
  }

  /** The disabled file of a network is its enabled file with a suffix. */
  lemma OffPath(base: string, name: string)
    requires name != NODE
    ensures ConfigPath(base, name, Off) == ConfigPath(base, name, On) + ".dis"
  {
    assert name + ".cfg.dis" == name + ".cfg" + ".dis";
  }

  /** The part of a path up to its last slash. */
  function Directory(path: string): string {
    if path == "" || path[|path| - 1] == '/' then path else Directory(path[..|path| - 1])
  }

  lemma {:induction false} DirectoryOf(dir: string, file: string)
    requires '/' !in file && dir != "" && dir[|dir| - 1] == '/'
    ensures Directory(dir + file) == dir
    decreases |file|
  {
    if file == "" {
      assert dir + file == dir;
    } else {
      assert (dir + file)[..|dir + file| - 1] == dir + file[..|file| - 1];
      DirectoryOf(dir, file[..|file| - 1]);
    }
  }

  predicate NetworkName(name: string) { name != NODE && '/' !in name }

  /** No network shares a file with the node, or its enabled file with a disabled one, even across base directories. */
  lemma PathsApart(b: string, n: string, b': string, n': string)
    requires NetworkName(n)
    ensures ConfigPath(b, n, On) != ConfigPath(b', NODE, On)
    ensures ConfigPath(b, n, Off) != ConfigPath(b', NODE, On)
    ensures NetworkName(n') ==> ConfigPath(b, n, On) != ConfigPath(b', n', Off)
    ensures NetworkName(n') ==>
      (ConfigPath(b, n, On) == ConfigPath(b', n', On) <==> ConfigPath(b, n, Off) == ConfigPath(b', n', Off))
  {
    var on, off, node := ConfigPath(b, n, On), ConfigPath(b, n, Off), ConfigPath(b', NODE, On);
    var net, etc := b + "/etc/network/", b' + "/etc/";
    DirectoryOf(net, n + ".cfg");
    DirectoryOf(net, n + ".cfg.dis");
    DirectoryOf(etc, "cellframe-node.cfg");
    assert net[|net| - 2] == 'k' && etc[|etc| - 2] == 'c';
    OffPath(b, n);
    if NetworkName(n') {
      var on', off' := ConfigPath(b', n', On), ConfigPath(b', n', Off);
      OffPath(b', n');
      assert on[|on| - 1] == 'g' && off'[|off'| - 1] == 's';
      assert on == off[..|off| - 4] && on' == off'[..|off'| - 4];
    }
  }

  // ---- Operations ----

  datatype NetAction = NetDefault(on: bool) | NetEnsure(on: bool) | NetCheck

  datatype TemplateAction = FromDefault | FromEnsure | FromOther

  /** A command ready to act on the files: paths and values fixed by the variables at that moment. */
  datatype FileOp =
    | ConfigOp(base: string, name: string, step: Step)
    | NetworkOp(base: string, name: string, action: NetAction)
    | TemplateOp(base: string, name: string, fill: TemplateAction, vars: Vars)

  /** The file that a `config` command edits: the enabled one if there is one. */
  function ConfigTarget(files: Files, base: string, name: string): string {
    var on, off := ConfigPath(base, name, On), ConfigPath(base, name, Off);
    if name != NODE && on !in files && off in files then off else on
  }

  function ConfigEffect(files: Files, base: string, name: string, step: Step, dry: bool): Option<Files> {
    var path := ConfigTarget(files, base, name);
    if path !in files then None
    else
      match Apply(files[path], step)
      case None => None
      case Some(text) => Some(if dry then files else files[path := text])
  }

  function Rename(files: Files, src: string, dst: string): Files
    requires src in files
  {
    if src == dst then files else (files - {src})[dst := files[src]]
  }

  function Copy(files: Files, src: string, dst: string, dry: bool): Option<Files> {
    if dry then Some(files)
    else if src in files then Some(files[dst := files[src]])
    else None
  }

  function NetworkEffect(files: Files, base: string, name: string, action: NetAction, dry: bool): Option<Files> {
    var on, off, template := ConfigPath(base, name, On), ConfigPath(base, name, Off), ConfigPath(base, name, Template);
    match action
    case NetCheck => Some(files)
    case NetDefault(wantOn) =>
      if on in files || off in files then Some(files)
      else Copy(files, template, if wantOn then on else off, dry)
    case NetEnsure(wantOn) =>
      var want, opposite := if wantOn then on else off, if wantOn then off else on;
      if (wantOn && on in files) || (!wantOn && on !in files && off in files) then Some(files)
      else if opposite in files then Some(if dry then files else Rename(files, opposite, want))
      else Copy(files, template, want, dry)
  }

  function Populate(text: string, vars: Vars): string { Save(TemplateLines(Load(text), vars)) }

  function TemplateEffect(files: Files, base: string, name: string, fill: TemplateAction, vars: Vars, dry: bool)
    : Option<Files>
  {
    var template, path := ConfigPath(base, name, Template), ConfigPath(base, name, On);
    if fill == FromDefault && path in files then Some(files)
    else
      var copied := if fill == FromOther then Some(files) else Copy(files, template, path, dry);
      if copied.None? || path !in copied.value then None
      else Some(if dry then files else copied.value[path := Populate(copied.value[path], vars)])
  }

  /** The files after an operation, or nothing when it throws; a throwing operation changes no file. */
  function Effect(files: Files, op: FileOp, dry: bool): Option<Files> {
    match op
    case ConfigOp(base, name, step) => ConfigEffect(files, base, name, step, dry)
    case NetworkOp(base, name, action) => NetworkEffect(files, base, name, action, dry)
    case TemplateOp(base, name, fill, vars) => TemplateEffect(files, base, name, fill, vars, dry)
  }

  /** A sequence of operations runs until one throws. */
  datatype Progress = Done(files: Files) | Stopped(files: Files)

  function Effects(files: Files, ops: seq<FileOp>, dry: bool): Progress
    decreases |ops|
  {
    if ops == [] then Done(files)
    else
      match Effect(files, ops[0], dry)
      case None => Stopped(files)
      case Some(next) => Effects(next, ops[1..], dry)
  }

  /** A dry run leaves every file as it is. */
  lemma {:induction false} DryRunChangesNothing(files: Files, ops: seq<FileOp>)
    ensures Effects(files, ops, true).files == files
    decreases |ops|
  {
    hide Apply, ConfigPath;
    if ops != [] { DryRunChangesNothing(files, ops[1..]); }
  }

  lemma {:induction false} EffectsConcat(files: Files, a: seq<FileOp>, b: seq<FileOp>, dry: bool)
    ensures Effects(files, a + b, dry) ==
            match Effects(files, a, dry) case Done(next) => Effects(next, b, dry) case Stopped(last) => Stopped(last)
    decreases |a|
  {
    hide Effect;
    if a == [] {
      assert a + b == b;
    } else {
      assert (a + b)[1..] == a[1..] + b;
      var next := Effect(files, a[0], dry);
      if next.Some? { EffectsConcat(next.value, a[1..], b, dry); }
    }
  }

  /** No substituted token of the line holds a newline. */
  predicate StaysOneLine(line: string, vars: Vars) {
    forall t :: t in Tokens(Clean(Clean(line)), '=') ==> OneLine(Substitute(t, vars))
  }

  /** A file made from a template says of every key what the template says, with the variables substituted. */
  lemma PopulatedFileSays(text: string, vars: Vars, k: Key)
    requires forall i :: 0 <= i < |Load(text)| ==> FittingLine(Load(text)[i], vars) && !Frayed(Load(text)[i])
    requires forall i :: 0 <= i < |Load(text)| ==> StaysOneLine(Load(text)[i], vars)
    ensures Ask(Populate(text, vars), k) == SubstituteAnswer(Ask(text, k), vars)
  {
    hide FittingLine, Frayed, Load, Save, Lookup, SubstituteAnswer;
    var lines := Load(text);
    forall i | 0 <= i < |lines| ensures OneLine(TemplateLines(lines, vars)[i]) {
      TemplateLineIsOneLine(lines[i], vars);
    }
    LoadSave(TemplateLines(lines, vars));
    TemplatingCommutesWithLookup(lines, vars, k);
  }

  /** `fromtemplate` on a file that is not there, or with `ensure`, makes the file from the template, and throws exactly
      when there is none; `default` leaves a file that is there alone. */
  lemma FromTemplateMakesFile(files: Files, base: string, name: string, fill: TemplateAction, vars: Vars)
    requires fill != FromOther
    ensures var next := TemplateEffect(files, base, name, fill, vars, false);
      if fill == FromDefault && ConfigPath(base, name, On) in files then next == Some(files)
      else if ConfigPath(base, name, Template) !in files then next == None
      else next == Some(files[ConfigPath(base, name, On) := Populate(files[ConfigPath(base, name, Template)], vars)])
  {
    hide ConfigPath, Populate;
    var template, path := ConfigPath(base, name, Template), ConfigPath(base, name, On);
    if template in files {
      var text := Populate(files[template], vars);
      assert files[path := files[template]][path := text] == files[path := text];
    }
  }

  /** Any other argument of `fromtemplate` populates the file in place; it throws exactly when the file is missing. */
  lemma PopulatesInPlace(files: Files, base: string, name: string, vars: Vars)
    ensures var path := ConfigPath(base, name, On);
      TemplateEffect(files, base, name, FromOther, vars, false) ==
      if path in files then Some(files[path := Populate(files[path], vars)]) else None
  {
    hide ConfigPath, Populate;
  }

  // ---- When an operation throws ----

  /** A `network` command throws exactly when it has to make a file and there is no template. */
  lemma NetworkThrowsIff(files: Files, base: string, name: string, action: NetAction)
    ensures Effect(files, NetworkOp(base, name, action), false).None? <==>
      && !action.NetCheck? && ConfigPath(base, name, Template) !in files
      && ConfigPath(base, name, On) !in files && ConfigPath(base, name, Off) !in files
  {
    hide ConfigPath;
  }

  /** A `config` command throws exactly when its network has no file, or the lookup of its key fails. */
  lemma ConfigThrowsIff(files: Files, base: string, name: string, step: Step)
    requires PrintableStep(step) && (name == NODE || NetworkName(name))
    ensures var on, off := ConfigPath(base, name, On), ConfigPath(base, name, Off);
      Effect(files, ConfigOp(base, name, step), false).None? <==>
      if on in files then Ask(files[on], step.key).Fails?
      else if off in files then Ask(files[off], step.key).Fails?
      else true
  {
    hide Ask, SetText, Printable, IsPlaceholder;
    NodeHasOnePath(base);
    var path := ConfigTarget(files, base, name);
    if path in files && step.action != Get { SetTextActsAsMapUpdate(files[path], step.key, step.value); }
  }

  lemma NodeHasOnePath(base: string)
    ensures ConfigPath(base, NODE, On) == ConfigPath(base, NODE, Off)
  {
  }

  /** A dry `network` command never throws, a dry `config` command throws exactly when a real one does, and a dry
      `fromtemplate` exactly when the file is not there. */
  lemma DryThrowsIff(files: Files, op: FileOp)
    requires op.ConfigOp? ==> PrintableStep(op.step)
    ensures Effect(files, op, true).None? <==>
      match op
      case ConfigOp(_, _, _) => Effect(files, op, false).None?
      case NetworkOp(_, _, _) => false
      case TemplateOp(base, name, _, _) => ConfigPath(base, name, On) !in files
  {
    hide ConfigPath, Apply, Populate;
  }

  // ---- Templates ----

  /** No file that a command writes is a template, even across base directories. */
  lemma TemplatesApart(b: string, n: string, b': string, n': string)
    requires (n == NODE || NetworkName(n)) && (n' == NODE || NetworkName(n'))
    ensures ConfigPath(b, n, Template) != ConfigPath(b', n', On)
    ensures ConfigPath(b, n, Template) != ConfigPath(b', n', Off)
  {
    var share := b + (if n == NODE then "/share/configs/" else "/share/configs/network/");
    var etc := b' + (if n' == NODE then "/etc/" else "/etc/network/");
    DirectoryOf(share, if n == NODE then "cellframe-node.cfg" else n + ".cfg");
    DirectoryOf(etc, if n' == NODE then "cellframe-node.cfg" else n' + ".cfg");
    if n' != NODE { DirectoryOf(etc, n' + ".cfg.dis"); }
    DirectoriesDiffer(b, n == NODE, b', n' == NODE);
  }

  lemma DirectoriesDiffer(b: string, shareNode: bool, b': string, etcNode: bool)
    ensures b + (if shareNode then "/share/configs/" else "/share/configs/network/") !=
            b' + (if etcNode then "/etc/" else "/etc/network/")
  {
    var share := b + (if shareNode then "/share/configs/" else "/share/configs/network/");
    var etc := b' + (if etcNode then "/etc/" else "/etc/network/");
    assert share[|share| - 2] == (if shareNode then 's' else 'k') && etc[|etc| - 2] == (if etcNode then 'c' else 'k');
    if !shareNode && !etcNode { assert share[|share| - 10] == 's' && etc[|etc| - 10] == 'c'; }
  }

  predicate Named(op: FileOp) { op.name == NODE || NetworkName(op.name) }

  lemma OpKeepsTemplates(files: Files, op: FileOp, b: string, n: string)
    requires Named(op) && (n == NODE || NetworkName(n)) && Effect(files, op, false).Some?
    ensures var path, next := ConfigPath(b, n, Template), Effect(files, op, false).value;
      (path in next <==> path in files) && (path in files ==> next[path] == files[path])
  {
    hide ConfigPath, Apply, Populate;
    TemplatesApart(b, n, op.base, op.name);
  }

  /** No command ever changes, makes or takes away a template, wherever the sequence stops. */
  lemma {:induction false} RunsKeepTemplates(files: Files, ops: seq<FileOp>, b: string, n: string)
    requires (forall i :: 0 <= i < |ops| ==> Named(ops[i])) && (n == NODE || NetworkName(n))
    ensures var path, last := ConfigPath(b, n, Template), Effects(files, ops, false).files;
      (path in last <==> path in files) && (path in files ==> last[path] == files[path])
    decreases |ops|
  {
    hide Effect, ConfigPath, Named, NetworkName;
    if ops != [] && Effect(files, ops[0], false).Some? {
      OpKeepsTemplates(files, ops[0], b, n);
      RunsKeepTemplates(Effect(files, ops[0], false).value, ops[1..], b, n);
    }
  }
}
