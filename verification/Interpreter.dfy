/** The running tool: the variable storage, the files, and the commands that change them in place. */
module Interpreter {
  import opened ConfigLines
  import opened ConfigEditor
  import opened ConfigStore
  import opened ConfigActions
  import opened ConfigFile
  import opened Placeholders
  import opened Templates
  import opened FileOps
  import opened Script

  lemma SetFailsWithAsk(text: string, k: Key, v: string)
    ensures Set(Load(text), k, v).None? <==> Ask(text, k).Fails?
  {
    SetSucceedsForAnyPad(KindOf, Load(text), k, v, ["\n"], false);
  }

  class Tool {
    var vars: Vars
    var files: Files

    constructor (vars: Vars, files: Files)
      ensures this.vars == vars && this.files == files
    {
      this.vars, this.files := vars, files;
    }

    /** `var`: stores the substituted value. */
    method ExecuteVar(name: string, template: string)
      modifies this`vars
      ensures vars == old(vars)[name := Substitute(template, old(vars))]
    {
      var value := SubstituteVariables(template, vars);
      vars := vars[name := value];
    }

    /** The three actions of `config` on a loaded file: nothing when one throws, else whether to save, and what. */
    static method ApplyAction(text: string, s: Step) returns (result: Option<string>, altered: bool)
      ensures result == Apply(text, s)
      ensures !altered && result.Some? ==> result == Some(text)
    {
      hide Lookup, Load, Save, SetFrom, IsPlaceholder, Split, FindInLayout, KindOf;
      var cfgFile := new ConfigurationFile(text);
      if s.action != Ensure {
        var spot := cfgFile.Exists(s.key);
        if spot.Broken? { return None, false; }
        if s.action == Get || (spot.Found? && !IsPlaceholder(spot.value)) { return Some(text), false; }
      }
      SetFailsWithAsk(text, s.key, s.value);
      var written := cfgFile.Set(s.key, s.value);
      if written.None? { return None, false; }
      var saved := cfgFile.Save();
      return Some(saved), true;
    }

    /** `config`: picks the file, loads it, acts on it, and saves it if it was altered. */
    method ExecuteConfig(cfg: string, k: Key, action: Action, value: string, dry: bool) returns (thrown: bool)
      modifies this`files
      ensures match ConfigEffect(old(files), Base(vars), cfg, Step(action, k, Substitute(value, vars)), dry)
        case None => thrown && files == old(files)
        case Some(next) => !thrown && files == next
    {
      hide Apply, ConfigPath, Substitute;
      var realValue := SubstituteVariables(value, vars);
      var on, off := ConfigPath(Base(vars), cfg, On), ConfigPath(Base(vars), cfg, Off);
      var path := on;
      if cfg != NODE {
        if off in files { path := off; }
        if on in files { path := on; }
      }
      if path !in files { return true; }
      assert files[path := files[path]] == files;
      var text, altered := ApplyAction(files[path], Step(action, k, realValue));
      if text.None? { return true; }
      if altered && !dry { files := files[path := text.value]; }
      thrown := false;
    }

    /** `network`: copies or renames, depending on which files exist. */
    method ExecuteNetwork(net: string, action: NetAction, dry: bool) returns (thrown: bool)
      modifies this`files
      ensures match NetworkEffect(old(files), Base(vars), net, action, dry)
        case None => thrown && files == old(files)
        case Some(next) => !thrown && files == next
    {
      hide ConfigPath;
      var on, off := ConfigPath(Base(vars), net, On), ConfigPath(Base(vars), net, Off);
      var template := ConfigPath(Base(vars), net, Template);
      thrown := false;
      match action
      case NetCheck =>
      case NetDefault(wantOn) =>
        if off in files && on in files { return; }
        var exist, dest := if wantOn then off else on, if wantOn then on else off;
        if dest in files { return; }
        if exist in files { return; }
        if !dry { thrown := CopyFile(template, dest); }
      case NetEnsure(wantOn) =>
        var enabled := on in files;
        if wantOn && enabled { return; }
        if !wantOn && !enabled && off in files { return; }
        var want, opposite := if wantOn then on else off, if wantOn then off else on;
        if opposite in files {
          if !dry { files := Rename(files, opposite, want); }
        } else if !dry {
          thrown := CopyFile(template, want);
        }
    }

    method CopyFile(src: string, dst: string) returns (thrown: bool)
      modifies this`files
      ensures match Copy(old(files), src, dst, false)
        case None => thrown && files == old(files)
        case Some(next) => !thrown && files == next
    {
      thrown := src !in files;
      if !thrown { files := files[dst := files[src]]; }
    }

    /** `fromtemplate`: copies the template unless told not to, then substitutes the variables in the copy. */
    method ExecuteFromTemplate(cfg: string, fill: TemplateAction, dry: bool) returns (thrown: bool)
      modifies this`files
      ensures match TemplateEffect(old(files), Base(vars), cfg, fill, vars, dry)
        case None => thrown && (files == old(files))
        case Some(next) => !thrown && files == next
    {
      hide ConfigPath, Load, Save, TemplateLine;
      var from, path := ConfigPath(Base(vars), cfg, Template), ConfigPath(Base(vars), cfg, On);
      if fill == FromDefault && path in files { return false; }
      if fill != FromOther && !dry {
        thrown := CopyFile(from, path);
        if thrown { return; }
      }
      if path !in files { return true; }
      var cfgFile := new ConfigurationFile(files[path]);
      cfgFile.ReplacePlaceholders(vars);
      if !dry {
        var text := cfgFile.Save();
        files := files[path := text];
      }
      thrown := false;
    }

    /** One command that is not a bracket. */
    method ExecuteCommand(cmd: Command, dry: bool) returns (thrown: bool)
      requires !IsBracket(cmd)
      modifies this
      ensures match Execute(cmd, World(old(vars), old(files)), dry)
        case None => thrown && files == old(files) && vars == old(vars)
        case Some(w) => !thrown && files == w.files && vars == w.vars
    {
      hide Substitute, ConfigEffect, NetworkEffect, TemplateEffect;
      thrown := false;
      match cmd
      case Var(name, template) => ExecuteVar(name, template);
      case Config(cfg, group, param, action, value) =>
        thrown := ExecuteConfig(cfg, Key(group, param), action, value, dry);
      case Network(net, action) => thrown := ExecuteNetwork(net, action, dry);
      case FromTemplate(cfg, fill) => thrown := ExecuteFromTemplate(cfg, fill, dry);
      case _ =>
    }

    /** `run_commands`: the loop with the condition stack. */
    method RunCommands(cmds: seq<Command>, dry: bool) returns (outcome: Outcome)
      modifies this
      ensures outcome == Run(cmds, [], World(old(vars), old(files)), dry)
      ensures files == FilesOf(outcome) && (outcome.Finished? ==> vars == outcome.world.vars)
    {
      hide Execute, Eval;
      var stack: seq<Condition>, i := [], 0;
      while i < |cmds|
        invariant 0 <= i <= |cmds|
        invariant Run(cmds, [], World(old(vars), old(files)), dry) == Run(cmds[i..], stack, World(vars, files), dry)
      {
        var cmd := cmds[i];
        assert cmds[i..][1..] == cmds[i + 1..];
        i := i + 1;
        if cmd.If? {
          stack := stack + [cmd.cond];
          continue;
        }
        if cmd.EndIf? {
          if stack == [] { return Underflow(files); }
          stack := stack[..|stack| - 1];
          continue;
        }
        if |stack| > 0 {
          if Eval(stack[|stack| - 1], vars) {
            var thrown := ExecuteCommand(cmd, dry);
            if thrown { return Aborted(files); }
          }
        } else {
          var thrown := ExecuteCommand(cmd, dry);
          if thrown { return Aborted(files); }
        }
      }
      outcome := Finished(World(vars, files), stack);
    }
  }
}
