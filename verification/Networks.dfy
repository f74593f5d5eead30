/** Networks as pairs of files: `name.cfg` when enabled, `name.cfg.dis` when disabled. */
module Networks {
  import opened ConfigLines
  import opened ConfigActions
  import opened FileOps
  import opened Script

  function OnPath(b: string, n: string): string { ConfigPath(b, n, On) }

  function OffPathOf(b: string, n: string): string { ConfigPath(b, n, Off) }

  predicate HasOn(files: Files, b: string, n: string) { OnPath(b, n) in files }

  predicate HasOff(files: Files, b: string, n: string) { OffPathOf(b, n) in files }

  /** No network is enabled and disabled at once. */
  ghost predicate Exclusive(files: Files) {
    forall b, n :: NetworkName(n) ==> !(HasOn(files, b, n) && HasOff(files, b, n))
  }

  /** The configuration of a network, wherever it is. */
  function Content(files: Files, b: string, n: string): Option<string> {
    if HasOn(files, b, n) then Some(files[OnPath(b, n)])
    else if HasOff(files, b, n) then Some(files[OffPathOf(b, n)])
    else None
  }

  /** Commands on proper network names; templates are used for the node's own file only. */
  predicate NetworkSafe(op: FileOp) {
    match op
    case ConfigOp(_, name, _) => name == NODE || NetworkName(name)
    case NetworkOp(_, name, _) => name == NODE || NetworkName(name)
    case TemplateOp(_, name, _, _) => name == NODE
  }

  predicate NetworkSafeOps(ops: seq<FileOp>) { forall i :: 0 <= i < |ops| ==> NetworkSafe(ops[i]) }

  /** The operation is a `network` command for that network, under whatever base it was named. */
  predicate Concerns(op: FileOp, b: string, n: string) {
    op.NetworkOp? && NetworkName(op.name) && OnPath(op.base, op.name) == OnPath(b, n)
  }

  lemma SamePair(b: string, n: string, b': string, n': string)
    requires NetworkName(n)
    ensures OnPath(b, n) != OnPath(b', NODE) && OffPathOf(b, n) != OnPath(b', NODE)
    ensures NetworkName(n') ==> OnPath(b, n) != OffPathOf(b', n') && OffPathOf(b, n) != OnPath(b', n')
    ensures NetworkName(n') ==> (OnPath(b, n) == OnPath(b', n') <==> OffPathOf(b, n) == OffPathOf(b', n'))
    ensures OnPath(b', NODE) == OffPathOf(b', NODE)
  {
    PathsApart(b, n, b', n');
    if NetworkName(n') { PathsApart(b', n', b, n); }
  }

  /** Any other command leaves the place of a network alone, and only `config` can change its content. */
  lemma UnconcernedOp(files: Files, op: FileOp, b: string, n: string)
    requires NetworkSafe(op) && NetworkName(n) && !Concerns(op, b, n) && Effect(files, op, false).Some?
    ensures var next := Effect(files, op, false).value;
      && (HasOn(next, b, n) <==> HasOn(files, b, n)) && (HasOff(next, b, n) <==> HasOff(files, b, n))
      && (!op.ConfigOp? ==> Content(next, b, n) == Content(files, b, n))
  {
    hide ConfigPath, Apply, Populate;
    SamePair(b, n, op.base, op.name);
  }

  /** A `network` command on its network throws exactly when it has to make a file and there is no template. Else
      `default` acts only if there is no file; `ensure` moves the file, or makes one; nothing else changes, and the
      content stays. */
  lemma ConcernedOp(files: Files, op: FileOp, b: string, n: string)
    requires NetworkName(n) && Concerns(op, b, n)
    ensures Effect(files, op, false).None? <==>
      !op.action.NetCheck? && Content(files, b, n).None? && ConfigPath(op.base, op.name, Template) !in files
    ensures Effect(files, op, false).Some? ==>
      var next := Effect(files, op, false).value;
      && (op.action.NetDefault? && Content(files, b, n).Some? ==> next == files)
      && (op.action.NetDefault? && Content(files, b, n).None? ==>
           HasOn(next, b, n) == op.action.on && HasOff(next, b, n) == !op.action.on)
      && (op.action.NetCheck? ==> next == files)
      && (op.action == NetEnsure(true) ==>
           HasOn(next, b, n) && (HasOff(next, b, n) <==> HasOn(files, b, n) && HasOff(files, b, n)))
      && (op.action == NetEnsure(false) ==> HasOff(next, b, n) && !HasOn(next, b, n))
      && (Content(files, b, n).Some? ==> Content(next, b, n) == Content(files, b, n))
      && (Content(files, b, n).None? && !op.action.NetCheck? ==>
           && ConfigPath(op.base, op.name, Template) in files
           && Content(next, b, n) == Some(files[ConfigPath(op.base, op.name, Template)]))
  {
    hide ConfigPath;
    SamePair(b, n, op.base, op.name);
  }

  /** `ensure` leaves exactly the requested file, except for `ensure on` of a network that has both. */
  lemma EnsureIsExclusiveIff(files: Files, b: string, n: string, on: bool)
    requires NetworkName(n) && (Content(files, b, n).Some? || ConfigPath(b, n, Template) in files)
    ensures var after := Effect(files, NetworkOp(b, n, NetEnsure(on)), false);
      && after.Some?
      && (if on then HasOn(after.value, b, n) else HasOff(after.value, b, n))
      && (HasOn(after.value, b, n) && HasOff(after.value, b, n) <==> on && HasOn(files, b, n) && HasOff(files, b, n))
  {
    ConcernedOp(files, NetworkOp(b, n, NetEnsure(on)), b, n);
  }

  /** `fromtemplate` on a network ignores its disabled file: it leaves both files exactly when there was one. */
  lemma FromTemplateIsExclusiveIff(files: Files, b: string, n: string, fill: TemplateAction, vars: map<string, string>)
    requires NetworkName(n) && Effect(files, TemplateOp(b, n, fill, vars), false).Some?
    ensures var next := Effect(files, TemplateOp(b, n, fill, vars), false).value;
      HasOn(next, b, n) && (HasOff(next, b, n) <==> HasOff(files, b, n))
  {
    hide ConfigPath, Populate;
    SamePair(b, n, b, n);
  }

  lemma OpKeepsExclusive(files: Files, op: FileOp)
    requires NetworkSafe(op) && Exclusive(files) && Effect(files, op, false).Some?
    ensures Exclusive(Effect(files, op, false).value)
  {
    hide Effect, ConfigPath, OnPath, OffPathOf, HasOn, HasOff;
    var next := Effect(files, op, false).value;
    forall b, n | NetworkName(n) ensures !(HasOn(next, b, n) && HasOff(next, b, n)) {
      ContentMeans(files, b, n);
      if Concerns(op, b, n) { ConcernedOp(files, op, b, n); } else { UnconcernedOp(files, op, b, n); }
    }
  }

  lemma ContentMeans(files: Files, b: string, n: string)
    ensures Content(files, b, n).Some? <==> HasOn(files, b, n) || HasOff(files, b, n)
  {
  }

  /** From files where no network has both, no run makes one, wherever it stops. */
  lemma {:induction false} RunsKeepExclusive(files: Files, ops: seq<FileOp>)
    requires NetworkSafeOps(ops) && Exclusive(files)
    ensures Exclusive(Effects(files, ops, false).files)
    decreases |ops|
  {
    hide Effect, Exclusive, NetworkSafe;
    if ops != [] && Effect(files, ops[0], false).Some? {
      OpKeepsExclusive(files, ops[0]);
      RunsKeepExclusive(Effect(files, ops[0], false).value, ops[1..]);
    }
  }

  /** A network that has a configuration never loses it, and `network` commands never change it. */
  lemma {:induction false} RunsKeepContent(files: Files, ops: seq<FileOp>, b: string, n: string)
    requires NetworkSafeOps(ops) && NetworkName(n) && Content(files, b, n).Some?
    ensures var last := Effects(files, ops, false).files;
      && Content(last, b, n).Some?
      && ((forall i :: 0 <= i < |ops| ==> !ops[i].ConfigOp?) ==> Content(last, b, n) == Content(files, b, n))
    decreases |ops|
  {
    hide Effect, NetworkSafe, HasOn, HasOff, OnPath, OffPathOf;
    if ops != [] && Effect(files, ops[0], false).Some? {
      var next := Effect(files, ops[0], false).value;
      ContentMeans(files, b, n);
      ContentMeans(next, b, n);
      if Concerns(ops[0], b, n) { ConcernedOp(files, ops[0], b, n); } else { UnconcernedOp(files, ops[0], b, n); }
      RunsKeepContent(next, ops[1..], b, n);
    }
  }

  /** The last `ensure` for a network. */
  function LastEnsure(ops: seq<FileOp>, b: string, n: string): Option<bool> {
    if ops == [] then None
    else
      var later := LastEnsure(ops[1..], b, n);
      if later.None? && Concerns(ops[0], b, n) && ops[0].action.NetEnsure? then Some(ops[0].action.on) else later
  }

  /** The place of a network is fixed by the last executed `ensure`; without one, a place once taken is kept. */
  lemma {:induction false} LastEnsureDecides(files: Files, ops: seq<FileOp>, b: string, n: string)
    requires NetworkSafeOps(ops) && NetworkName(n) && Effects(files, ops, false).Done?
    ensures var last := Effects(files, ops, false).files;
      match LastEnsure(ops, b, n)
      case None => Content(files, b, n).Some? ==>
        (HasOn(last, b, n) <==> HasOn(files, b, n)) && (HasOff(last, b, n) <==> HasOff(files, b, n))
      case Some(on) => !(HasOn(files, b, n) && HasOff(files, b, n)) ==>
        HasOn(last, b, n) == on && HasOff(last, b, n) == !on
    decreases |ops|
  {
    hide Effect, NetworkSafe, HasOn, HasOff, OnPath, OffPathOf;
    if ops != [] {
      var next := Effect(files, ops[0], false).value;
      ContentMeans(files, b, n);
      ContentMeans(next, b, n);
      if Concerns(ops[0], b, n) { ConcernedOp(files, ops[0], b, n); } else { UnconcernedOp(files, ops[0], b, n); }
      LastEnsureDecides(next, ops[1..], b, n);
    }
  }

  /** Without `ensure`, the place of a network that has a configuration stays what it is, wherever the run stops. */
  lemma {:induction false} NoEnsureKeepsPlace(files: Files, ops: seq<FileOp>, b: string, n: string)
    requires NetworkSafeOps(ops) && NetworkName(n) && Content(files, b, n).Some?
    requires forall i :: 0 <= i < |ops| && ops[i].NetworkOp? ==> !ops[i].action.NetEnsure?
    ensures var last := Effects(files, ops, false).files;
      (HasOn(last, b, n) <==> HasOn(files, b, n)) && (HasOff(last, b, n) <==> HasOff(files, b, n))
    decreases |ops|
  {
    hide Effect, NetworkSafe, HasOn, HasOff, OnPath, OffPathOf;
    if ops != [] && Effect(files, ops[0], false).Some? {
      var next := Effect(files, ops[0], false).value;
      ContentMeans(files, b, n);
      ContentMeans(next, b, n);
      if Concerns(ops[0], b, n) { ConcernedOp(files, ops[0], b, n); } else { UnconcernedOp(files, ops[0], b, n); }
      NoEnsureKeepsPlace(next, ops[1..], b, n);
    }
  }

  /** The same for scripts: however a run ends, no network has both files if none had, and a configuration is never
      lost; after the last command, the last executed `ensure` has decided the place. */
  lemma ScriptsKeepNetworks(cmds: seq<Command>, w: World, b: string, n: string)
    requires NetworkSafeOps(PlanOf(cmds, [], w.vars).ops) && NetworkName(n) && Exclusive(w.files)
    ensures var outcome := Run(cmds, [], w, false);
      && Exclusive(FilesOf(outcome))
      && (Content(w.files, b, n).Some? ==> Content(FilesOf(outcome), b, n).Some?)
      && (outcome.Finished? ==>
           match LastEnsure(PlanOf(cmds, [], w.vars).ops, b, n)
           case Some(on) => HasOn(outcome.world.files, b, n) == on && HasOff(outcome.world.files, b, n) == !on
           case None => Content(w.files, b, n).Some? ==> HasOn(outcome.world.files, b, n) == HasOn(w.files, b, n))
  {
    hide PlanOf, Run, Effects, NetworkSafeOps, LastEnsure, Content, HasOn, HasOff;
    var ops := PlanOf(cmds, [], w.vars).ops;
    RunFollowsPlan(cmds, [], w, false);
    RunsKeepExclusive(w.files, ops);
    if Content(w.files, b, n).Some? { RunsKeepContent(w.files, ops, b, n); }
    if Effects(w.files, ops, false).Done? { LastEnsureDecides(w.files, ops, b, n); }
  }

  /** No operation of the plan moves a network. */
  predicate LeavesNetworks(cmds: seq<Command>, vars: map<string, string>) {
    var ops := PlanOf(cmds, [], vars).ops;
    NetworkSafeOps(ops) && forall i :: 0 <= i < |ops| && ops[i].NetworkOp? ==> !ops[i].action.NetEnsure?
  }

  /** A script without `network ... ensure` leaves a network that has a configuration enabled or disabled as it was. */
  lemma RunKeepsPlace(cmds: seq<Command>, w: World, b: string, n: string)
    requires LeavesNetworks(cmds, w.vars) && NetworkName(n) && Content(w.files, b, n).Some?
    ensures var last := FilesOf(Run(cmds, [], w, false));
      (HasOn(last, b, n) <==> HasOn(w.files, b, n)) && (HasOff(last, b, n) <==> HasOff(w.files, b, n))
  {
    hide PlanOf, Run, Effects, NetworkSafeOps, Content, HasOn, HasOff;
    RunFollowsPlan(cmds, [], w, false);
    NoEnsureKeepsPlace(w.files, PlanOf(cmds, [], w.vars).ops, b, n);
  }

  /** `network` commands on networks that all have a template. */
  predicate Provided(files: Files, op: FileOp) {
    op.NetworkOp? && NetworkName(op.name) && ConfigPath(op.base, op.name, Template) in files
  }

  lemma StaysProvided(files: Files, op: FileOp, other: FileOp)
    requires Provided(files, op) && Provided(files, other) && Effect(files, op, false).Some?
    ensures Provided(Effect(files, op, false).value, other)
  {
    hide ConfigPath, Effect;
    OpKeepsTemplates(files, op, other.base, other.name);
  }

  /** On an installation that has the templates, no sequence of `network` commands throws, and every network that one of
      them names with `default` or `ensure` ends with a configuration. */
  lemma {:induction false} ProvidedNetworksAreMade(files: Files, ops: seq<FileOp>, i: nat)
    requires i < |ops| && Provided(files, ops[i]) && !ops[i].action.NetCheck?
    requires forall j :: 0 <= j < |ops| ==> Provided(files, ops[j])
    ensures Effects(files, ops, false).Done?
    ensures Content(Effects(files, ops, false).files, ops[i].base, ops[i].name).Some?
    decreases |ops|
  {
    hide Effect, ConfigPath, Content, Provided;
    ProvidedNeverThrow(files, ops);
    ProvidedIsSafe(files, ops[0]);
    ProvidedIsSafe(files, ops[i]);
    ConcernedOp(files, ops[0], ops[0].base, ops[0].name);
    var next, rest := Effect(files, ops[0], false).value, ops[1..];
    forall j | 0 <= j < |rest| ensures Provided(next, rest[j]) && NetworkSafe(rest[j]) {
      StaysProvided(files, ops[0], rest[j]);
      ProvidedIsSafe(files, rest[j]);
    }
    if i == 0 {
      RunsKeepContent(next, rest, ops[0].base, ops[0].name);
    } else {
      ProvidedNetworksAreMade(next, rest, i - 1);
    }
  }

  lemma ProvidedIsSafe(files: Files, op: FileOp)
    requires Provided(files, op)
    ensures op.NetworkOp? && NetworkName(op.name) && NetworkSafe(op) && Concerns(op, op.base, op.name)
    ensures ConfigPath(op.base, op.name, Template) in files
  {
  }

  lemma {:induction false} ProvidedNeverThrow(files: Files, ops: seq<FileOp>)
    requires forall j :: 0 <= j < |ops| ==> Provided(files, ops[j])
    ensures Effects(files, ops, false).Done?
    decreases |ops|
  {
    hide Effect, ConfigPath, Provided;
    if ops != [] {
      ProvidedIsSafe(files, ops[0]);
      NetworkThrowsIff(files, ops[0].base, ops[0].name, ops[0].action);
      var next := Effect(files, ops[0], false).value;
      forall j | 0 <= j < |ops[1..]| ensures Provided(next, ops[1..][j]) { StaysProvided(files, ops[0], ops[1..][j]); }
      ProvidedNeverThrow(next, ops[1..]);
    }
  }

  // ---- Editing and toggling ----

  /** `config` commands for one network. */
  function Edits(b: string, n: string, steps: seq<Step>): seq<FileOp> {
    seq(|steps|, i requires 0 <= i < |steps| => ConfigOp(b, n, steps[i]))
  }

  predicate HasOne(files: Files, b: string, n: string) { HasOn(files, b, n) != HasOff(files, b, n) }

  function PathOf(files: Files, b: string, n: string): string {
    if HasOn(files, b, n) then OnPath(b, n) else OffPathOf(b, n)
  }

  /** `config` commands edit the text of the enabled file, or of the disabled one if there is no other, and nothing
      else; the node's only file counts as enabled. */
  lemma {:induction false} EditsWorkOnContent(files: Files, b: string, n: string, steps: seq<Step>)
    requires (n == NODE || NetworkName(n)) && Content(files, b, n).Some?
    ensures var path := PathOf(files, b, n);
      match ApplyAll(files[path], steps)
      case Some(text) => Effects(files, Edits(b, n, steps), false) == Done(files[path := text])
      case None => Effects(files, Edits(b, n, steps), false).Stopped?
    decreases |steps|
  {
    hide Apply, ConfigPath, NetworkName;
    NodeHasOnePath(b);
    var path, ops := PathOf(files, b, n), Edits(b, n, steps);
    assert path in files && path == ConfigTarget(files, b, n);
    if steps == [] {
      assert files[path := files[path]] == files;
    } else {
      assert ops[1..] == Edits(b, n, steps[1..]);
      var edited := Apply(files[path], steps[0]);
      if edited.Some? {
        var next := files[path := edited.value];
        assert PathOf(next, b, n) == path;
        EditsWorkOnContent(next, b, n, steps[1..]);
        var all := ApplyAll(next[path], steps[1..]);
        assert all.Some? ==> next[path := all.value] == files[path := all.value];
      }
    }
  }

  /** What `ensure` does to a network with one file: the text moves, or stays. */
  function Moved(files: Files, b: string, n: string, on: bool): Files
    requires HasOne(files, b, n)
  {
    var path, want := PathOf(files, b, n), if on then OnPath(b, n) else OffPathOf(b, n);
    if path == want then files else (files - {path})[want := files[path]]
  }

  lemma EnsureMoves(files: Files, b: string, n: string, on: bool)
    requires NetworkName(n) && HasOne(files, b, n)
    ensures Effect(files, NetworkOp(b, n, NetEnsure(on)), false) == Some(Moved(files, b, n, on))
    ensures HasOne(Moved(files, b, n, on), b, n) && HasOn(Moved(files, b, n, on), b, n) == on
  {
    SamePair(b, n, b, n);
    hide ConfigPath;
  }

  /** Toggling a network that has one file commutes with any sequence of edits to it: one order throws exactly when
      the other does, and both end with the same files. */
  lemma TogglingCommutesWithEditing(files: Files, b: string, n: string, on: bool, steps: seq<Step>)
    requires NetworkName(n) && HasOne(files, b, n)
    ensures var toggle, edits := [NetworkOp(b, n, NetEnsure(on))], Edits(b, n, steps);
      && (Effects(files, toggle + edits, false).Done? <==> Effects(files, edits + toggle, false).Done?)
      && (Effects(files, toggle + edits, false).Done? ==>
           Effects(files, toggle + edits, false) == Effects(files, edits + toggle, false))
  {
    hide Effect, ConfigPath, OnPath, OffPathOf, ApplyAll;
    var op := NetworkOp(b, n, NetEnsure(on));
    var toggle, edits, moved, path := [op], Edits(b, n, steps), Moved(files, b, n, on), PathOf(files, b, n);
    assert toggle[1..] == [];
    EnsureMoves(files, b, n, on);
    EffectsConcat(files, toggle, edits, false);
    EffectsConcat(files, edits, toggle, false);
    EditsWorkOnContent(files, b, n, steps);
    EditsWorkOnContent(moved, b, n, steps);
    var edited := ApplyAll(files[path], steps);
    if edited.Some? {
      var after := files[path := edited.value];
      EnsureMoves(after, b, n, on);
      assert Moved(after, b, n, on) == moved[PathOf(moved, b, n) := edited.value];
    }
  }
}
