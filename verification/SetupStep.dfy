/** The setup step of the installer is a run of the configuration tool: a script that never uses `network ... ensure`
    leaves every network where it is, and a setup script keeps the user's settings in it, which is what the installer
    relies on. */
module SetupStep {
  import opened CommandRuns
  import opened FileOps
  import opened Networks
  import opened Script
  import opened UserSettings
  import PostInstall

  function NetworkDir(b: string): string { b + "/etc/network/" }

  /** The files of a directory, at their paths. */
  function Embedded(b: string, d: PostInstall.Directory): Files {
    EmbeddingIsInjective(b);
    map f | f in d :: NetworkDir(b) + f := d[f]
  }

  lemma EmbeddingIsInjective(b: string)
    ensures forall f, g :: NetworkDir(b) + f == NetworkDir(b) + g ==> f == g
  {
    forall f, g ensures NetworkDir(b) + f == NetworkDir(b) + g ==> f == g {
      assert (NetworkDir(b) + f)[|NetworkDir(b)|..] == f && (NetworkDir(b) + g)[|NetworkDir(b)|..] == g;
    }
  }

  /** The files of a directory, by name. */
  function View(b: string, files: Files): PostInstall.Directory {
    var names := set path | path in files && NetworkDir(b) <= path :: path[|NetworkDir(b)|..];
    map f | f in names && NetworkDir(b) + f in files :: files[NetworkDir(b) + f]
  }

  lemma InView(b: string, files: Files, f: string)
    ensures f in View(b, files) <==> NetworkDir(b) + f in files
    ensures f in View(b, files) ==> View(b, files)[f] == files[NetworkDir(b) + f]
  {
    assert (NetworkDir(b) + f)[|NetworkDir(b)|..] == f;
  }

  /** What a run of the tool makes of the directory, the other files being `rest`. */
  function SetUp(cmds: seq<Command>, vars: map<string, string>, rest: Files, b: string, d: PostInstall.Directory)
    : PostInstall.Directory
  {
    View(b, FilesOf(Run(cmds, [], World(vars, rest + Embedded(b, d)), false)))
  }

  function SetupOf(cmds: seq<Command>, vars: map<string, string>, rest: Files, b: string)
    : PostInstall.Directory -> PostInstall.Directory
  {
    d => SetUp(cmds, vars, rest, b, d)
  }

  lemma Paths(b: string, n: string)
    requires NetworkName(n)
    ensures NetworkDir(b) + PostInstall.Cfg(n) == OnPath(b, n)
    ensures NetworkDir(b) + PostInstall.Dis(n) == OffPathOf(b, n)
  {
  }

  lemma InEmbedded(b: string, d: PostInstall.Directory, rest: Files, f: string)
    requires forall path :: path in rest ==> !(NetworkDir(b) <= path)
    ensures NetworkDir(b) + f in rest + Embedded(b, d) <==> f in d
    ensures f in d ==> (rest + Embedded(b, d))[NetworkDir(b) + f] == d[f]
  {
    EmbeddingIsInjective(b);
  }

  lemma SetupKeepsPlace(cmds: seq<Command>, vars: map<string, string>, rest: Files, b: string,
                        d: PostInstall.Directory, n: string)
    requires LeavesNetworks(cmds, vars) && NetworkName(n) && (PostInstall.Cfg(n) in d || PostInstall.Dis(n) in d)
    requires forall path :: path in rest ==> !(NetworkDir(b) <= path)
    ensures PostInstall.Cfg(n) in SetUp(cmds, vars, rest, b, d) <==> PostInstall.Cfg(n) in d
    ensures PostInstall.Dis(n) in SetUp(cmds, vars, rest, b, d) <==> PostInstall.Dis(n) in d
  {
    hide FilesOf, LeavesNetworks, Run, View, Embedded, PostInstall.Cfg, PostInstall.Dis, NetworkDir, OnPath, OffPathOf;
    var files := rest + Embedded(b, d);
    var last := FilesOf(Run(cmds, [], World(vars, files), false));
    Paths(b, n);
    InEmbedded(b, d, rest, PostInstall.Cfg(n));
    InEmbedded(b, d, rest, PostInstall.Dis(n));
    InView(b, last, PostInstall.Cfg(n));
    InView(b, last, PostInstall.Dis(n));
    RunKeepsPlace(cmds, World(vars, files), b, n);
  }

  /** A setup script without `network ... ensure` keeps the place of every network, however its run ends. */
  lemma SetupKeepsPlaces(cmds: seq<Command>, vars: map<string, string>, rest: Files, b: string)
    requires LeavesNetworks(cmds, vars)
    requires forall path :: path in rest ==> !(NetworkDir(b) <= path)
    ensures PostInstall.KeepsPlaces(SetupOf(cmds, vars, rest, b), iset n | NetworkName(n))
  {
    hide LeavesNetworks, SetUp, PostInstall.Cfg, PostInstall.Dis, NetworkDir;
    forall d, n | NetworkName(n) && (PostInstall.Cfg(n) in d || PostInstall.Dis(n) in d)
      ensures PostInstall.Cfg(n) in SetupOf(cmds, vars, rest, b)(d) <==> PostInstall.Cfg(n) in d
      ensures PostInstall.Dis(n) in SetupOf(cmds, vars, rest, b)(d) <==> PostInstall.Dis(n) in d
    {
      SetupKeepsPlace(cmds, vars, rest, b, d, n);
    }
  }

  /** The setup step does run the tool: `network ... default` in it makes a network that is not there from its template,
      in the requested place, and nothing else. */
  lemma SetupMakesNetwork(vars: map<string, string>, rest: Files, b: string, d: PostInstall.Directory, n: string,
                          on: bool)
    requires NetworkName(n) && ActsUnder(vars, b) && PostInstall.Cfg(n) !in d && PostInstall.Dis(n) !in d
    requires forall path :: path in rest ==> !(NetworkDir(b) <= path)
    requires b + "/share/configs/network/" + n + ".cfg" in rest
    ensures SetUp([Network(n, NetDefault(on))], vars, rest, b, d) ==
            d[if on then PostInstall.Cfg(n) else PostInstall.Dis(n) :=
              rest[b + "/share/configs/network/" + n + ".cfg"]]
  {
    hide View, Embedded, Run, NetworkDir, PostInstall.Cfg, PostInstall.Dis, ConfigPath;
    var files := rest + Embedded(b, d);
    var f := if on then PostInstall.Cfg(n) else PostInstall.Dis(n);
    var template := b + "/share/configs/network/" + n + ".cfg";
    Paths(b, n);
    NetworkPaths(b, n);
    InEmbedded(b, d, rest, PostInstall.Cfg(n));
    InEmbedded(b, d, rest, PostInstall.Dis(n));
    OutsideEmbedded(b, d, rest, template);
    NetworkCommandRuns(n, NetDefault(on), World(vars, files), b);
    ViewOfUpdate(b, d, rest, f, files[template]);
  }

  lemma OutsideEmbedded(b: string, d: PostInstall.Directory, rest: Files, path: string)
    requires path in rest && !(NetworkDir(b) <= path)
    ensures path in rest + Embedded(b, d) && (rest + Embedded(b, d))[path] == rest[path]
  {
    assert forall f :: NetworkDir(b) <= NetworkDir(b) + f;
  }

  lemma ViewOfUpdate(b: string, d: PostInstall.Directory, rest: Files, f: string, text: string)
    requires forall path :: path in rest ==> !(NetworkDir(b) <= path)
    ensures View(b, (rest + Embedded(b, d))[NetworkDir(b) + f := text]) == d[f := text]
  {
    hide View, Embedded, NetworkDir;
    var files := (rest + Embedded(b, d))[NetworkDir(b) + f := text];
    forall g ensures g in View(b, files) <==> g in d[f := text]
      ensures g in View(b, files) ==> View(b, files)[g] == d[f := text][g]
    {
      InView(b, files, g);
      InEmbedded(b, d, rest, g);
      EmbeddingIsInjective(b);
    }
  }

  /** What a setup script may change in a text: everything but the settings that it does not force. */
  ghost predicate SettingsKept(cmds: seq<Command>, vars: map<string, string>, before: string, after: string) {
    KeptText(before, after, Forced(PlanOf(cmds, [], vars).ops))
  }

  lemma SetupKeepsText(cmds: seq<Command>, vars: map<string, string>, rest: Files, b: string,
                       d: PostInstall.Directory, f: string)
    requires SetupScript(cmds, vars) && f in d && f in SetUp(cmds, vars, rest, b, d)
    requires forall path :: path in rest ==> !(NetworkDir(b) <= path)
    ensures SettingsKept(cmds, vars, d[f], SetUp(cmds, vars, rest, b, d)[f])
  {
    hide FilesOf, SetupScript, Run, PlanOf, Forced, View, Embedded, NetworkDir, KeptText;
    var files := rest + Embedded(b, d);
    var last := FilesOf(Run(cmds, [], World(vars, files), false));
    InEmbedded(b, d, rest, f);
    InView(b, last, f);
    SetupScriptsKeep(cmds, World(vars, files));
  }

  /** A setup script keeps the places of all networks and the settings in their files, however its run ends. */
  lemma SetupKeepsTexts(cmds: seq<Command>, vars: map<string, string>, rest: Files, b: string)
    requires SetupScript(cmds, vars)
    requires forall path :: path in rest ==> !(NetworkDir(b) <= path)
    ensures PostInstall.KeepsPlaces(SetupOf(cmds, vars, rest, b), iset n | NetworkName(n))
    ensures PostInstall.KeepsTexts(SetupOf(cmds, vars, rest, b), iset n | NetworkName(n),
                                   (x, y) => SettingsKept(cmds, vars, x, y))
  {
    hide SetupScript, SettingsKept, SetUp, LeavesNetworks, PostInstall.Cfg, PostInstall.Dis, NetworkDir;
    SetupScriptsLeaveNetworks(cmds, vars);
    SetupKeepsPlaces(cmds, vars, rest, b);
    forall d, f | f in d && f in SetUp(cmds, vars, rest, b, d)
      ensures SettingsKept(cmds, vars, d[f], SetUp(cmds, vars, rest, b, d)[f])
    {
      SetupKeepsText(cmds, vars, rest, b, d, f);
    }
  }

  ghost predicate EndsEnabled(expand: PostInstall.Expansion, d: PostInstall.Directory, n: string)
    ensures EndsEnabled(expand, d, n) ==> PostInstall.Cfg(n) in d
  {
    PostInstall.UserEnabled(d, n) && !PostInstall.Weird(PostInstall.Cfg(n)) && !PostInstall.Swept(expand, d, n)
  }

  ghost predicate EndsDisabled(d: PostInstall.Directory, n: string)
    ensures EndsDisabled(d, n) ==> PostInstall.Dis(n) in d
  {
    PostInstall.UserDisabled(d, n) && !PostInstall.Weird(PostInstall.Dis(n))
  }

  /** The package brings a network that the user did not have, enabled only. */
  ghost predicate ComesEnabled(expand: PostInstall.Expansion, d: PostInstall.Directory, install: PostInstall.Directory,
                               n: string)
    ensures ComesEnabled(expand, d, install, n) ==> PostInstall.Cfg(n) in install
  {
    && PostInstall.Brought(d, install, n) && PostInstall.Cfg(n) in install && PostInstall.Dis(n) !in install
    && !PostInstall.Weird(PostInstall.Cfg(n)) && !PostInstall.Swept(expand, d, n)
  }

  ghost predicate ComesDisabled(d: PostInstall.Directory, install: PostInstall.Directory, n: string)
    ensures ComesDisabled(d, install, n) ==> PostInstall.Dis(n) in install
  {
    PostInstall.Brought(d, install, n) && PostInstall.Dis(n) in install && !PostInstall.Weird(PostInstall.Dis(n))
  }

  /** The installer with a setup script as its setup step, for any package content and any other files: networks stay
      enabled or disabled as the user had them, new ones come as the package brings them, and every file keeps the
      settings that the script does not force. */
  method InstallWithTool(installer: PostInstall.Installer, install: PostInstall.Directory,
                         expand: PostInstall.Expansion, cmds: seq<Command>, vars: map<string, string>,
                         rest: Files, b: string)
    requires PostInstall.Shell(expand) && SetupScript(cmds, vars)
    requires forall path :: path in rest ==> !(NetworkDir(b) <= path)
    modifies installer
    ensures PostInstall.NoTwins(installer.dir)
    ensures exists d ::
      && PostInstall.NoTwins(d)
      && installer.dir ==
         PostInstall.CleanedUp(SetUp(cmds, vars, rest, b, d), PostInstall.Unquoted(expand, installer.disabled))
    ensures forall n :: NetworkName(n) && EndsEnabled(expand, old(installer.dir), n) ==>
      && PostInstall.Cfg(n) in installer.dir && PostInstall.Dis(n) !in installer.dir
      && SettingsKept(cmds, vars, old(installer.dir)[PostInstall.Cfg(n)], installer.dir[PostInstall.Cfg(n)])
    ensures forall n :: NetworkName(n) && EndsDisabled(old(installer.dir), n) ==>
      && PostInstall.Dis(n) in installer.dir && PostInstall.Cfg(n) !in installer.dir
      && SettingsKept(cmds, vars, old(installer.dir)[PostInstall.Dis(n)], installer.dir[PostInstall.Dis(n)])
    ensures forall n :: NetworkName(n) && ComesEnabled(expand, old(installer.dir), install, n) ==>
      && PostInstall.Cfg(n) in installer.dir && PostInstall.Dis(n) !in installer.dir
      && SettingsKept(cmds, vars, install[PostInstall.Cfg(n)], installer.dir[PostInstall.Cfg(n)])
    ensures forall n :: NetworkName(n) && ComesDisabled(old(installer.dir), install, n) ==>
      && PostInstall.Dis(n) in installer.dir && PostInstall.Cfg(n) !in installer.dir
      && SettingsKept(cmds, vars, install[PostInstall.Dis(n)], installer.dir[PostInstall.Dis(n)])
  {
    hide SetupScript, SettingsKept, SetUp, NetworkDir;
    hide PostInstall.Cfg, PostInstall.Dis, PostInstall.Visible, PostInstall.Weird, PostInstall.NoTwins;
    SetupKeepsTexts(cmds, vars, rest, b);
    installer.PostInstall(install, SetupOf(cmds, vars, rest, b), expand,
                          iset n | NetworkName(n), (x, y) => SettingsKept(cmds, vars, x, y));
    forall n | PostInstall.Visible(PostInstall.Cfg(n)) || PostInstall.Visible(PostInstall.Dis(n)) ||
               PostInstall.Visible(n)
      ensures !(PostInstall.Cfg(n) in installer.dir && PostInstall.Dis(n) in installer.dir)
    {
      PostInstall.OneFile(installer.dir, n);
    }
  }
}
