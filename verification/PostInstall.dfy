/** The macOS post-install script: network configurations are backed up, overlaid by the package's own, restored,
    and, after the setup step, cleaned up so that the user's choices stand. */
module PostInstall {
  import opened Text

  /** The files of `etc/network`, by name. */
  type Directory = map<string, string>

  function Cfg(n: string): string { n + ".cfg" }

  function Dis(n: string): string { n + ".cfg.dis" }

  predicate IsCfg(file: string) { |file| >= 4 && file[|file| - 4..] == ".cfg" }

  predicate IsDis(file: string) { |file| >= 8 && file[|file| - 8..] == ".cfg.dis" }

  /** What `*` in a file pattern may start with. */
  predicate Visible(file: string) { file != "" && file[0] != '.' }

  /** The names matched by the pattern `*.cfg.dis.*`. */
  predicate Weird(file: string) {
    Visible(file) && Contains(file, ".cfg.dis.")
  }

  /** The configurations of a network without dots in its name are never odd; what follows a disabled one's name is. */
  lemma WeirdNames(n: string, suffix: string)
    requires Visible(n) && '.' !in n
    ensures !Weird(Cfg(n)) && !Weird(Dis(n)) && Weird(Dis(n) + "." + suffix)
  {
    NoDotsNoMatch(n, ".cfg");
    NoDotsNoMatch(n, ".cfg.dis");
    var file := Dis(n) + "." + suffix;
    assert file[|n|..] == ".cfg.dis." + suffix && ".cfg.dis." <= file[|n|..];
    assert file[0] == n[0];
  }

  lemma NoDotsNoMatch(n: string, tail: string)
    requires '.' !in n && |tail| < 9
    ensures !Weird(n + tail)
  {
    var file := n + tail;
    forall i | 0 <= i <= |file| ensures !(".cfg.dis." <= file[i..]) {
      if i < |n| {
        assert file[i..][0] == n[i] && n[i] in n;
      }
    }
  }

  lemma LastChars(file: string)
    ensures IsCfg(file) ==> file[|file| - 1] == 'g'
    ensures IsDis(file) ==> file[|file| - 1] == 's'
  {
    if IsCfg(file) { assert file[|file| - 4..][3] == file[|file| - 1]; }
    if IsDis(file) { assert file[|file| - 8..][7] == file[|file| - 1]; }
  }

  lemma NamesApart()
    ensures forall n, m :: Cfg(n) == Cfg(m) ==> n == m
    ensures forall n, m :: Dis(n) == Dis(m) ==> n == m
    ensures forall n, m :: Cfg(n) != Dis(m)
    ensures forall n :: IsDis(Dis(n)) && !IsDis(Cfg(n)) && IsCfg(Cfg(n)) && !IsCfg(Dis(n))
  {
    forall n, m ensures Cfg(n) == Cfg(m) ==> n == m {
      assert n == Cfg(n)[..|Cfg(n)| - 4] && m == Cfg(m)[..|Cfg(m)| - 4];
    }
    forall n, m ensures Dis(n) == Dis(m) ==> n == m {
      assert n == Dis(n)[..|Dis(n)| - 8] && m == Dis(m)[..|Dis(m)| - 8];
    }
    forall n, m ensures Cfg(n) != Dis(m) {
      assert Cfg(n)[|Cfg(n)| - 1] == 'g' && Dis(m)[|Dis(m)| - 1] == 's';
    }
    forall n ensures !IsDis(Cfg(n)) && !IsCfg(Dis(n)) {
      assert Cfg(n)[|Cfg(n)| - 1] == 'g' && Dis(n)[|Dis(n)| - 1] == 's';
      LastChars(Cfg(n));
      LastChars(Dis(n));
    }
  }

  lemma Apart(n: string, m: string)
    ensures Cfg(n) != Dis(m) && Dis(n) != Cfg(m)
    ensures n != m ==> Cfg(n) != Cfg(m) && Dis(n) != Dis(m)
  {
    NamesApart();
  }

  function DisName(file: string): (n: string)
    requires IsDis(file)
    ensures Dis(n) == file
  {
    file[..|file| - 8]
  }

  function CfgName(file: string): (n: string)
    requires IsCfg(file)
    ensures Cfg(n) == file
  {
    file[..|file| - 4]
  }

  // ---- The list of disabled networks, kept in one shell variable ----

  function Listed(names: seq<string>): string {
    if names == [] then "" else Listed(names[..|names| - 1]) + " " + names[|names| - 1]
  }

  /** Where the shell splits the value of an unquoted variable. */
  predicate Ifs(c: char) { c == ' ' || c == '\t' || c == '\n' }

  /** The words of the variable are the words of the names in it. */
  lemma {:induction false} WordsOfListed(names: seq<string>, w: string)
    ensures w in Words(Listed(names), Ifs) <==> exists n :: n in names && w in Words(n, Ifs)
    decreases |names|
  {
    hide Words;
    if names == [] {
      NoWords(Ifs);
    } else {
      var front, last := names[..|names| - 1], names[|names| - 1];
      WordsOfListed(front, w);
      WordsConcat(Listed(front), ' ', last, Ifs);
      assert names == front + [last];
    }
  }

  /** No character that makes a word a file pattern. */
  predicate Literal(w: string) { '*' !in w && '?' !in w && '[' !in w }

  /** What the shell makes of a word: itself, unless it is a pattern; then the files of the working directory decide. */
  type Expansion = string -> seq<string>

  ghost predicate Shell(expand: Expansion) { forall w :: Literal(w) ==> expand(w) == [w] }

  function Expanded(expand: Expansion, words: seq<string>): seq<string> {
    if words == [] then [] else expand(words[0]) + Expanded(expand, words[1..])
  }

  /** What `for ... in ${...}` goes through. */
  function Unquoted(expand: Expansion, variable: string): seq<string> { Expanded(expand, Words(variable, Ifs)) }

  lemma {:induction false} InExpanded(expand: Expansion, words: seq<string>, x: string)
    ensures x in Expanded(expand, words) <==> exists w :: w in words && x in expand(w)
  {
    if words != [] { InExpanded(expand, words[1..], x); }
  }

  /** The loop over the variable goes through what each of the names in it expands to. */
  lemma UnquotedListed(expand: Expansion, names: seq<string>, x: string)
    ensures x in Unquoted(expand, Listed(names)) <==> exists n :: n in names && x in Unquoted(expand, n)
  {
    hide Words, Listed, Expanded;
    InExpanded(expand, Words(Listed(names), Ifs), x);
    forall n ensures x in Unquoted(expand, n) <==> exists w :: w in Words(n, Ifs) && x in expand(w) {
      InExpanded(expand, Words(n, Ifs), x);
    }
    forall w ensures w in Words(Listed(names), Ifs) <==> exists n :: n in names && w in Words(n, Ifs) {
      WordsOfListed(names, w);
    }
  }

  /** A name that is no pattern and holds no separator comes out as itself. */
  lemma UnquotedName(expand: Expansion, n: string)
    requires Shell(expand) && Literal(n) && n != "" && Unbroken(n, Ifs)
    ensures Unquoted(expand, n) == [n]
  {
    hide Words;
    WordsAreUnbroken(n, Ifs);
    assert Expanded(expand, [n]) == expand(n) + Expanded(expand, [n][1..]);
  }

  // ---- What the phases achieve ----

  /** The two directories agree on a file: both have it, with the same text, or neither does. */
  predicate Same(a: Directory, b: Directory, file: string) {
    (file in a <==> file in b) && (file in a ==> a[file] == b[file])
  }

  /** The files that are backed up. */
  function BackupOf(dir: Directory): Directory {
    map f | f in dir && Visible(f) && (IsCfg(f) || IsDis(f)) :: dir[f]
  }

  /** None of the files handled so far belongs to the same network. */
  ghost predicate Untouched(done: set<string>, file: string) {
    forall n :: (file == Cfg(n) || file == Dis(n)) ==> Cfg(n) !in done && Dis(n) !in done
  }

  /** Every network handled so far has the file, with the text, that the user had for it: the disabled one if there was
      one, else the enabled one, and not the other; everything else is as the package left it. */
  ghost predicate Restored(backup: Directory, done: set<string>, overlaid: Directory, dir: Directory)
    requires done <= backup.Keys
  {
    && (forall n :: Dis(n) in done ==> Same(dir, backup, Dis(n)) && Cfg(n) !in dir)
    && (forall n :: Cfg(n) in done && Dis(n) !in done ==> Same(dir, backup, Cfg(n)) && Dis(n) !in dir)
    && (forall f :: Untouched(done, f) ==> Same(dir, overlaid, f))
  }

  /** The shell lists a name before its own extensions: an enabled file comes before its disabled twin. */
  ghost predicate InListingOrder(backup: Directory, done: set<string>) {
    forall n :: Dis(n) in done && Cfg(n) in backup ==> Cfg(n) in done
  }

  predicate IsNext(file: string, remaining: set<string>) {
    IsDis(file) ==> Cfg(DisName(file)) !in remaining
  }

  lemma SomeFileIsNext(remaining: set<string>)
    requires remaining != {}
    ensures exists file :: file in remaining && IsNext(file, remaining)
  {
    var file :| file in remaining;
    NamesApart();
    if !IsNext(file, remaining) { assert IsNext(Cfg(DisName(file)), remaining); }
  }

  lemma ListingGoesOn(backup: Directory, done: set<string>, file: string)
    requires InListingOrder(backup, done) && IsNext(file, backup.Keys - done)
    ensures InListingOrder(backup, done + {file})
  {
    hide Cfg, Dis, IsDis;
    NamesApart();
  }

  ghost predicate Remembers(names: seq<string>, done: set<string>) {
    forall n :: n in names <==> Dis(n) in done
  }

  /** No visible network has both files. */
  ghost predicate NoTwins(dir: Directory) {
    forall n :: Visible(Dis(n)) ==> !(Cfg(n) in dir && Dis(n) in dir)
  }

  lemma RestoreDis(backup: Directory, done: set<string>, overlaid: Directory, dir: Directory, n: string)
    requires done <= backup.Keys && Restored(backup, done, overlaid, dir) && Dis(n) in backup
    ensures Restored(backup, done + {Dis(n)}, overlaid, dir[Dis(n) := backup[Dis(n)]] - {Cfg(n)})
  {
    hide Cfg, Dis;
    forall m ensures m != n ==> Cfg(m) !in {Cfg(n), Dis(n)} && Dis(m) !in {Cfg(n), Dis(n)} { Apart(m, n); }
    Apart(n, n);
    forall f | Untouched(done + {Dis(n)}, f) ensures Untouched(done, f) && f != Cfg(n) && f != Dis(n) {}
  }

  lemma RestoreCfg(backup: Directory, done: set<string>, overlaid: Directory, dir: Directory, n: string)
    requires done <= backup.Keys && Restored(backup, done, overlaid, dir) && Cfg(n) in backup && Dis(n) !in done
    ensures Restored(backup, done + {Cfg(n)}, overlaid, dir[Cfg(n) := backup[Cfg(n)]] - {Dis(n)})
  {
    hide Cfg, Dis;
    forall m ensures m != n ==> Cfg(m) !in {Cfg(n), Dis(n)} && Dis(m) !in {Cfg(n), Dis(n)} { Apart(m, n); }
    Apart(n, n);
    forall f | Untouched(done + {Cfg(n)}, f) ensures Untouched(done, f) && f != Cfg(n) && f != Dis(n) {}
  }

  lemma NothingRestored(backup: Directory, dir: Directory)
    ensures backup.Keys - backup.Keys == {}
    ensures Restored(backup, {}, dir, dir) && InListingOrder(backup, {})
  {
  }

  lemma ListedOneMore(names: seq<string>, n: string)
    ensures Listed(names + [n]) == Listed(names) + " " + n
  {
    assert (names + [n])[..|names|] == names;
  }

  /** The enabled files that have a visible disabled twin. */
  function Twins(dir: Directory): set<string> {
    set f | f in dir && Visible(f) && IsDis(f) :: Cfg(DisName(f))
  }

  /** A network that has to stay disabled loses its enabled file: to nothing if it has a disabled one, else to that. */
  function EnforceOne(dir: Directory, n: string): Directory {
    if Cfg(n) !in dir then dir
    else if Dis(n) in dir then dir - {Cfg(n)}
    else (dir - {Cfg(n)})[Dis(n) := dir[Cfg(n)]]
  }

  function EnforceAll(dir: Directory, names: seq<string>): Directory
    decreases |names|
  {
    if names == [] then dir else EnforceAll(EnforceOne(dir, names[0]), names[1..])
  }

  function Tidied(dir: Directory): Directory {
    map f | f in dir && !Weird(f) :: dir[f]
  }

  lemma RemovingTwins(dir: Directory)
    ensures NoTwins(dir - Twins(dir))
    ensures forall n :: Same(dir - Twins(dir), dir, Dis(n))
    ensures forall n :: Cfg(n) in dir - Twins(dir) <==> Cfg(n) in dir && !(Visible(Dis(n)) && Dis(n) in dir)
  {
    hide Cfg, Dis, IsDis, Visible;
    NamesApart();
    forall n ensures Cfg(n) in Twins(dir) <==> Visible(Dis(n)) && Dis(n) in dir {
      if Visible(Dis(n)) && Dis(n) in dir { assert DisName(Dis(n)) == n; }
    }
    forall n ensures Dis(n) !in Twins(dir) {}
  }

  /** The text that a network has when it has to be disabled. */
  function OffText(dir: Directory, n: string): string
    requires Dis(n) in dir || Cfg(n) in dir
  {
    if Dis(n) in dir then dir[Dis(n)] else dir[Cfg(n)]
  }

  lemma {:induction false} EnforcedNetworks(dir: Directory, names: seq<string>, n: string)
    ensures var last := EnforceAll(dir, names);
      if n in names then
        && Cfg(n) !in last && (Dis(n) in last <==> Dis(n) in dir || Cfg(n) in dir)
        && (Dis(n) in last ==> last[Dis(n)] == OffText(dir, n))
      else Same(last, dir, Cfg(n)) && Same(last, dir, Dis(n))
    decreases |names|
  {
    hide Cfg, Dis;
    if names != [] {
      Apart(n, names[0]);
      EnforcedNetworks(EnforceOne(dir, names[0]), names[1..], n);
      assert names == [names[0]] + names[1..];
    }
  }

  /** What the last phases make of the directory that the setup step leaves. */
  function CleanedUp(dir: Directory, names: seq<string>): Directory {
    var enforced := EnforceAll(dir, names);
    Tidied(enforced - Twins(enforced))
  }

  /** After the last phases a network is enabled exactly if it was, is not listed, had no visible disabled file and no
      odd name; it is disabled exactly if it was, or is listed and was enabled, and has no odd name. Texts are kept. */
  lemma CleanedUpNetworks(dir: Directory, names: seq<string>, n: string)
    ensures NoTwins(CleanedUp(dir, names))
    ensures var last := CleanedUp(dir, names);
      && (Cfg(n) in last <==> Cfg(n) in dir && n !in names && !UserDisabled(dir, n) && !Weird(Cfg(n)))
      && (Cfg(n) in last ==> last[Cfg(n)] == dir[Cfg(n)])
      && (Dis(n) in last <==> (Dis(n) in dir || (n in names && Cfg(n) in dir)) && !Weird(Dis(n)))
      && (Dis(n) in last ==> last[Dis(n)] == OffText(dir, n))
  {
    hide Cfg, Dis, Weird, Visible, Twins, EnforceAll;
    EnforcedNetworks(dir, names, n);
    RemovingTwins(EnforceAll(dir, names));
  }

  predicate UserEnabled(dir: Directory, n: string) { Visible(Cfg(n)) && Cfg(n) in dir && Dis(n) !in dir }

  predicate UserDisabled(dir: Directory, n: string) { Visible(Dis(n)) && Dis(n) in dir }

  /** A network that the package brings and the user did not have. */
  predicate Brought(dir: Directory, install: Directory, n: string) {
    Visible(n) && Cfg(n) !in dir && Dis(n) !in dir && (Cfg(n) in install || Dis(n) in install)
  }

  /** The loop over the disabled networks comes across this name: as one of them, or as a word of one, or as a file that
      one of them matches. */
  ghost predicate Swept(expand: Expansion, dir: Directory, n: string) {
    exists m :: UserDisabled(dir, m) && n in Unquoted(expand, m)
  }

  /** A setup step that leaves every network where it is, if it is anywhere; it may count on no network having both
      files. */
  ghost predicate KeepsPlaces(setup: Directory -> Directory, networks: iset<string>) {
    forall d, n :: NoTwins(d) && n in networks && (Cfg(n) in d || Dis(n) in d) ==>
      (Cfg(n) in setup(d) <==> Cfg(n) in d) && (Dis(n) in setup(d) <==> Dis(n) in d)
  }

  /** A setup step that changes the text of a file only in the given way. */
  ghost predicate KeepsTexts(setup: Directory -> Directory, networks: iset<string>, keeps: (string, string) -> bool) {
    forall d, n :: NoTwins(d) && n in networks ==>
      && (Cfg(n) in d && Cfg(n) in setup(d) ==> keeps(d[Cfg(n)], setup(d)[Cfg(n)]))
      && (Dis(n) in d && Dis(n) in setup(d) ==> keeps(d[Dis(n)], setup(d)[Dis(n)]))
  }

  /** A setup step that has nothing to do with the file. */
  ghost predicate LeavesFile(setup: Directory -> Directory, f: string) { forall d :: Same(setup(d), d, f) }

  /** Files that are no network configurations. */
  predicate IsOther(f: string) { !IsCfg(f) && !IsDis(f) && !Weird(f) }

  lemma {:induction false} EnforceLeavesOthers(dir: Directory, names: seq<string>, f: string)
    requires IsOther(f)
    ensures Same(EnforceAll(dir, names), dir, f)
    decreases |names|
  {
    hide Cfg, Dis, IsCfg, IsDis, Weird;
    NamesApart();
    if names != [] { EnforceLeavesOthers(EnforceOne(dir, names[0]), names[1..], f); }
  }

  lemma CleanUpLeavesOthers(dir: Directory, names: seq<string>, f: string)
    requires IsOther(f)
    ensures Same(CleanedUp(dir, names), dir, f) && Same(dir - Twins(dir), dir, f)
  {
    hide Cfg, Dis, IsCfg, IsDis, Weird, Visible, EnforceAll;
    NamesApart();
    EnforceLeavesOthers(dir, names, f);
  }

  /** What is restored leaves a network that the user did not have, and other files, as the package left them. */
  lemma OthersUntouched(dir: Directory, f: string)
    requires !IsCfg(f) && !IsDis(f)
    ensures Untouched(BackupOf(dir).Keys, f)
  {
    hide Cfg, Dis, IsCfg, IsDis;
    NamesApart();
  }

  lemma NewUntouched(dir: Directory, n: string)
    requires Cfg(n) !in dir && Dis(n) !in dir
    ensures Untouched(BackupOf(dir).Keys, Cfg(n)) && Untouched(BackupOf(dir).Keys, Dis(n))
  {
    hide Cfg, Dis, IsCfg, IsDis;
    NamesApart();
  }

  lemma VisibleName(n: string)
    ensures Visible(Dis(n)) <==> Visible(n)
    ensures Visible(Cfg(n)) <==> Visible(n)
    ensures Visible(n) ==> n != ""
  {
    if n == "" { assert Dis(n)[0] == '.' && Cfg(n)[0] == '.'; } else { assert Dis(n)[0] == n[0] && Cfg(n)[0] == n[0]; }
  }

  /** A network that is enabled, and only that, when the setup step comes, stays so if it is not listed. */
  lemma StaysOn(restored: Directory, setup: Directory -> Directory, words: seq<string>, networks: iset<string>,
                keeps: (string, string) -> bool, n: string)
    requires KeepsPlaces(setup, networks) && n in networks && Cfg(n) in restored && Dis(n) !in restored
    requires !Weird(Cfg(n)) && n !in words
    ensures var last := CleanedUp(setup(restored - Twins(restored)), words);
      Cfg(n) in last && (KeepsTexts(setup, networks, keeps) ==> keeps(restored[Cfg(n)], last[Cfg(n)]))
  {
    hide Cfg, Dis, Weird, Visible, Twins, CleanedUp, NoTwins;
    RemovingTwins(restored);
    var before := restored - Twins(restored);
    assert Cfg(n) in before && Dis(n) !in before;
    CleanedUpNetworks(setup(before), words, n);
  }

  /** A network with a visible disabled file when the setup step comes stays disabled. */
  lemma StaysOff(restored: Directory, setup: Directory -> Directory, words: seq<string>, networks: iset<string>,
                 keeps: (string, string) -> bool, n: string)
    requires KeepsPlaces(setup, networks) && n in networks && UserDisabled(restored, n) && !Weird(Dis(n))
    ensures var last := CleanedUp(setup(restored - Twins(restored)), words);
      Dis(n) in last && (KeepsTexts(setup, networks, keeps) ==> keeps(restored[Dis(n)], last[Dis(n)]))
  {
    hide Cfg, Dis, Weird, Visible, Twins, CleanedUp, NoTwins;
    RemovingTwins(restored);
    var before := restored - Twins(restored);
    assert Same(before, restored, Dis(n));
    CleanedUpNetworks(setup(before), words, n);
  }

  /** One course of the script: what it starts from, and what it has when the backup is restored. */
  datatype Course = Course(start: Directory, install: Directory, setup: Directory -> Directory, expand: Expansion,
                           restored: Directory, names: seq<string>)
  {
    ghost predicate Valid() {
      && Restored(BackupOf(start), BackupOf(start).Keys, start + install, restored)
      && Remembers(names, BackupOf(start).Keys) && Shell(expand)
    }

    function Words(): seq<string> { Unquoted(expand, Listed(names)) }

    function End(): Directory { CleanedUp(setup(restored - Twins(restored)), Words()) }
  }

  lemma RemembersDisabled(run: Course, n: string)
    requires run.Valid()
    ensures n in run.names <==> UserDisabled(run.start, n)
  {
    hide Cfg, Dis, IsCfg, IsDis, Visible, Restored;
    NamesApart();
  }

  lemma SweptIsListed(run: Course, n: string)
    requires run.Valid()
    ensures n in run.Words() <==> Swept(run.expand, run.start, n)
  {
    hide Unquoted, Listed, UserDisabled, Course.Valid;
    UnquotedListed(run.expand, run.names, n);
    forall m ensures m in run.names <==> UserDisabled(run.start, m) { RemembersDisabled(run, m); }
  }

  lemma DisabledIsEnforced(run: Course, n: string)
    requires run.Valid() && UserDisabled(run.start, n) && Unbroken(n, Ifs) && Literal(n)
    ensures Cfg(n) !in run.End()
  {
    hide Cfg, Dis, Visible, Weird, Twins, Unquoted, Listed, CleanedUp, Unbroken, Literal, Restored;
    VisibleName(n);
    UnquotedName(run.expand, n);
    SweptIsListed(run, n);
    CleanedUpNetworks(run.setup(run.restored - Twins(run.restored)), run.Words(), n);
  }

  lemma EnabledStays(run: Course, networks: iset<string>, keeps: (string, string) -> bool, n: string)
    requires run.Valid() && KeepsPlaces(run.setup, networks) && n in networks
    requires UserEnabled(run.start, n) && !Weird(Cfg(n)) && !Swept(run.expand, run.start, n)
    ensures Cfg(n) in run.End()
    ensures KeepsTexts(run.setup, networks, keeps) ==> keeps(run.start[Cfg(n)], run.End()[Cfg(n)])
  {
    hide Cfg, Dis, IsCfg, IsDis, Visible, Weird, Twins, CleanedUp, KeepsPlaces, KeepsTexts, Swept, Course.Words;
    NamesApart();
    SweptIsListed(run, n);
    assert Same(run.restored, run.start, Cfg(n)) && Dis(n) !in run.restored;
    StaysOn(run.restored, run.setup, run.Words(), networks, keeps, n);
  }

  lemma DisabledStays(run: Course, networks: iset<string>, keeps: (string, string) -> bool, n: string)
    requires run.Valid() && KeepsPlaces(run.setup, networks) && n in networks
    requires UserDisabled(run.start, n) && !Weird(Dis(n))
    ensures Dis(n) in run.End()
    ensures KeepsTexts(run.setup, networks, keeps) ==> keeps(run.start[Dis(n)], run.End()[Dis(n)])
  {
    hide Cfg, Dis, IsCfg, IsDis, Visible, Weird, Twins, CleanedUp, KeepsPlaces, KeepsTexts, Course.Words;
    NamesApart();
    assert Same(run.restored, run.start, Dis(n));
    StaysOff(run.restored, run.setup, run.Words(), networks, keeps, n);
  }

  lemma BroughtIsInstalled(run: Course, n: string)
    requires run.Valid() && Brought(run.start, run.install, n)
    ensures Same(run.restored, run.install, Cfg(n)) && Same(run.restored, run.install, Dis(n)) && Visible(Dis(n))
  {
    hide Cfg, Dis, Visible, Untouched;
    NewUntouched(run.start, n);
    assert Same(run.restored, run.start + run.install, Cfg(n)) && Same(run.restored, run.start + run.install, Dis(n));
    VisibleName(n);
  }

  lemma BroughtEnabled(run: Course, networks: iset<string>, keeps: (string, string) -> bool, n: string)
    requires run.Valid() && KeepsPlaces(run.setup, networks) && n in networks && Brought(run.start, run.install, n)
    requires Cfg(n) in run.install && Dis(n) !in run.install && !Weird(Cfg(n)) && !Swept(run.expand, run.start, n)
    ensures Cfg(n) in run.End()
    ensures KeepsTexts(run.setup, networks, keeps) ==> keeps(run.install[Cfg(n)], run.End()[Cfg(n)])
  {
    hide Cfg, Dis, Visible, Weird, Twins, CleanedUp, KeepsPlaces, KeepsTexts, Swept, Course.Valid, Course.Words;
    BroughtIsInstalled(run, n);
    SweptIsListed(run, n);
    StaysOn(run.restored, run.setup, run.Words(), networks, keeps, n);
  }

  lemma BroughtDisabled(run: Course, networks: iset<string>, keeps: (string, string) -> bool, n: string)
    requires run.Valid() && KeepsPlaces(run.setup, networks) && n in networks && Brought(run.start, run.install, n)
    requires Dis(n) in run.install && !Weird(Dis(n))
    ensures Dis(n) in run.End()
    ensures KeepsTexts(run.setup, networks, keeps) ==> keeps(run.install[Dis(n)], run.End()[Dis(n)])
  {
    hide Cfg, Dis, Visible, Weird, Twins, CleanedUp, KeepsPlaces, KeepsTexts, Course.Valid, Course.Words;
    BroughtIsInstalled(run, n);
    StaysOff(run.restored, run.setup, run.Words(), networks, keeps, n);
  }

  lemma OthersStay(run: Course, f: string)
    requires run.Valid() && IsOther(f) && LeavesFile(run.setup, f)
    ensures Same(run.End(), run.start + run.install, f)
  {
    hide Cfg, Dis, Twins, CleanedUp, Untouched, Course.Words;
    var before := run.restored - Twins(run.restored);
    OthersUntouched(run.start, f);
    CleanUpLeavesOthers(run.restored, [], f);
    CleanUpLeavesOthers(run.setup(before), run.Words(), f);
    assert Same(run.setup(before), before, f);
  }

  lemma OnlyTidy(dir: Directory, names: seq<string>)
    ensures forall f :: f in CleanedUp(dir, names) ==> !Weird(f)
  {
    hide Weird, Twins, EnforceAll;
  }

  lemma OneFile(dir: Directory, n: string)
    requires NoTwins(dir) && (Visible(Cfg(n)) || Visible(Dis(n)) || Visible(n))
    ensures !(Cfg(n) in dir && Dis(n) in dir)
  {
    VisibleName(n);
  }

  class Installer {
    var dir: Directory
    var disabled: string

    /** Restores the backup over the overlaid files, in the order of a listing, and remembers the disabled networks. */
    method Restore(backup: Directory) returns (ghost names: seq<string>)
      requires forall f :: f in backup ==> IsCfg(f) || IsDis(f)
      modifies this
      ensures Restored(backup, backup.Keys, old(dir), dir)
      ensures disabled == Listed(names) && Remembers(names, backup.Keys)
    {
      hide Cfg, Dis, IsCfg, IsDis, Restored, IsNext;
      NamesApart();
      disabled := "";
      names := [];
      var remaining := backup.Keys;
      NothingRestored(backup, dir);
      while remaining != {}
        invariant remaining <= backup.Keys
        invariant Restored(backup, backup.Keys - remaining, old(dir), dir)
        invariant InListingOrder(backup, backup.Keys - remaining)
        invariant disabled == Listed(names) && Remembers(names, backup.Keys - remaining)
      {
        SomeFileIsNext(remaining);
        var file :| file in remaining && IsNext(file, remaining);
        ghost var done := backup.Keys - remaining;
        assert backup.Keys - done == remaining;
        ListingGoesOn(backup, done, file);
        if IsDis(file) {
          var n := DisName(file);
          RestoreDis(backup, done, old(dir), dir, n);
          dir := dir[file := backup[file]];
          disabled := disabled + " " + n;
          ListedOneMore(names, n);
          names := names + [n];
          if Cfg(n) in dir { dir := dir - {Cfg(n)}; } else { assert dir - {Cfg(n)} == dir; }
        } else {
          var n := CfgName(file);
          RestoreCfg(backup, done, old(dir), dir, n);
          dir := dir[file := backup[file]];
          if Dis(n) in dir { dir := dir - {Dis(n)}; } else { assert dir - {Dis(n)} == dir; }
        }
        remaining := remaining - {file};
        assert backup.Keys - remaining == done + {file};
      }
      assert backup.Keys - {} == backup.Keys;
    }

    /** Removes the enabled file of every network that has a disabled one. */
    method RemoveTwins()
      modifies this`dir
      ensures dir == old(dir) - Twins(old(dir))
    {
      hide Cfg, Dis, IsDis, Visible;
      NamesApart();
      ghost var before := dir;
      ghost var gone: set<string> := {};
      var remaining := set f | f in dir && Visible(f) && IsDis(f);
      ghost var all := remaining;
      while remaining != {}
        invariant remaining <= all
        invariant gone == (set f | f in all - remaining :: Cfg(DisName(f)))
        invariant dir == before - gone
      {
        var file :| file in remaining;
        var n := DisName(file);
        if Cfg(n) in dir { dir := dir - {Cfg(n)}; }
        gone := gone + {Cfg(n)};
        assert (all - (remaining - {file})) == (all - remaining) + {file};
        remaining := remaining - {file};
        assert dir == before - gone;
      }
      assert gone == Twins(before);
    }

    /** Keeps the user's disabled networks disabled. */
    method Enforce(expand: Expansion)
      modifies this`dir
      ensures dir == EnforceAll(old(dir), Unquoted(expand, disabled))
    {
      hide Cfg, Dis, Unquoted;
      var names := Unquoted(expand, disabled);
      var i := 0;
      while i < |names|
        invariant 0 <= i <= |names|
        invariant EnforceAll(old(dir), names) == EnforceAll(dir, names[i..])
      {
        assert names[i..][1..] == names[i + 1..];
        var cfg, dis := Cfg(names[i]), Dis(names[i]);
        if cfg in dir && dis in dir {
          dir := dir - {cfg};
        } else if cfg in dir && dis !in dir {
          dir := (dir - {cfg})[dis := dir[cfg]];
        }
        i := i + 1;
      }
    }

    method RemoveWeird()
      modifies this`dir
      ensures dir == Tidied(old(dir))
    {
      hide Weird;
      ghost var before := dir;
      var remaining := set f | f in dir && Weird(f);
      while remaining != {}
        invariant forall f :: f in remaining ==> f in dir && Weird(f)
        invariant forall f :: f in dir ==> f in before && dir[f] == before[f]
        invariant forall f :: f in before && f !in dir ==> Weird(f)
        invariant forall f :: f in dir && Weird(f) ==> f in remaining
      {
        var file :| file in remaining;
        dir := dir - {file};
        remaining := remaining - {file};
      }
      assert dir == Tidied(before);
    }

    /** The whole script, for any package content and any behaviour of the setup step, which is run on a directory where
        no visible network has both files, and cleaned up after. No visible network ends with both files, and no network
        that the user had disabled ends enabled, if its name holds no separator and is no pattern. If the setup step
        leaves networks where they are, those that the user had enabled end enabled, unless the loop over the disabled
        ones comes across them, and those that the user had disabled keep their file; the networks that the user did not
        have are as the package brings them, disabled if it brings both files. If the setup step changes texts only in a
        given way, the text of each of them has changed only in that way. Other files are the package's, or else the
        user's, and none with an odd name is left. */
    method PostInstall(install: Directory, setup: Directory -> Directory, expand: Expansion,
                       ghost networks: iset<string>, ghost keeps: (string, string) -> bool)
      requires Shell(expand)
      modifies this
      ensures NoTwins(dir)
      ensures exists d :: NoTwins(d) && dir == CleanedUp(setup(d), Unquoted(expand, disabled))
      ensures forall n :: UserDisabled(old(dir), n) && Unbroken(n, Ifs) && Literal(n) ==> Cfg(n) !in dir
      ensures KeepsPlaces(setup, networks) ==>
        forall n :: n in networks && UserEnabled(old(dir), n) && !Weird(Cfg(n)) && !Swept(expand, old(dir), n) ==>
          Cfg(n) in dir && (KeepsTexts(setup, networks, keeps) ==> keeps(old(dir)[Cfg(n)], dir[Cfg(n)]))
      ensures KeepsPlaces(setup, networks) ==>
        forall n :: n in networks && UserDisabled(old(dir), n) && !Weird(Dis(n)) ==>
          Dis(n) in dir && (KeepsTexts(setup, networks, keeps) ==> keeps(old(dir)[Dis(n)], dir[Dis(n)]))
      ensures KeepsPlaces(setup, networks) ==>
        forall n :: n in networks && Brought(old(dir), install, n) && Cfg(n) in install && Dis(n) !in install &&
                    !Weird(Cfg(n)) && !Swept(expand, old(dir), n) ==>
          Cfg(n) in dir && (KeepsTexts(setup, networks, keeps) ==> keeps(install[Cfg(n)], dir[Cfg(n)]))
      ensures KeepsPlaces(setup, networks) ==>
        forall n :: n in networks && Brought(old(dir), install, n) && Dis(n) in install && !Weird(Dis(n)) ==>
          Dis(n) in dir && (KeepsTexts(setup, networks, keeps) ==> keeps(install[Dis(n)], dir[Dis(n)]))
      ensures forall f :: IsOther(f) && LeavesFile(setup, f) ==> Same(dir, old(dir) + install, f)
      ensures forall f :: f in dir ==> !Weird(f)
    {
      hide Cfg, Dis, Weird, Visible, Twins, EnforceAll, Tidied, Unbroken, Literal, Unquoted, Listed, NoTwins;
      hide Restored, Remembers, Swept, KeepsPlaces, KeepsTexts, IsOther, LeavesFile, IsCfg, IsDis;
      ghost var start := dir;
      var backup := BackupOf(dir);
      dir := dir + install;
      ghost var names := Restore(backup);
      ghost var restored := dir;
      RemoveTwins();
      RemovingTwins(restored);
      assert NoTwins(dir);
      dir := setup(dir);
      ghost var afterSetup := dir;
      Enforce(expand);
      RemoveTwins();
      RemoveWeird();
      ghost var run := Course(start, install, setup, expand, restored, names);
      assert dir == run.End() && run.Valid();
      CleanedUpNetworks(afterSetup, Unquoted(expand, disabled), "");
      OnlyTidy(afterSetup, Unquoted(expand, disabled));
      hide Course.Valid, Course.End;
      forall n | UserDisabled(start, n) && Unbroken(n, Ifs) && Literal(n) ensures Cfg(n) !in dir {
        DisabledIsEnforced(run, n);
      }
      forall f | IsOther(f) && LeavesFile(setup, f) ensures Same(dir, start + install, f) { OthersStay(run, f); }
      if KeepsPlaces(setup, networks) {
        forall n | n in networks && UserEnabled(start, n) && !Weird(Cfg(n)) && !Swept(expand, start, n)
          ensures Cfg(n) in dir && (KeepsTexts(setup, networks, keeps) ==> keeps(start[Cfg(n)], dir[Cfg(n)]))
        {
          EnabledStays(run, networks, keeps, n);
        }
        forall n | n in networks && UserDisabled(start, n) && !Weird(Dis(n))
          ensures Dis(n) in dir && (KeepsTexts(setup, networks, keeps) ==> keeps(start[Dis(n)], dir[Dis(n)]))
        {
          DisabledStays(run, networks, keeps, n);
        }
        forall n | n in networks && Brought(start, install, n) && Cfg(n) in install && Dis(n) !in install &&
                   !Weird(Cfg(n)) && !Swept(expand, start, n)
          ensures Cfg(n) in dir && (KeepsTexts(setup, networks, keeps) ==> keeps(install[Cfg(n)], dir[Cfg(n)]))
        {
          BroughtEnabled(run, networks, keeps, n);
        }
        forall n | n in networks && Brought(start, install, n) && Dis(n) in install && !Weird(Dis(n))
          ensures Dis(n) in dir && (KeepsTexts(setup, networks, keeps) ==> keeps(install[Dis(n)], dir[Dis(n)]))
        {
          BroughtDisabled(run, networks, keeps, n);
        }
      }
    }
  }

  /** The condition on separators is exact: the last phases keep a listed network whose name is no pattern disabled,
      whatever the setup step has left and whatever patterns expand to, exactly when its name holds no separator. */
  lemma DisabledStaysIff(names: seq<string>, n: string)
    requires n in names && Visible(n) && Literal(n) && !Weird(Cfg(n))
    ensures (forall expand, dir :: Shell(expand) ==> Cfg(n) !in CleanedUp(dir, Unquoted(expand, Listed(names))))
            <==> ' ' !in n && '\t' !in n && '\n' !in n
  {
    hide Cfg, Dis, Weird, Visible, Unquoted, Listed, CleanedUp;
    VisibleName(n);
    SeparatorFree(n);
    if Unbroken(n, Ifs) {
      forall expand, dir | Shell(expand) ensures Cfg(n) !in CleanedUp(dir, Unquoted(expand, Listed(names))) {
        UnquotedName(expand, n);
        UnquotedListed(expand, names, n);
        CleanedUpNetworks(dir, Unquoted(expand, Listed(names)), n);
      }
    } else {
      BrokenNameEscapes(names, n);
    }
  }

  lemma SeparatorFree(n: string)
    ensures Unbroken(n, Ifs) <==> ' ' !in n && '\t' !in n && '\n' !in n
  {
  }

  /** With no pattern to match, a listed name that holds a separator is never come across. */
  lemma BrokenNameEscapes(names: seq<string>, n: string)
    requires Visible(n) && !Unbroken(n, Ifs) && !Weird(Cfg(n))
    ensures var expand: Expansion := w => [w];
      Shell(expand) && Cfg(n) in CleanedUp(map[Cfg(n) := ""], Unquoted(expand, Listed(names)))
  {
    hide Cfg, Dis, Weird, Visible, Listed, CleanedUp, Words;
    var expand: Expansion, words := w => [w], Words(Listed(names), Ifs);
    InExpanded(expand, words, n);
    WordsAreUnbroken(Listed(names), Ifs);
    Apart(n, n);
    CleanedUpNetworks(map[Cfg(n) := ""], Expanded(expand, words), n);
  }
}
