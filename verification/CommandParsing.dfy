/** From the lines of a setup file to commands, and back. */
module CommandParsing {
  import opened Text
  import opened ConfigLines
  import opened ConfigStore
  import opened ConfigActions
  import opened FileOps
  import opened Templates
  import opened Script

  // ---- Reading ----

  function Concat(tokens: seq<string>): string {
    if tokens == [] then "" else tokens[0] + Concat(tokens[1..])
  }

  /** Position of the first `==` or `!=`, or the length of the text. */
  function Comparator(s: string): (i: nat)
    ensures i <= |s| && (i < |s| ==> i + 2 <= |s|)
  {
    if |s| < 2 then |s|
    else if s[..2] == "==" || s[..2] == "!=" then 0
    else
      var i := Comparator(s[1..]);
      1 + i
  }

  /** The non-empty pieces between comparators. */
  function Operands(s: string): seq<string>
    decreases |s|
  {
    if s == "" then []
    else
      var i := Comparator(s);
      (if i == 0 then [] else [s[..i]]) + (if i == |s| then [] else Operands(s[i + 2..]))
  }

  /** An `if` command from its joined arguments; `!=` wins over `==`. */
  function ParseCondition(s: string): Option<Condition> {
    var op := if Contains(s, "!=") then NotEqual else if Contains(s, "==") then Equal else IsSet;
    var args := Operands(s);
    if op == IsSet then if |args| == 1 then Some(Condition(IsSet, args[0], "")) else None
    else if |args| == 2 then Some(Condition(op, args[0], args[1])) else None
  }

  function ParseAction(token: string): Option<Action> {
    if token == "default" then Some(Default)
    else if token == "ensure" then Some(Ensure)
    else if token == "get" then Some(Get)
    else None
  }

  /** The constructors of the commands: nothing when one throws or the command is unknown. */
  function ParseTokens(ts: seq<string>, templates: set<string>): Option<Command> {
    if ts == [] then None
    else if ts[0] == "if" then
      match ParseCondition(Concat(ts[1..]))
      case None => None
      case Some(c) => Some(If(c))
    else if ts[0] == "endif" then Some(EndIf)
    else if ts[0] == "var" then
      var sides := Tokens(Concat(ts[1..]), '=');
      if |sides| == 2 then Some(Var(sides[0], sides[1])) else None
    else if ts[0] == "config" then
      if |ts| <= 4 || (ts[1] != NODE && ts[1] !in templates) then None
      else
        match ParseAction(ts[4])
        case None => None
        case Some(action) => Some(Config(ts[1], ts[2], ts[3], action, if |ts| > 5 then ts[5] else ""))
    else if ts[0] == "network" then
      if |ts| <= 2 || ts[1] !in templates then None
      else if ts[2] == "check" then Some(Network(ts[1], NetCheck))
      else if |ts| < 4 || (ts[3] != "on" && ts[3] != "off") then None
      else if ts[2] == "default" then Some(Network(ts[1], NetDefault(ts[3] == "on")))
      else if ts[2] == "ensure" then Some(Network(ts[1], NetEnsure(ts[3] == "on")))
      else None
    else if ts[0] == "fromtemplate" then
      if |ts| <= 2 || (ts[1] != NODE && ts[1] !in templates) then None
      else
        var fill := if ts[2] == "default" then FromDefault else if ts[2] == "ensure" then FromEnsure else FromOther;
        Some(FromTemplate(ts[1], fill))
    else None
  }

  /** `parse_setup_file`: comments and blank lines are skipped, the first bad line stops everything. */
  function ParseLines(lines: seq<string>, templates: set<string>): Option<seq<Command>> {
    if lines == [] then Some([])
    else if Clean(lines[0]) == "" then ParseLines(lines[1..], templates)
    else
      var first := ParseTokens(Words(Clean(lines[0]), IsSpace), templates);
      if first.None? then None
      else
        var rest := ParseLines(lines[1..], templates);
        if rest.None? then None else Some([first.value] + rest.value)
  }

  function ParseSetup(text: string, templates: set<string>): Option<seq<Command>> {
    ParseLines(Load(text), templates)
  }

  /** The loop over the lines of the file. */
  method ParseSetupFile(text: string, templates: set<string>) returns (commands: Option<seq<Command>>)
    ensures commands == ParseSetup(text, templates)
  {
    hide ParseTokens, Words, Clean;
    var lines, parsed: seq<Command>, i := Load(text), [], 0;
    ghost var all := ParseLines(lines, templates);
    assert lines[0..] == lines && (all.Some? ==> parsed + all.value == all.value);
    while i < |lines|
      invariant 0 <= i <= |lines|
      invariant ParseLines(lines, templates) ==
        match ParseLines(lines[i..], templates) case None => None case Some(rest) => Some(parsed + rest)
    {
      assert lines[i..][1..] == lines[i + 1..];
      var line := Clean(lines[i]);
      i := i + 1;
      if line == "" { continue; }
      var cmd := ParseTokens(Words(line, IsSpace), templates);
      if cmd.None? { return None; }
      ghost var rest := ParseLines(lines[i..], templates);
      assert rest.Some? ==> parsed + ([cmd.value] + rest.value) == parsed + [cmd.value] + rest.value;
      parsed := parsed + [cmd.value];
    }
    assert lines[i..] == [] && parsed + [] == parsed;
    commands := Some(parsed);
  }

  // ---- Writing ----

  function ActionToken(action: Action): string {
    match action
    case Default => "default"
    case Ensure => "ensure"
    case Get => "get"
  }

  function StateToken(on: bool): string { if on then "on" else "off" }

  function FillToken(fill: TemplateAction): string {
    match fill
    case FromDefault => "default"
    case FromEnsure => "ensure"
    case FromOther => "populate"
  }

  function TokensOf(cmd: Command): seq<string> {
    match cmd
    case If(Condition(Equal, a, b)) => ["if", a, "==", b]
    case If(Condition(NotEqual, a, b)) => ["if", a, "!=", b]
    case If(Condition(IsSet, a, _)) => ["if", a]
    case EndIf => ["endif"]
    case Var(name, template) => ["var", name, "=", template]
    case Config(cfg, group, param, action, value) =>
      ["config", cfg, group, param, ActionToken(action)] + (if value == "" then [] else [value])
    case Network(net, NetDefault(on)) => ["network", net, "default", StateToken(on)]
    case Network(net, NetEnsure(on)) => ["network", net, "ensure", StateToken(on)]
    case Network(net, NetCheck) => ["network", net, "check"]
    case FromTemplate(cfg, fill) => ["fromtemplate", cfg, FillToken(fill)]
  }

  /** `represent`: every token followed by a space. */
  function Represent(ts: seq<string>): string {
    if ts == [] then "" else Represent(ts[..|ts| - 1]) + ts[|ts| - 1] + " "
  }

  predicate Word(s: string) { s != "" && Unbroken(s, IsSpace) && '#' !in s }

  predicate Operand(s: string) { Word(s) && '=' !in s && '!' !in s }

  /** Commands whose arguments are words that the parser does not take apart. */
  predicate Writable(cmd: Command, templates: set<string>) {
    match cmd
    case If(Condition(IsSet, a, b)) => Operand(a) && b == ""
    case If(Condition(_, a, b)) => Operand(a) && Operand(b)
    case EndIf => true
    case Var(name, template) => Word(name) && Word(template) && '=' !in name && '=' !in template
    case Config(cfg, group, param, _, value) =>
      Word(cfg) && Word(group) && Word(param) && (value == "" || Word(value)) && (cfg == NODE || cfg in templates)
    case Network(net, _) => Word(net) && net in templates
    case FromTemplate(cfg, _) => Word(cfg) && (cfg == NODE || cfg in templates)
  }

  // ---- Round trip ----

  lemma {:induction false} NoComparator(s: string)
    requires '=' !in s
    ensures Comparator(s) == |s| && !Contains(s, "==") && !Contains(s, "!=")
  {
    forall i | 0 <= i <= |s| ensures !("==" <= s[i..]) && !("!=" <= s[i..]) {
      if i + 2 <= |s| { assert s[i..][1] == s[i + 1] && s[i + 1] in s; }
    }
    if |s| >= 2 {
      assert s[..2][1] == s[1] && s[1] in s;
      NoComparator(s[1..]);
    }
  }

  lemma {:induction false} ComparatorAfter(a: string, rest: string)
    requires '=' !in a && '!' !in a && |rest| >= 2 && (rest[..2] == "==" || rest[..2] == "!=")
    ensures Comparator(a + rest) == |a|
    decreases |a|
  {
    var s := a + rest;
    if a == "" {
      assert s == rest;
    } else {
      assert s[0] == a[0] && a[0] in a && s[..2][0] == s[0];
      assert s[1..] == a[1..] + rest;
      ComparatorAfter(a[1..], rest);
    }
  }

  lemma OperandsOfComparison(a: string, comparator: string, b: string)
    requires Operand(a) && Operand(b) && (comparator == "==" || comparator == "!=")
    ensures Operands(a + comparator + b) == [a, b]
  {
    hide Word, Comparator, Contains;
    assert a != "" && b != "" by { IsWord(a); IsWord(b); }
    var s := a + comparator + b;
    assert s == a + (comparator + b) && (comparator + b)[..2] == comparator;
    ComparatorAfter(a, comparator + b);
    NoComparator(b);
    assert s[..|a|] == a && s[|a| + 2..] == b && b[..|b|] == b;
    assert Operands(b) == [b];
  }

  lemma ConditionReadsBack(a: string, op: Comparison, b: string)
    requires Operand(a) && Operand(b) && !op.IsSet?
    ensures ParseCondition(a + (if op == Equal then "==" else "!=") + b) == Some(Condition(op, a, b))
  {
    hide Word, Operands;
    var comparator := if op == Equal then "==" else "!=";
    var s := a + comparator + b;
    OperandsOfComparison(a, comparator, b);
    assert comparator <= s[|a|..];
    if op == Equal { NoBang(s); }
  }

  lemma NoBang(s: string)
    requires '!' !in s
    ensures !Contains(s, "!=")
  {
    forall i | 0 <= i <= |s| ensures !("!=" <= s[i..]) {
      if i + 2 <= |s| { assert s[i..][0] == s[i] && s[i] in s; }
    }
  }

  lemma OperandReadsBack(a: string)
    requires Operand(a)
    ensures ParseCondition(a) == Some(Condition(IsSet, a, ""))
  {
    NoComparator(a);
    assert a[..|a|] == a;
  }

  lemma ConcatOne(a: string)
    ensures Concat([a]) == a
  {
    assert Concat([a]) == a + Concat([a][1..]);
  }

  lemma ConcatThree(a: string, b: string, c: string)
    ensures Concat([a, b, c]) == a + b + c
  {
    assert [a, b, c][1..] == [b, c] && [b, c][1..] == [c];
    ConcatOne(c);
    assert Concat([a, b, c]) == a + (b + c);
  }

  lemma TokensReadBack(cmd: Command, templates: set<string>)
    requires Writable(cmd, templates)
    ensures ParseTokens(TokensOf(cmd), templates) == Some(cmd)
  {
    hide ParseCondition, Concat, Tokens, Unbroken;
    match cmd
    case If(Condition(op, a, b)) =>
      if op == IsSet {
        assert ["if", a][1..] == [a];
        ConcatOne(a);
        OperandReadsBack(a);
      } else {
        var comparator := if op == Equal then "==" else "!=";
        assert ["if", a, comparator, b][1..] == [a, comparator, b];
        ConcatThree(a, comparator, b);
        ConditionReadsBack(a, op, b);
      }
    case Var(name, template) =>
      assert ["var", name, "=", template][1..] == [name, "=", template];
      ConcatThree(name, "=", template);
      TokensOfSetting(name, template);
    case _ =>
  }

  lemma {:induction false} WordsOfRepresented(ts: seq<string>)
    requires forall i :: 0 <= i < |ts| ==> Word(ts[i])
    ensures Words(Represent(ts), IsSpace) == ts
    decreases |ts|
  {
    hide Words, Word;
    NoWords(IsSpace);
    if ts != [] {
      var front, last := ts[..|ts| - 1], ts[|ts| - 1];
      var r := Represent(front);
      WordsOfRepresented(front);
      IsWord(last);
      WordsAreUnbroken(last, IsSpace);
      WordsConcat(r + last, ' ', "", IsSpace);
      assert r + last + " " + "" == Represent(ts);
      if front == [] {
        assert r + last == last;
      } else {
        var y := r[..|r| - 1];
        assert r == y + " " + "" && r + last == y + " " + last;
        WordsConcat(y, ' ', "", IsSpace);
        WordsConcat(y, ' ', last, IsSpace);
      }
      assert front + [last] == ts;
    }
  }

  lemma IsWord(s: string)
    requires Word(s)
    ensures s != "" && Unbroken(s, IsSpace) && '#' !in s && '\n' !in s && !IsSpace(s[0])
  {
  }

  lemma {:induction false} WordsTrimmed(s: string)
    ensures Words(TrimRight(s), IsSpace) == Words(s, IsSpace)
  {
    if EndsWithSpace(s) { WordsTrimmed(s[..|s| - 1]); }
  }

  lemma {:induction false} RepresentedIsClean(ts: seq<string>)
    requires ts != [] && forall i :: 0 <= i < |ts| ==> Word(ts[i])
    ensures var r := Represent(ts); '#' !in r && '\n' !in r && r != "" && !IsSpace(r[0])
    decreases |ts|
  {
    hide Word, IsSpace;
    var front, last := ts[..|ts| - 1], ts[|ts| - 1];
    IsWord(last);
    if front == [] {
      assert Represent(ts) == last + " ";
    } else {
      RepresentedIsClean(front);
    }
  }

  /** A line written from words is read as these words. */
  lemma RepresentReadsBack(ts: seq<string>)
    requires ts != [] && forall i :: 0 <= i < |ts| ==> Word(ts[i])
    ensures OneLine(Represent(ts)) && Clean(Represent(ts)) != ""
    ensures Words(Clean(Represent(ts)), IsSpace) == ts
  {
    hide Words, Word, Clean, TrimRight, Represent;
    RepresentedIsClean(ts);
    CleanAgain(Represent(ts));
    WordsTrimmed(Represent(ts));
    WordsOfRepresented(ts);
  }

  lemma TokensAreWords(cmd: Command, templates: set<string>)
    requires Writable(cmd, templates)
    ensures TokensOf(cmd) != [] && forall i :: 0 <= i < |TokensOf(cmd)| ==> Word(TokensOf(cmd)[i])
  {
    hide Word;
    KeywordsAreWords();
    ArgumentsAreWords();
  }

  lemma KeywordsAreWords()
    ensures Word("if") && Word("endif") && Word("var") && Word("config") && Word("network") && Word("fromtemplate")
  {
  }

  lemma ArgumentsAreWords()
    ensures Word("==") && Word("!=") && Word("=") && Word("on") && Word("off")
    ensures Word("default") && Word("ensure") && Word("get") && Word("check") && Word("populate")
  {
  }

  function WrittenLines(cmds: seq<Command>): seq<string> {
    seq(|cmds|, i requires 0 <= i < |cmds| => Represent(TokensOf(cmds[i])))
  }

  lemma {:induction false} LinesReadBack(cmds: seq<Command>, templates: set<string>)
    requires forall i :: 0 <= i < |cmds| ==> Writable(cmds[i], templates)
    ensures ParseLines(WrittenLines(cmds), templates) == Some(cmds)
    ensures forall i :: 0 <= i < |cmds| ==> OneLine(WrittenLines(cmds)[i])
    decreases |cmds|
  {
    hide Writable, TokensOf, Represent, ParseTokens, Words, Clean, Word;
    if cmds != [] {
      var lines := WrittenLines(cmds);
      assert lines[1..] == WrittenLines(cmds[1..]);
      TokensAreWords(cmds[0], templates);
      RepresentReadsBack(TokensOf(cmds[0]));
      TokensReadBack(cmds[0], templates);
      LinesReadBack(cmds[1..], templates);
      assert [cmds[0]] + cmds[1..] == cmds;
    }
  }

  /** Writing a script to a setup file and parsing it gives the script back. */
  lemma SetupFileRoundTrip(cmds: seq<Command>, templates: set<string>)
    requires forall i :: 0 <= i < |cmds| ==> Writable(cmds[i], templates)
    ensures ParseSetup(Save(WrittenLines(cmds)), templates) == Some(cmds)
  {
    hide Writable, ParseLines, Represent, TokensOf;
    LinesReadBack(cmds, templates);
    LoadSave(WrittenLines(cmds));
  }

  // ---- Whole files: what is skipped, what is rejected ----

  /** What one line contributes: nothing if it is blank, else its command, if it has one. */
  function ParseLine(line: string, templates: set<string>): Option<seq<Command>> {
    if Clean(line) == "" then Some([])
    else
      match ParseTokens(Words(Clean(line), IsSpace), templates)
      case None => None
      case Some(cmd) => Some([cmd])
  }

  function Both(a: Option<seq<Command>>, b: Option<seq<Command>>): Option<seq<Command>> {
    if a.None? || b.None? then None else Some(a.value + b.value)
  }

  /** A file is parsed line by line: the parts of a file contribute their commands one after the other, and a part that
      does not parse spoils the whole. */
  lemma {:induction false} ParseConcat(a: seq<string>, b: seq<string>, templates: set<string>)
    ensures ParseLines(a + b, templates) == Both(ParseLines(a, templates), ParseLines(b, templates))
    decreases |a|
  {
    hide ParseTokens, Words, Clean;
    if a == [] {
      assert a + b == b;
      assert ParseLines(b, templates).Some? ==> [] + ParseLines(b, templates).value == ParseLines(b, templates).value;
    } else {
      assert (a + b)[0] == a[0] && (a + b)[1..] == a[1..] + b;
      ParseConcat(a[1..], b, templates);
      var first := ParseTokens(Words(Clean(a[0]), IsSpace), templates);
      var front, back := ParseLines(a[1..], templates), ParseLines(b, templates);
      if first.Some? && front.Some? && back.Some? {
        assert [first.value] + (front.value + back.value) == [first.value] + front.value + back.value;
      }
    }
  }

  lemma ParseOneLine(line: string, templates: set<string>)
    ensures ParseLines([line], templates) == ParseLine(line, templates)
  {
    hide ParseTokens, Words, Clean;
    assert [line][1..] == [] && ParseLines([], templates) == Some([]);
    var cmd := ParseTokens(Words(Clean(line), IsSpace), templates);
    assert cmd.Some? ==> [cmd.value] + [] == [cmd.value];
  }

  lemma ParseAround(a: seq<string>, line: string, b: seq<string>, templates: set<string>)
    ensures ParseLines(a + [line] + b, templates) ==
            Both(Both(ParseLines(a, templates), ParseLine(line, templates)), ParseLines(b, templates))
  {
    hide ParseLines, ParseLine;
    ParseConcat(a + [line], b, templates);
    ParseConcat(a, [line], templates);
    ParseOneLine(line, templates);
  }

  /** Blank lines and comment lines are skipped, wherever they stand, and reading goes on behind them. */
  lemma BlankLinesAreSkipped(a: seq<string>, space: string, comment: string, b: seq<string>, templates: set<string>)
    requires AllBlank(space)
    ensures ParseLines(a + [space] + b, templates) == ParseLines(a + b, templates)
    ensures ParseLines(a + [space + ("#" + comment)] + b, templates) == ParseLines(a + b, templates)
  {
    hide ParseLines, Clean, AllBlank;
    BlankOrComment(space, comment);
    ParseAround(a, space, b, templates);
    ParseAround(a, space + ("#" + comment), b, templates);
    ParseConcat(a, b, templates);
    forall x: seq<Command> ensures x + [] == x {}
  }

  /** A comment behind a command changes nothing. */
  lemma TrailingCommentIsIgnored(a: seq<string>, line: string, comment: string, b: seq<string>, templates: set<string>)
    requires '#' !in line
    ensures ParseLines(a + [line + ("#" + comment)] + b, templates) == ParseLines(a + [line] + b, templates)
  {
    hide ParseLines, Clean, Words, ParseTokens, TrimLeft, TrimRight;
    CommentIsCut(line, comment);
    CleanWithoutComment(line);
    WordsTrimmed(TrimLeft(line));
    ParseAround(a, line, b, templates);
    ParseAround(a, line + ("#" + comment), b, templates);
  }

  lemma CleanWithoutComment(line: string)
    requires '#' !in line
    ensures Clean(line) == TrimRight(TrimLeft(line))
    ensures Clean(line) == "" <==> TrimLeft(line) == ""
  {
    hide TrimLeft, TrimRight, IndexOf;
    TrimEitherEndFirst(line);
    var t := Trim(line);
    assert '#' !in t by { if '#' in t { TrimInside(line, '#'); } }
    assert t[..|t|] == t;
    if t == "" && TrimLeft(line) != "" { TrimRightDropsSpace(TrimLeft(line)); }
    if TrimLeft(line) == "" { TrimRightOfSpace(""); }
  }

  /** Indentation changes nothing. */
  lemma {:induction false} IndentationChangesNothing(wide: seq<string>, lines: seq<string>, templates: set<string>)
    requires |wide| == |lines| && forall i :: 0 <= i < |lines| ==> Framed(wide[i], lines[i])
    ensures ParseLines(wide, templates) == ParseLines(lines, templates)
    decreases |lines|
  {
    hide ParseTokens, Words, Clean, Framed;
    if lines != [] {
      CleanFramed(wide[0], lines[0]);
      IndentationChangesNothing(wide[1..], lines[1..], templates);
    }
  }

  lemma WordsOfLine(line: string)
    requires '#' !in line
    ensures Words(Clean(line), IsSpace) == Words(line, IsSpace)
  {
    hide Words, Clean, TrimLeft, TrimRight;
    CleanWithoutComment(line);
    WordsTrimmed(TrimLeft(line));
    WordsWithoutIndent(line);
  }

  /** The words of a command may be any white space apart. */
  lemma GapsChangeNothing(a: string, gap: string, b: string, templates: set<string>)
    requires gap != "" && AllBlank(gap) && '#' !in a && '#' !in b
    ensures ParseLine(a + gap + b, templates) == ParseLine(a + " " + b, templates)
  {
    hide Words, Clean, ParseTokens, AllBlank, IsSpace;
    BlanksAreSpaces(gap);
    BlanksAreNoSeparators(gap);
    SpaceIsOne();
    var wide, line := a + gap + b, a + " " + b;
    WordsOfLine(wide);
    WordsOfLine(line);
    WordsAcross(a, gap, b, IsSpace);
    WordsAcross(a, " ", b, IsSpace);
    NothingToRead(wide);
    NothingToRead(line);
  }

  lemma SpaceIsOne()
    ensures IsSpace(' ')
  {
  }

  lemma NothingToRead(line: string)
    ensures Clean(line) == "" <==> Words(Clean(line), IsSpace) == []
  {
    hide Clean;
    var s := Clean(line);
    if s != "" { HasAWord(s); }
  }

  lemma {:induction false} HasAWord(s: string)
    requires s != "" && !IsSpace(s[0])
    ensures Words(s, IsSpace) != []
    decreases |s|
  {
    if IsSpace(s[|s| - 1]) { HasAWord(s[..|s| - 1]); }
  }

  /** A file is rejected exactly when some line of it that is not blank is no command. */
  lemma {:induction false} RejectedIff(lines: seq<string>, templates: set<string>)
    ensures ParseLines(lines, templates).None? <==> exists line :: line in lines && ParseLine(line, templates).None?
  {
    hide ParseTokens, Words, Clean;
    if lines != [] {
      RejectedIff(lines[1..], templates);
      assert forall line :: line in lines <==> line == lines[0] || line in lines[1..];
      assert ParseLines(lines, templates).None? <==>
        ParseLine(lines[0], templates).None? || ParseLines(lines[1..], templates).None?;
    }
  }

  // ---- Which tokens make a command ----

  /** The configuration or network that a command names is known. */
  predicate Known(cmd: Command, templates: set<string>) {
    match cmd
    case Config(cfg, _, _, _, _) => cfg == NODE || cfg in templates
    case Network(net, _) => net in templates
    case FromTemplate(cfg, _) => cfg == NODE || cfg in templates
    case _ => true
  }

  /** The tokens spell the command; further ones are ignored. */
  predicate Spells(ts: seq<string>, cmd: Command) {
    match cmd
    case Config(_, _, _, _, value) => if value == "" then ts == TokensOf(cmd) else TokensOf(cmd) <= ts
    case FromTemplate(cfg, FromOther) =>
      |ts| > 2 && ts[..2] == ["fromtemplate", cfg] && ts[2] != "default" && ts[2] != "ensure"
    case _ => TokensOf(cmd) <= ts
  }

  /** Tokens that are no condition and no assignment are taken as a command exactly when they spell it and what it names
      is known; with any other tokens its constructor throws, or there is no such command. */
  lemma ParsesIff(ts: seq<string>, cmd: Command, templates: set<string>)
    requires (forall i :: 0 <= i < |ts| ==> ts[i] != "") && !cmd.If? && !cmd.Var?
    ensures ParseTokens(ts, templates) == Some(cmd) <==> Spells(ts, cmd) && Known(cmd, templates)
  {
    hide ParseCondition, Concat, Tokens;
    if Spells(ts, cmd) && Known(cmd, templates) { SpelledParses(ts, cmd, templates); }
    if ParseTokens(ts, templates) == Some(cmd) { ParsedSpells(ts, cmd, templates); }
  }

  lemma SpelledParses(ts: seq<string>, cmd: Command, templates: set<string>)
    requires !cmd.If? && !cmd.Var? && Spells(ts, cmd) && Known(cmd, templates)
    ensures ParseTokens(ts, templates) == Some(cmd)
  {
    hide ParseCondition, Concat, Tokens;
    var all := TokensOf(cmd);
    if cmd.FromTemplate? && cmd.fill == FromOther {
      assert ts[..2][0] == ts[0] && ts[..2][1] == ts[1];
    } else {
      assert forall i :: 0 <= i < |all| ==> ts[i] == all[i];
    }
  }

  lemma ParsedSpells(ts: seq<string>, cmd: Command, templates: set<string>)
    requires (forall i :: 0 <= i < |ts| ==> ts[i] != "") && !cmd.If? && !cmd.Var?
    requires ParseTokens(ts, templates) == Some(cmd)
    ensures Spells(ts, cmd) && Known(cmd, templates)
  {
    hide ParseCondition, Concat, Tokens;
    match cmd
    case Config(cfg, group, param, action, value) =>
      var all := TokensOf(cmd);
      assert |all| <= |ts| && forall i :: 0 <= i < |all| ==> ts[i] == all[i];
    case FromTemplate(cfg, fill) =>
      assert ts[..2] == ["fromtemplate", cfg];
    case _ =>
  }

  /** Only `if` opens a condition, and only `var` assigns. */
  lemma KeywordDecides(ts: seq<string>, templates: set<string>)
    ensures var cmd := ParseTokens(ts, templates);
      && (cmd.Some? && cmd.value.If? ==> ts != [] && ts[0] == "if")
      && (cmd.Some? && cmd.value.Var? ==> ts != [] && ts[0] == "var")
  {
    hide ParseCondition, Concat, Tokens;
  }

  /** Pieces with a separator between every two of them. */
  function Joined(pieces: seq<string>, between: seq<string>): string
    requires |pieces| == |between| + 1
    decreases |pieces|
  {
    if between == [] then pieces[0] else pieces[0] + between[0] + Joined(pieces[1..], between[1..])
  }

  function NonEmpty(pieces: seq<string>): seq<string> {
    if pieces == [] then [] else (if pieces[0] == "" then [] else [pieces[0]]) + NonEmpty(pieces[1..])
  }

  /** The sides of an assignment are what is not empty between its `=`; it is taken exactly when there are two. */
  lemma AssignmentParses(ts: seq<string>, sides: seq<string>, between: seq<string>, templates: set<string>)
    requires ts != [] && ts[0] == "var" && |sides| == |between| + 1 && Concat(ts[1..]) == Joined(sides, between)
    requires (forall i :: 0 <= i < |sides| ==> '=' !in sides[i]) && forall i :: 0 <= i < |between| ==> between[i] == "="
    ensures var parts := NonEmpty(sides);
      ParseTokens(ts, templates) == if |parts| == 2 then Some(Var(parts[0], parts[1])) else None
  {
    hide Concat, Tokens, Joined, NonEmpty, ParseCondition;
    SidesOfJoined(sides, between);
  }

  lemma {:induction false} SidesOfJoined(sides: seq<string>, between: seq<string>)
    requires |sides| == |between| + 1 && (forall i :: 0 <= i < |sides| ==> '=' !in sides[i])
    requires forall i :: 0 <= i < |between| ==> between[i] == "="
    ensures Tokens(Joined(sides, between), '=') == NonEmpty(sides)
    decreases |sides|
  {
    hide Tokens;
    if between == [] {
      TokensNoSep(sides[0], '=');
      assert sides[1..] == [];
    } else {
      TokensCons(sides[0], '=', Joined(sides[1..], between[1..]));
      SidesOfJoined(sides[1..], between[1..]);
    }
  }

  predicate IsComparator(s: string) { s == "==" || s == "!=" }

  /** The operands of a condition are what is not empty between its comparators. It is taken exactly when there are two
      of them, or one if there is no comparator; one `!=` makes it an inequality. */
  lemma ConditionParses(ts: seq<string>, pieces: seq<string>, between: seq<string>, templates: set<string>)
    requires ts != [] && ts[0] == "if" && |pieces| == |between| + 1 && Concat(ts[1..]) == Joined(pieces, between)
    requires forall i :: 0 <= i < |pieces| ==> '=' !in pieces[i] && '!' !in pieces[i]
    requires forall i :: 0 <= i < |between| ==> IsComparator(between[i])
    ensures var args := NonEmpty(pieces);
      ParseTokens(ts, templates) ==
      if between == [] then if |args| == 1 then Some(If(Condition(IsSet, args[0], ""))) else None
      else if |args| != 2 then None
      else Some(If(Condition(if "!=" in between then NotEqual else Equal, args[0], args[1])))
  {
    hide Concat, Operands, Joined, NonEmpty, Contains, IsComparator;
    OperandsOfJoined(pieces, between);
    ComparatorsOfJoined(pieces, between);
  }

  lemma {:induction false} OperandsOfJoined(pieces: seq<string>, between: seq<string>)
    requires |pieces| == |between| + 1 && (forall i :: 0 <= i < |pieces| ==> '=' !in pieces[i] && '!' !in pieces[i])
    requires forall i :: 0 <= i < |between| ==> IsComparator(between[i])
    ensures Operands(Joined(pieces, between)) == NonEmpty(pieces)
    decreases |pieces|
  {
    hide Comparator, Contains;
    var first := pieces[0];
    if between == [] {
      NoComparator(first);
      assert pieces[1..] == [] && first[..|first|] == first;
    } else {
      var rest := Joined(pieces[1..], between[1..]);
      var s := first + between[0] + rest;
      assert s == first + (between[0] + rest) && (between[0] + rest)[..2] == between[0];
      ComparatorAfter(first, between[0] + rest);
      assert s[..|first|] == first && s[|first| + 2..] == rest;
      OperandsOfJoined(pieces[1..], between[1..]);
      if rest == "" { assert Operands(rest) == []; }
    }
  }

  lemma {:induction false} ComparatorsOfJoined(pieces: seq<string>, between: seq<string>)
    requires |pieces| == |between| + 1 && (forall i :: 0 <= i < |pieces| ==> '=' !in pieces[i] && '!' !in pieces[i])
    requires forall i :: 0 <= i < |between| ==> IsComparator(between[i])
    ensures var s := Joined(pieces, between);
      && (Contains(s, "!=") <==> "!=" in between)
      && (between == [] ==> !Contains(s, "=="))
      && (between != [] && "!=" !in between ==> Contains(s, "=="))
    decreases |pieces|
  {
    hide Contains;
    if between == [] {
      NoComparator(pieces[0]);
    } else {
      var rest := Joined(pieces[1..], between[1..]);
      ComparatorsOfJoined(pieces[1..], between[1..]);
      assert between == [between[0]] + between[1..];
      ContainedHere(pieces[0], between[0], rest);
      if "!=" in between[1..] {
        ContainedBehind(pieces[0] + between[0], rest, "!=");
      } else if between[0] == "==" {
        NoBangJoined(pieces, between);
        NoBang(Joined(pieces, between));
      }
    }
  }

  lemma ContainedHere(front: string, word: string, rest: string)
    ensures Contains(front + word + rest, word)
  {
    assert word <= (front + word + rest)[|front|..];
  }

  lemma ContainedBehind(front: string, s: string, word: string)
    requires Contains(s, word)
    ensures Contains(front + s, word)
  {
    var i :| 0 <= i <= |s| && word <= s[i..];
    assert (front + s)[|front| + i..] == s[i..];
  }

  lemma {:induction false} NoBangJoined(pieces: seq<string>, between: seq<string>)
    requires |pieces| == |between| + 1 && forall i :: 0 <= i < |pieces| ==> '!' !in pieces[i]
    requires (forall i :: 0 <= i < |between| ==> IsComparator(between[i])) && "!=" !in between
    ensures '!' !in Joined(pieces, between)
    decreases |pieces|
  {
    if between != [] {
      assert between[0] in between && between[0] == "==";
      NoBangJoined(pieces[1..], between[1..]);
    }
  }
}
