/** How one line of a configuration file is read, and which lines are read back as they were written. */
module ConfigLines {
  import opened Text

  datatype Option<+T> = None | Some(value: T)

  /** Why reading a line stops the program: no `=` where a setting is expected (an exception), or a line
      made only of `=`, whose missing first token is then used (undefined behaviour). */
  datatype Defect = NoEquals | NoToken

  datatype LineKind =
    | Blank
    | Header(name: string)
    | Setting(param: string, value: string)
    | Defective(defect: Defect)

  /** The text that the scanners look at: trimmed, then cut at the first `#`. */
  function Clean(line: string): (s: string)
    ensures '#' !in s
    ensures s != "" ==> !IsSpace(s[0])
  {
    var t := Trim(line);
    t[..IndexOf(t, '#')]
  }

  /** `is_group_decl` on the tokens of a line: the declared group name, if there is one. */
  function GroupDecl(ts: seq<string>): (name: Option<string>)
    requires ts != [] && ts[0] != ""
    ensures name.Some? ==> name.value != "" && Trimmed(name.value)
  {
    if |ts| > 1 || ts[0][0] != '[' then None
    else
      var name := Trim(ts[0][1..IndexOf(ts[0], ']')]);
      if name == "" then None else Some(name)
  }

  /** `parse_param_value` on the tokens of a line: the first one trimmed, the second one as it stands. */
  function ParamValue(ts: seq<string>): (kind: LineKind)
    requires ts != []
    ensures kind.Setting? && Trimmed(kind.param)
  {
    Setting(Trim(ts[0]), if |ts| < 2 then "" else ts[1])
  }

  /** What a line means to the scanners. */
  function KindOf(line: string): LineKind {
    var s := Clean(line);
    var ts := Tokens(s, '=');
    if s == "" then Blank
    else if ts == [] then Defective(NoToken)
    else if GroupDecl(ts).Some? then Header(GroupDecl(ts).value)
    else if '=' in s then ParamValue(ts)
    else Defective(NoEquals)
  }

  function HeaderLine(group: string): string { "[" + group + "]" }

  function SettingLine(param: string, value: string): string { param + "=" + value }

  /** The group names that survive being written as a header line. */
  predicate ReadableGroup(g: string) {
    g != "" && Trimmed(g) && '=' !in g && '#' !in g && ']' !in g
  }

  /** The parameter names that survive being written in front of a `=`. */
  predicate ReadableParam(p: string) {
    p != "" && Trimmed(p) && '=' !in p && '#' !in p
  }

  /** The pairs that survive being written as a setting line. */
  predicate ReadableSetting(p: string, v: string) {
    && ReadableParam(p)
    && '=' !in v && '#' !in v && !EndsWithSpace(v)
    && (v == "" ==> GroupDecl([p]) == None)
  }

  lemma CleanTight(s: string)
    requires Trimmed(s) && '#' !in s
    ensures Clean(s) == s
  {
  }

  lemma SpaceIsBlank(line: string)
    requires forall i :: 0 <= i < |line| ==> IsSpace(line[i])
    ensures KindOf(line) == Blank
  {
    TrimRightOfSpace(line);
  }

  lemma HeaderReadsBackIf(g: string)
    requires ReadableGroup(g)
    ensures KindOf(HeaderLine(g)) == Header(g)
  {
    var s := HeaderLine(g);
    CleanTight(s);
    assert s[..|g| + 1] == "[" + g;
    IndexOfAt(s, ']', |g| + 1);
    assert s[1..|g| + 1] == g;
  }

  /** What is read from a header line never holds one of the separators. */
  lemma HeaderNameClean(line: string)
    requires KindOf(line).Header?
    ensures ReadableGroup(KindOf(line).name)
  {
    var s := Clean(line);
    var tok := Tokens(s, '=')[0];
    var inner := tok[1..IndexOf(tok, ']')];
    assert forall c :: c in inner ==> c in tok[..IndexOf(tok, ']')];
    forall c | c in Trim(inner) ensures c !in ['=', '#', ']'] {
      TrimInside(inner, c);
      TokensInside(s, '=', tok, c);
    }
  }

  /** What is read from a setting line never holds `=` or `#`, and its parameter is trimmed. */
  lemma SettingClean(line: string)
    requires KindOf(line).Setting?
    ensures var k := KindOf(line);
      Trimmed(k.param) && '=' !in k.param && '#' !in k.param && '=' !in k.value && '#' !in k.value
  {
    var s := Clean(line);
    var ts := Tokens(s, '=');
    forall c | c in Trim(ts[0]) ensures c != '=' && c != '#' {
      TrimInside(ts[0], c);
      TokensInside(s, '=', ts[0], c);
    }
    if |ts| >= 2 && '#' in ts[1] {
      TokensInside(s, '=', ts[1], '#');
      assert false;
    }
  }

  /** A group header is read back exactly when the name is readable. */
  lemma HeaderReadsBack(g: string)
    ensures KindOf(HeaderLine(g)) == Header(g) <==> ReadableGroup(g)
  {
    if KindOf(HeaderLine(g)) == Header(g) { HeaderNameClean(HeaderLine(g)); }
    if ReadableGroup(g) { HeaderReadsBackIf(g); }
  }

  lemma TokensOfSetting(p: string, v: string)
    requires '=' !in p && '=' !in v
    ensures Tokens(p + "=" + v, '=') == (if p == "" then [] else [p]) + (if v == "" then [] else [v])
  {
    TokensCons(p, '=', v);
  }

  /** White space at the end of a value is lost. */
  lemma CleanSetting(p: string, v: string)
    requires Trimmed(p) && '#' !in p && '#' !in v
    ensures Clean(SettingLine(p, v)) == SettingLine(p, TrimRight(v))
  {
    TrimRightAppend(p + "=", v);
    var t := SettingLine(p, TrimRight(v));
    assert Trimmed(t) by { assert p == "" ==> t[0] == '='; }
    assert Trim(SettingLine(p, v)) == t;
  }

  lemma SettingReadsBackIf(p: string, v: string)
    requires ReadableSetting(p, v)
    ensures KindOf(SettingLine(p, v)) == Setting(p, v)
  {
    hide Clean, Tokens, Trim, IndexOf;
    CleanSetting(p, v);
    TokensOfSetting(p, v);
    assert TrimRight(v) == v && SettingLine(p, v)[|p|] == '=';
  }

  lemma NamelessSetting(v: string)
    requires '=' !in v && '#' !in v
    ensures KindOf(SettingLine("", v)) != Setting("", v)
  {
    CleanSetting("", v);
    var w := TrimRight(v);
    TokensOfSetting("", w);
    if w != "" { TrimKeepsSomething(w, |w| - 1); }
  }

  lemma SettingReadsBackOnlyIf(p: string, v: string)
    requires KindOf(SettingLine(p, v)) == Setting(p, v)
    ensures ReadableSetting(p, v)
  {
    SettingClean(SettingLine(p, v));
    if p == "" {
      NamelessSetting(v);
      assert false;
    }
    var w := TrimRight(v);
    CleanSetting(p, v);
    TokensOfSetting(p, w);
    assert v == w;
  }

  /** A setting line is read back exactly when the pair is readable. */
  lemma SettingReadsBack(p: string, v: string)
    ensures KindOf(SettingLine(p, v)) == Setting(p, v) <==> ReadableSetting(p, v)
  {
    if KindOf(SettingLine(p, v)) == Setting(p, v) { SettingReadsBackOnlyIf(p, v); }
    if ReadableSetting(p, v) { SettingReadsBackIf(p, v); }
  }

  // ---- Lines as people write them ----

  lemma TrimIgnoresTrailing(s: string, space: string)
    requires forall i :: 0 <= i < |space| ==> IsSpace(space[i])
    ensures Trim(s + space) == Trim(s)
  {
    TrimDropsTrailing(s, space);
  }

  /** Trailing white space does not matter to a header. */
  lemma GroupDeclTrimmed(u: string, space: string)
    requires u != "" && forall i :: 0 <= i < |space| ==> IsSpace(space[i])
    ensures GroupDecl([u + space]) == GroupDecl([u])
  {
    hide Trim, IndexOf;
    var t := u + space;
    var i := IndexOf(u, ']');
    assert t[..i] == u[..i];
    if i < |u| {
      IndexOfAt(t, ']', i);
      assert u[0] == '[' ==> t[1..i] == u[1..i];
    } else {
      assert ']' !in t;
      assert IndexOf(t, ']') == |t| && t[1..|t|] == u[1..i] + space;
      TrimIgnoresTrailing(u[1..i], space);
    }
  }

  lemma CleanFramed(wide: string, line: string)
    requires Framed(wide, line)
    ensures Clean(wide) == Clean(line)
  {
    hide Trim, IndexOf, AllBlank;
    var before, after :| AllBlank(before) && AllBlank(after) && wide == before + line + after;
    TrimAround(before, line, after);
  }

  /** White space before and behind a line does not matter: an indented line is read like any other. */
  lemma IndentationIsIgnored(wide: string, line: string)
    requires Framed(wide, line)
    ensures KindOf(wide) == KindOf(line)
  {
    CleanFramed(wide, line);
  }

  /** Everything from the first `#` on is cut off, and what white space precedes the text. */
  lemma CommentIsCut(line: string, comment: string)
    requires '#' !in line
    ensures Clean(line + ("#" + comment)) == TrimLeft(line)
  {
    hide TrimLeft, TrimRight, IndexOf, IsSpace;
    var s, tail := line + ("#" + comment), TrimRight("#" + comment);
    HashIsText(comment);
    TrimRightPrepend(line, "#" + comment);
    if TrimLeft(line) == "" {
      TrimLeftSuffix(line);
      TrimLeftOfBlankLine(line, tail);
      IndexOfAt(tail, '#', 0);
    } else {
      TrimLeftAppend(line, tail);
      TrimLeftSuffix(line);
      var t := TrimLeft(line) + tail;
      assert t[..|TrimLeft(line)|] == TrimLeft(line);
      IndexOfAt(t, '#', |TrimLeft(line)|);
    }
  }

  /** A line of white space is blank, and so is one that only holds a comment. */
  lemma BlankOrComment(space: string, comment: string)
    requires AllBlank(space)
    ensures Clean(space) == "" && Clean(space + ("#" + comment)) == ""
    ensures KindOf(space) == Blank && KindOf(space + ("#" + comment)) == Blank
  {
    hide IndexOf;
    BlanksAreSpaces(space);
    BlanksAreNoSeparators(space);
    SpaceIsBlank(space);
    TrimRightOfSpace(space);
    TrimLeftOfSpace(space);
    CommentIsCut(space, comment);
  }

  lemma HashIsText(comment: string)
    ensures TrimRight("#" + comment) != "" && TrimRight("#" + comment)[0] == '#' && !IsSpace('#')
  {
    TrimRightAppend("#", comment);
  }

  lemma {:induction false} TrimLeftOfBlankLine(line: string, tail: string)
    requires (forall i :: 0 <= i < |line| ==> IsSpace(line[i])) && tail != "" && !IsSpace(tail[0])
    ensures TrimLeft(line + tail) == tail
    decreases |line|
  {
    if line == "" {
      assert line + tail == tail;
    } else {
      assert (line + tail)[0] == line[0] && (line + tail)[1..] == line[1..] + tail;
      TrimLeftOfBlankLine(line[1..], tail);
    }
  }

  /** White space between a parameter and its `=` does not matter. */
  lemma GapIsIgnored(p: string, gap: string, v: string)
    requires ReadableParam(p) && AllBlank(gap) && '=' !in v && '#' !in v
    ensures KindOf(SettingLine(p + gap, v)) == KindOf(SettingLine(p, v))
  {
    hide Tokens, Trim, IndexOf, Clean, TrimRight;
    BlanksAreSpaces(gap);
    var w := TrimRight(v);
    LooseSettingIsClean(p, gap, v);
    LooseSettingIsClean(p, "", v);
    assert p + "" == p;
    assert '=' !in p + gap by { BlanksAreNoSeparators(gap); }
    TokensOfSetting(p + gap, w);
    TokensOfSetting(p, w);
    TrimIgnoresTrailing(p, gap);
    if w == "" { GroupDeclTrimmed(p, gap); }
  }

  lemma BlanksAreNoSeparators(gap: string)
    requires AllBlank(gap)
    ensures '=' !in gap && '#' !in gap
  {
  }

  lemma LooseSettingIsClean(p: string, gap: string, v: string)
    requires ReadableParam(p) && AllBlank(gap) && '#' !in v
    ensures Clean(SettingLine(p + gap, v)) == SettingLine(p + gap, TrimRight(v))
    ensures '=' in SettingLine(p + gap, TrimRight(v))
  {
    hide IndexOf;
    TrimRightAppend(p + gap + "=", v);
    BlanksAreNoSeparators(gap);
    var t := SettingLine(p + gap, TrimRight(v));
    assert t[|p + gap|] == '=';
    assert Trimmed(t) by { assert t[0] == p[0]; }
    assert Trim(SettingLine(p + gap, v)) == t && '#' !in t && t[..|t|] == t;
  }

  /** Only what is between the first two `=` is the value. */
  lemma ValueEndsAtSecondEquals(p: string, v: string, rest: string)
    requires ReadableParam(p) && v != "" && '=' !in v && '#' !in v && '#' !in rest
    ensures KindOf(SettingLine(p, v + "=" + rest)) == Setting(p, v)
  {
    hide Tokens, Trim, IndexOf, Clean, GroupDecl;
    var w := TrimRight(rest);
    assert v + "=" + rest == (v + "=") + rest && p + "" == p;
    TrimRightAppend(v + "=", rest);
    LooseSettingIsClean(p, "", v + "=" + rest);
    TokensCons(p, '=', v + "=" + w);
    TokensCons(v, '=', w);
    NotAHeader(p, v, Tokens(w, '='));
  }

  lemma NotAHeader(p: string, v: string, ts: seq<string>)
    requires p != ""
    ensures GroupDecl([p] + ([v] + ts)) == None
  {
  }

  /** White space inside the brackets and text behind them do not matter. */
  lemma LooseHeaderReads(before: string, g: string, after: string, junk: string)
    requires ReadableGroup(g) && AllBlank(before) && AllBlank(after) && '=' !in junk && '#' !in junk
    ensures KindOf("[" + before + g + after + "]" + junk) == Header(g)
  {
    hide Trim, IndexOf, TrimRight, Tokens;
    var inner, tail := before + g + after, TrimRight(junk);
    var front := "[" + inner;
    var s := front + "]" + tail;
    BlanksAreNoSeparators(before);
    BlanksAreNoSeparators(after);
    BracketedIsClean(front, junk);
    assert "[" + before + g + after + "]" + junk == front + "]" + junk;
    assert '=' !in s;
    assert Tokens(s, '=') == [s] by { OneToken(s, '='); }
    assert ']' !in front by { BlanksHoldNoBracket(before); BlanksHoldNoBracket(after); }
    assert s[..|front|] == front && s[|front|] == ']' && s[1..|front|] == inner;
    IndexOfAt(s, ']', |front|);
    TrimAround(before, g, after);
  }

  /** A bracket that is never closed closes at the end of the line. */
  lemma UnclosedHeaderReads(g: string)
    requires ReadableGroup(g)
    ensures KindOf("[" + g) == Header(g)
  {
    hide Trim, IndexOf, Tokens;
    var s := "[" + g;
    CleanTight(s);
    OneToken(s, '=');
    assert s[1..|s|] == g;
    IndexOfAt(s, ']', |s|);
  }

  lemma OneToken(s: string, sep: char)
    requires s != "" && sep !in s
    ensures Tokens(s, sep) == [s]
  {
  }

  lemma BlanksHoldNoBracket(s: string)
    requires AllBlank(s)
    ensures ']' !in s
  {
  }

  lemma BracketedIsClean(front: string, junk: string)
    requires front != "" && !IsSpace(front[0]) && '#' !in front && '#' !in junk
    ensures Clean(front + "]" + junk) == front + "]" + TrimRight(junk)
  {
    hide IndexOf;
    TrimRightAppend(front + "]", junk);
    var t := front + "]" + TrimRight(junk);
    assert Trimmed(t) by { assert t[0] == front[0]; }
    assert Trim(front + "]" + junk) == t && t[..|t|] == t;
  }

  /** Text that is neither a header nor a setting is a defect, and so is a line that is all `=`. */
  lemma DefectiveLines(s: string)
    requires s != "" && Trimmed(s) && '#' !in s
    ensures '=' !in s && s[0] != '[' ==> KindOf(s) == Defective(NoEquals)
    ensures (forall i :: 0 <= i < |s| ==> s[i] == '=') ==> KindOf(s) == Defective(NoToken)
    ensures s == "[]" ==> KindOf(s) == Defective(NoEquals)
  {
    hide IndexOf;
    CleanTight(s);
    if '=' !in s { OneToken(s, '='); }
    if s == "[]" {
      assert s[..1] == "[";
      IndexOfAt(s, ']', 1);
      assert s[1..1] == "" && Trim("") == "";
    }
  }
}
