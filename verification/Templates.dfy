/** `replace_placeholders`: templating a configuration file commutes with looking settings up in it. */
module Templates {
  import opened Text
  import opened ConfigLines
  import opened ConfigEditor
  import opened Placeholders

  /** Blank and comment lines stay as they are; every other line loses its comment and its indentation. */
  function TemplateLine(line: string, vars: Vars): string {
    if Clean(line) == "" then line else Substitute(Clean(line), vars)
  }

  /** Blank lines and comment lines come out as they are, indentation and references in them included. */
  lemma CommentLinesStay(space: string, comment: string, vars: Vars)
    requires AllBlank(space)
    ensures TemplateLine(space, vars) == space
    ensures TemplateLine(space + ("#" + comment), vars) == space + ("#" + comment)
  {
    hide Clean, Substitute;
    BlankOrComment(space, comment);
  }

  function TemplateLines(lines: seq<string>, vars: Vars): (r: seq<string>)
    ensures |r| == |lines|
  {
    seq(|lines|, i requires 0 <= i < |lines| => TemplateLine(lines[i], vars))
  }

  /** Every `$` opens a reference, and the variables that are referred to hold no `$`. */
  predicate Tame(s: string, vars: Vars) { WellPlaced(s) && PlainFor(vars, Mentions(Pieces(s))) }

  /** What a token becomes holds no separator, and ends with white space only if the token does. */
  predicate FittingToken(t: string, vars: Vars) {
    Tame(t, vars) &&
    var r := Simultaneous(t, vars);
    '=' !in r && '#' !in r && (EndsWithSpace(r) <==> EndsWithSpace(t))
  }

  /** All tokens fit, none of them refers to anything in the group or parameter name, and none vanishes but the value of
      a setting whose name does not start like a header. */
  predicate FittingText(s: string, vars: Vars) {
    var ts := Tokens(s, '=');
    && PlainFor(vars, {})
    && (ts != [] ==> '$' !in ts[0])
    && forall i :: 0 <= i < |ts| ==>
         FittingToken(ts[i], vars) && (Simultaneous(ts[i], vars) == "" ==> i == 1 && |ts| == 2 && ts[0][0] != '[')
  }

  predicate FittingLine(line: string, vars: Vars) { FittingText(Clean(Clean(line)), vars) }

  // ---- Substitution, piece by piece ----

  lemma SubstituteFills(s: string, vars: Vars)
    requires Tame(s, vars)
    ensures Substitute(s, vars) == Simultaneous(s, vars)
  {
    PassesAreSimultaneous(s, vars, MapOrder(vars.Keys));
  }

  lemma ConcatMentions(a: string, b: string)
    requires WellPlaced(a) && WellPlaced(b)
    ensures WellPlaced(a + b) && Pieces(a + b) == Pieces(a) + Pieces(b)
    ensures Mentions(Pieces(a + b)) == Mentions(Pieces(a)) + Mentions(Pieces(b))
  {
    hide WellPlaced, Render, Mentions, Proper;
    var ps, qs := Pieces(a), Pieces(b);
    RenderConcat(ps, qs);
    ProperConcat(ps, qs);
    RenderWellPlaced(ps + qs);
    MentionsConcat(ps, qs);
  }

  lemma ProperConcat(ps: seq<Piece>, qs: seq<Piece>)
    requires Proper(ps) && Proper(qs)
    ensures Proper(ps + qs)
  {
  }

  lemma SubstituteConcat(a: string, b: string, vars: Vars)
    requires Tame(a, vars) && Tame(b, vars)
    ensures Tame(a + b, vars)
    ensures Substitute(a + b, vars) == Substitute(a, vars) + Substitute(b, vars)
  {
    hide WellPlaced, Fill, Render, Substitute, Pieces, Mentions;
    ConcatMentions(a, b);
    SubstituteFills(a + b, vars);
    SubstituteFills(a, vars);
    SubstituteFills(b, vars);
    FillConcat(Pieces(a), Pieces(b), vars, vars.Keys);
    RenderConcat(Fill(Pieces(a), vars, vars.Keys), Fill(Pieces(b), vars, vars.Keys));
  }

  /** Text without `$` is its own substitution. */
  lemma SubstitutePlain(s: string, vars: Vars)
    requires '$' !in s && PlainFor(vars, {})
    ensures Tame(s, vars) && Substitute(s, vars) == s
  {
    hide WellPlaced, Substitute, Mentions;
    RenderPlain(s);
    RenderWellPlaced(PlainPieces(s));
    MentionsPlain(s);
    SubstituteFills(s, vars);
    FillPlain(s, vars, vars.Keys);
  }

  lemma SubstituteSplit(head: string, rest: string, vars: Vars)
    requires Tame(head, vars) && Tame(rest, vars) && PlainFor(vars, {})
    ensures Tame(head + "=" + rest, vars)
    ensures Substitute(head + "=" + rest, vars) == Substitute(head, vars) + "=" + Substitute(rest, vars)
  {
    hide Tame, PlainFor, Substitute;
    SubstitutePlain("=", vars);
    SubstituteConcat(head, "=", vars);
    SubstituteConcat(head + "=", rest, vars);
  }

  // ---- Token by token ----

  /** The tokens after substitution: those that have not vanished. */
  function Survivors(ts: seq<string>, vars: Vars): seq<string> {
    if ts == [] then []
    else
      var r := Substitute(ts[0], vars);
      (if r == "" then [] else [r]) + Survivors(ts[1..], vars)
  }

  /** Substitution respects the split at `=` and the white space at the end. */
  ghost predicate SplitsAlike(s: string, vars: Vars) {
    && Tame(s, vars)
    && Tokens(Substitute(s, vars), '=') == Survivors(Tokens(s, '='), vars)
    && ('=' in s <==> '=' in Substitute(s, vars))
    && (EndsWithSpace(s) <==> EndsWithSpace(Substitute(s, vars)))
  }

  /** What is asked of a token is known of its substitution. */
  lemma FittingSubstitute(t: string, vars: Vars)
    requires FittingToken(t, vars)
    ensures var r := Substitute(t, vars);
      && Tame(t, vars) && r == Simultaneous(t, vars)
      && '=' !in r && '#' !in r && (EndsWithSpace(r) <==> EndsWithSpace(t))
  {
    hide Simultaneous, Substitute;
    SubstituteFills(t, vars);
  }

  lemma EndsBehind(a: string, b: string)
    ensures EndsWithSpace(a + "=" + b) <==> EndsWithSpace(b)
  {
    assert a + "=" + b == a + ("=" + b);
  }

  lemma SplitsAlikeCons(head: string, rest: string, vars: Vars)
    requires PlainFor(vars, {}) && Tame(head, vars) && '=' !in head && '=' !in Substitute(head, vars)
    requires SplitsAlike(rest, vars)
    ensures SplitsAlike(head + "=" + rest, vars)
  {
    hide Tame, PlainFor, Substitute, Tokens, EndsWithSpace;
    var r := Substitute(head, vars);
    SubstituteSplit(head, rest, vars);
    SubstitutePlain("", vars);
    TokensCons(head, '=', rest);
    TokensCons(r, '=', Substitute(rest, vars));
    EndsBehind(head, rest);
    EndsBehind(r, Substitute(rest, vars));
    var ts := Tokens(rest, '=');
    if head == "" { assert [] + ts == ts; } else { assert ([head] + ts)[1..] == ts; }
  }

  lemma NoSplit(s: string, vars: Vars)
    requires PlainFor(vars, {}) && '=' !in s && (s != "" ==> FittingToken(s, vars))
    ensures SplitsAlike(s, vars)
  {
    hide Tame, PlainFor, Substitute, Tokens, FittingToken, EndsWithSpace;
    SubstitutePlain("", vars);
    TokensNoSep(s, '=');
    if s != "" {
      FittingSubstitute(s, vars);
      assert [s][1..] == [] && Survivors([], vars) == [];
    }
    TokensNoSep(Substitute(s, vars), '=');
  }

  lemma {:induction false} FittingTokensSplitAlike(s: string, vars: Vars)
    requires PlainFor(vars, {}) && forall t :: t in Tokens(s, '=') ==> FittingToken(t, vars)
    ensures SplitsAlike(s, vars)
    decreases |s|
  {
    hide Tame, PlainFor, Substitute, SplitsAlike, Tokens, FittingToken;
    var i := IndexOf(s, '=');
    if i == |s| {
      TokensNoSep(s, '=');
      assert s != "" ==> s in Tokens(s, '=');
      NoSplit(s, vars);
    } else {
      var head, rest := s[..i], s[i + 1..];
      TokensCons(head, '=', rest);
      assert s == head + "=" + rest;
      if head == "" {
        SubstitutePlain(head, vars);
      } else {
        assert head in Tokens(s, '=');
        FittingSubstitute(head, vars);
      }
      FittingTokensSplitAlike(rest, vars);
      SplitsAlikeCons(head, rest, vars);
    }
  }

  /** A character that is in no substituted token is not in the substituted text. */
  lemma {:induction false} SubstitutedWithout(s: string, vars: Vars, c: char)
    requires PlainFor(vars, {}) && c != '='
    requires forall t :: t in Tokens(s, '=') ==> Tame(t, vars) && c !in Substitute(t, vars)
    ensures Tame(s, vars) && c !in Substitute(s, vars)
    decreases |s|
  {
    hide Tame, PlainFor, Substitute, Tokens;
    var i := IndexOf(s, '=');
    SubstitutePlain("", vars);
    if i == |s| {
      TokensNoSep(s, '=');
      assert s != "" ==> s in Tokens(s, '=');
    } else {
      var head, rest := s[..i], s[i + 1..];
      TokensCons(head, '=', rest);
      assert s == head + "=" + rest;
      assert head != "" ==> head in Tokens(s, '=');
      SubstitutedWithout(rest, vars, c);
      SubstituteSplit(head, rest, vars);
    }
  }

  /** The first character stays, because the first token refers to nothing. */
  lemma FirstStays(s: string, vars: Vars)
    requires s != "" && PlainFor(vars, {}) && (forall t :: t in Tokens(s, '=') ==> FittingToken(t, vars))
    requires Tokens(s, '=') != [] ==> '$' !in Tokens(s, '=')[0]
    ensures Substitute(s, vars) != "" && Substitute(s, vars)[0] == s[0]
  {
    hide Tame, PlainFor, Substitute, SplitsAlike, Tokens, FittingToken;
    var i := IndexOf(s, '=');
    if i == |s| {
      TokensNoSep(s, '=');
      SubstitutePlain(s, vars);
    } else {
      var head, rest := s[..i], s[i + 1..];
      TokensCons(head, '=', rest);
      assert s == head + "=" + rest;
      SubstitutePlain(head, vars);
      TailIsTame(s, head, rest, vars);
      SubstituteSplit(head, rest, vars);
    }
  }

  lemma TailIsTame(s: string, head: string, rest: string, vars: Vars)
    requires s == head + "=" + rest && '=' !in head
    requires PlainFor(vars, {}) && (forall t :: t in Tokens(s, '=') ==> FittingToken(t, vars))
    ensures Tame(rest, vars)
  {
    hide Tame, PlainFor, Tokens, FittingToken, Survivors;
    TokensCons(head, '=', rest);
    FittingTokensSplitAlike(rest, vars);
  }

  // ---- One line ----

  function SubstituteKind(kind: LineKind, vars: Vars): LineKind {
    if kind.Setting? then Setting(kind.param, Substitute(kind.value, vars)) else kind
  }

  lemma CleanAgain(s: string)
    requires '#' !in s && s != "" && !IsSpace(s[0])
    ensures Clean(s) == TrimRight(s) != ""
    ensures forall i :: |TrimRight(s)| <= i < |s| ==> IsSpace(s[i])
  {
    TrimRightDropsSpace(s);
    var t := TrimRight(s);
    assert t[0] == s[0];
  }

  /** Trailing white space goes the way it would have gone without substitution. */
  lemma CleanSubstituted(s: string, vars: Vars)
    requires '#' !in s && s != "" && !IsSpace(s[0]) && FittingText(Clean(s), vars)
    ensures SplitsAlike(Clean(s), vars)
    ensures Clean(Substitute(s, vars)) == Substitute(Clean(s), vars) != ""
  {
    hide Tame, PlainFor, Substitute, TrimRight, Clean, Tokens, FittingToken;
    CleanAgain(s);
    var tight := Clean(s);
    var space := s[|tight|..];
    var r, ts := Substitute(tight, vars), Tokens(tight, '=');
    assert s == tight + space && '$' !in space && !EndsWithSpace(tight) && tight[0] == s[0];
    forall t | t in ts ensures FittingToken(t, vars) && Tame(t, vars) && '#' !in Substitute(t, vars) {
      FittingSubstitute(t, vars);
    }
    FittingTokensSplitAlike(tight, vars);
    SubstitutedWithout(tight, vars, '#');
    FirstStays(tight, vars);
    SubstitutePlain(space, vars);
    SubstituteConcat(tight, space, vars);
    CleanAgain(r + space);
    TrimRightOfSpace(space);
    TrimRightAppend(r, space);
  }

  lemma GroupDeclByFirst(ts: seq<string>, us: seq<string>)
    requires ts != [] && |ts| == |us| && ts[0] == us[0] != ""
    ensures GroupDecl(ts) == GroupDecl(us)
  {
  }

  lemma {:induction false} AllSurvive(ts: seq<string>, vars: Vars)
    requires forall i :: 0 <= i < |ts| ==> Substitute(ts[i], vars) != ""
    ensures |Survivors(ts, vars)| == |ts|
    ensures forall i :: 0 <= i < |ts| ==> Survivors(ts, vars)[i] == Substitute(ts[i], vars)
    decreases |ts|
  {
    hide Substitute;
    if ts != [] { AllSurvive(ts[1..], vars); }
  }

  lemma ValueVanishes(param: string, value: string, vars: Vars)
    requires Substitute(param, vars) == param != "" && Substitute(value, vars) == ""
    ensures Survivors([param, value], vars) == [param]
  {
    hide Substitute;
    assert [param, value][1..] == [value] && [value][1..] == [];
    assert Survivors([value], vars) == [];
  }

  /** The meaning of the surviving tokens is the substituted meaning of all tokens. */
  lemma SurvivorsMean(ts: seq<string>, vars: Vars, hasEquals: bool)
    requires ts != [] && (forall i :: 0 <= i < |ts| ==> ts[i] != "") && Substitute(ts[0], vars) == ts[0]
    requires Substitute("", vars) == "" && (|ts| > 1 ==> hasEquals)
    requires forall i :: 0 <= i < |ts| && Substitute(ts[i], vars) == "" ==> i == 1 && |ts| == 2 && ts[0][0] != '['
    ensures var rs := Survivors(ts, vars);
      && rs != [] && (forall i :: 0 <= i < |rs| ==> rs[i] != "")
      && KindOfTokens(rs, hasEquals) == SubstituteKind(KindOfTokens(ts, hasEquals), vars)
  {
    hide Substitute, Trim, IndexOf;
    if |ts| == 2 && Substitute(ts[1], vars) == "" {
      assert ts == [ts[0], ts[1]];
      ValueVanishes(ts[0], ts[1], vars);
    } else {
      AllSurvive(ts, vars);
      GroupDeclByFirst(ts, Survivors(ts, vars));
    }
  }

  lemma VanishingTokens(s: string, vars: Vars)
    requires FittingText(s, vars)
    ensures var ts := Tokens(s, '=');
      forall i :: 0 <= i < |ts| && Substitute(ts[i], vars) == "" ==>
        i == 1 && |ts| == 2 && ts[0] != "" && ts[0][0] != '['
  {
    hide Simultaneous, Substitute;
    var ts := Tokens(s, '=');
    forall i | 0 <= i < |ts| ensures ts[i] != "" && Substitute(ts[i], vars) == Simultaneous(ts[i], vars) {
      assert ts[i] in ts;
      FittingSubstitute(ts[i], vars);
    }
  }

  lemma KindByTokens(line: string)
    requires Clean(line) != ""
    ensures forall i :: 0 <= i < |Tokens(Clean(line), '=')| ==> Tokens(Clean(line), '=')[i] != ""
    ensures KindOf(line) == KindOfTokens(Tokens(Clean(line), '='), '=' in Clean(line))
    ensures |Tokens(Clean(line), '=')| > 1 ==> '=' in Clean(line)
  {
    var s := Clean(line);
    var ts := Tokens(s, '=');
    forall i | 0 <= i < |ts| ensures ts[i] != "" { assert ts[i] in ts; }
    if '=' !in s { TokensNoSep(s, '='); }
  }

  /** A templated line is what its text without the comment was, with its value substituted. */
  lemma TemplateKind(line: string, vars: Vars)
    requires FittingLine(line, vars)
    ensures KindOf(TemplateLine(line, vars)) == SubstituteKind(KindOf(Clean(line)), vars)
  {
    hide Tame, PlainFor, Substitute, Clean, Tokens, FittingToken, KindOf, KindOfTokens;
    var s := Clean(line);
    if s == "" {
      CleanNothing();
      BlankWhenClean(line);
      BlankWhenClean("");
    } else {
      var tight := Clean(s);
      var ts := Tokens(tight, '=');
      CleanAgain(s);
      CleanSubstituted(s, vars);
      KindByTokens(s);
      KindByTokens(Substitute(s, vars));
      SubstitutePlain("", vars);
      if ts == [] {
        NoTokens(vars, '=' in tight);
      } else {
        SubstitutePlain(ts[0], vars);
        VanishingTokens(tight, vars);
        SurvivorsMean(ts, vars, '=' in tight);
      }
    }
  }

  lemma BlankWhenClean(line: string)
    requires Clean(line) == ""
    ensures KindOf(line) == Blank
  {
  }

  lemma CleanNothing()
    ensures Clean("") == ""
  {
  }

  lemma NoTokens(vars: Vars, hasEquals: bool)
    ensures KindOfTokens(Survivors([], vars), hasEquals) == SubstituteKind(KindOfTokens([], hasEquals), vars)
  {
  }

  // ---- Values that always fit ----

  /** Not empty, no separators, nothing at the edges that trimming would eat. */
  predicate FittingValue(v: string) {
    v != "" && Trimmed(v) && '$' !in v && '=' !in v && '#' !in v
  }

  predicate FittingFor(vars: Vars, names: set<string>) {
    forall n :: n in vars ==> '}' !in n && (n in names ==> FittingValue(vars[n]))
  }

  lemma {:induction false} FilledKeepsChar(ps: seq<Piece>, vars: Vars, c: char)
    requires c !in Render(ps) && forall n :: n in Mentions(ps) && n in vars ==> c !in vars[n]
    ensures c !in Render(Fill(ps, vars, vars.Keys))
  {
    if ps != [] {
      FilledKeepsChar(ps[1..], vars, c);
      RenderConcat(FillPiece(ps[0], vars, vars.Keys), Fill(ps[1..], vars, vars.Keys));
      if ps[0].Ref? && ps[0].name in vars {
        RenderPlain(vars[ps[0].name]);
      } else {
        assert Render([ps[0]]) == RenderPiece(ps[0]) + Render([]);
      }
    }
  }

  lemma {:induction false} FilledEnds(ps: seq<Piece>, vars: Vars)
    requires FittingFor(vars, Mentions(ps))
    ensures var s, r := Render(ps), Render(Fill(ps, vars, vars.Keys));
      (r == "" <==> s == "") && (EndsWithSpace(r) <==> EndsWithSpace(s))
  {
    if ps != [] {
      var first := FillPiece(ps[0], vars, vars.Keys);
      assert Mentions(ps[1..]) <= Mentions(ps);
      FilledEnds(ps[1..], vars);
      RenderConcat(first, Fill(ps[1..], vars, vars.Keys));
      if ps[0].Ref? && ps[0].name in vars {
        RenderPlain(vars[ps[0].name]);
      } else {
        assert Render([ps[0]]) == RenderPiece(ps[0]) + Render([]);
      }
    }
  }

  /** Fitting values of the variables that a token mentions make the token fit, and never vanish. */
  lemma FittingValuesFit(t: string, vars: Vars)
    requires WellPlaced(t) && FittingFor(vars, Mentions(Pieces(t))) && t != "" && '=' !in t && '#' !in t
    ensures FittingToken(t, vars) && Simultaneous(t, vars) != ""
  {
    hide WellPlaced, Mentions, Fill, Render;
    var ps := Pieces(t);
    FilledEnds(ps, vars);
    FilledKeepsChar(ps, vars, '=');
    FilledKeepsChar(ps, vars, '#');
  }

  // ---- Losing the comment ----

  /** White space between a value and its comment belongs to the value until the comment is gone. */
  predicate Frayed(line: string) {
    var s := Clean(line);
    var ts := Tokens(s, '=');
    EndsWithSpace(s) && (|ts| == 2 || (|ts| == 1 && Trim(ts[0]) == ""))
  }

  lemma TokensNoSep(t: string, sep: char)
    requires sep !in t
    ensures Tokens(t, sep) == if t == "" then [] else [t]
  {
  }

  lemma SplitAtFirst(a: string, t: string, sep: char) returns (head: string, rest: string)
    requires a != "" && a[|a| - 1] == sep
    ensures sep !in head && |rest| < |a| && (rest != "" ==> rest[|rest| - 1] == sep)
    ensures a == head + [sep] + rest && a + t == head + [sep] + (rest + t)
  {
    var i := IndexOf(a, sep);
    assert a[|a| - 1] in a;
    head, rest := a[..i], a[i + 1..];
  }

  lemma {:induction false} TokensAppend(a: string, t: string, sep: char)
    requires sep !in t && (a != "" ==> a[|a| - 1] == sep)
    ensures Tokens(a + t, sep) == Tokens(a, sep) + (if t == "" then [] else [t])
    decreases |a|
  {
    hide Tokens, IndexOf;
    if a == "" {
      TokensNoSep(a, sep);
      TokensNoSep(t, sep);
      assert a + t == t;
    } else {
      var head, rest := SplitAtFirst(a, t, sep);
      TokensCons(head, sep, rest + t);
      TokensCons(head, sep, rest);
      TokensAppend(rest, t, sep);
    }
  }

  /** A line that ends with a space ends with a token. */
  lemma {:induction false} LastToken(s: string) returns (a: string, t: string)
    requires EndsWithSpace(s)
    ensures s == a + t && '=' !in t && EndsWithSpace(t) && (a != "" ==> a[|a| - 1] == '=')
    decreases |s|
  {
    var n := |s| - 1;
    while n > 0 && s[n - 1] != '='
      invariant 0 <= n < |s| && '=' !in s[n..]
    {
      n := n - 1;
      assert s[n..] == [s[n]] + s[n + 1..];
    }
    a, t := s[..n], s[n..];
  }

  /** Dropping the comment keeps the meaning of a line exactly when the line is not frayed. */
  lemma CommentsAreNeutral(line: string)
    ensures KindOf(Clean(line)) == KindOf(line) <==> !Frayed(line)
  {
    var s := Clean(line);
    if !EndsWithSpace(s) {
      if s != "" { CleanAgain(s); } else { SpaceIsBlank(""); }
    } else {
      CleanAgain(s);
      var a, t := LastToken(s);
      FrayedEnd(line, a, t);
    }
  }

  /** The kind of a line, by its tokens and the presence of a `=`. */
  function KindOfTokens(ts: seq<string>, hasEquals: bool): LineKind
    requires forall i :: 0 <= i < |ts| ==> ts[i] != ""
  {
    if ts == [] then Defective(NoToken)
    else if GroupDecl(ts).Some? then Header(GroupDecl(ts).value)
    else if hasEquals then ParamValue(ts)
    else Defective(NoEquals)
  }

  lemma FrayedTokens(front: seq<string>, u: string, space: string, hasEquals: bool)
    requires forall i :: 0 <= i < |front| ==> front[i] != ""
    requires space != "" && forall i :: 0 <= i < |space| ==> IsSpace(space[i])
    requires !EndsWithSpace(u) && (front != [] || u == "" ==> hasEquals)
    ensures var before, after := front + [u + space], front + (if u == "" then [] else [u]);
      KindOfTokens(before, hasEquals) == KindOfTokens(after, hasEquals) <==>
      |before| > 2 || (|before| == 1 && Trim(u + space) != "")
  {
    hide Trim, IndexOf;
    TrimIgnoresTrailing(u, space);
    if u != "" {
      GroupDeclTrimmed(u, space);
      TrimKeepsSomething(u, |u| - 1);
    }
  }

  lemma TrimRightEnd(a: string, t: string)
    requires a != "" ==> a[|a| - 1] == '='
    ensures TrimRight(a + t) == a + TrimRight(t)
  {
    if a == "" {
      assert a + t == t && a + TrimRight(t) == TrimRight(t);
    } else {
      TrimRightAppend(a, t);
    }
  }

  lemma KindOfEnd(line: string, a: string, t: string)
    requires Clean(line) == a + t != "" && '=' !in t && (a != "" ==> a[|a| - 1] == '=')
    ensures forall i :: 0 <= i < |Tokens(a, '=')| ==> Tokens(a, '=')[i] != ""
    ensures KindOf(line) == KindOfTokens(Tokens(a, '=') + (if t == "" then [] else [t]), a != "")
  {
    hide Tokens, Clean, GroupDecl, ParamValue;
    var front := Tokens(a, '=');
    assert forall i :: 0 <= i < |front| ==> front[i] in front;
    TokensAppend(a, t, '=');
    assert '=' in a + t <==> a != "" by { assert a != "" ==> a[|a| - 1] in a; }
  }

  lemma FrayedEnd(line: string, a: string, t: string)
    requires Clean(line) == a + t && '=' !in t && EndsWithSpace(t) && (a != "" ==> a[|a| - 1] == '=')
    ensures KindOf(Clean(line)) == KindOf(line) <==> !Frayed(line)
  {
    hide Tokens, TrimRight, Clean, Trim, IndexOf, KindOf, KindOfTokens;
    var s, u, front := a + t, TrimRight(t), Tokens(a, '=');
    CleanAgain(s);
    TrimRightEnd(a, t);
    KindOfEnd(line, a, t);
    KindOfEnd(s, a, u);
    TrimRightDropsSpace(t);
    var space := t[|u|..];
    assert t == u + space && space != "" by { assert u != t; }
    TokensAppend(a, t, '=');
    assert front != [] ==> a != "" by { TokensNoSep("", '='); }
    FrayedTokens(front, u, space, a != "");
  }

  // ---- Whole files ----

  function SubstituteAnswer(a: Answer, vars: Vars): Answer {
    if a.Is? then Is(Substitute(a.value, vars)) else a
  }

  lemma {:induction false} RelatedLookup(kind: Reader, a: seq<string>, b: seq<string>, k: Key, inGroup: bool,
                                         vars: Vars)
    requires |a| == |b| && forall i :: 0 <= i < |a| ==> kind(a[i]) == SubstituteKind(kind(b[i]), vars)
    ensures LookupFrom(kind, a, k, inGroup) == SubstituteAnswer(LookupFrom(kind, b, k, inGroup), vars)
  {
    hide Substitute;
    if a != [] { RelatedLookup(kind, a[1..], b[1..], k, Next(kind(b[0]), k, inGroup), vars); }
  }

  /** After templating, a key reads as the substitution of what it read before. */
  lemma TemplatingCommutesWithLookup(lines: seq<string>, vars: Vars, k: Key)
    requires forall i :: 0 <= i < |lines| ==> FittingLine(lines[i], vars) && !Frayed(lines[i])
    ensures Lookup(TemplateLines(lines, vars), k) == SubstituteAnswer(Lookup(lines, k), vars)
  {
    hide FittingLine, Frayed, KindOf, TemplateLine;
    var kind: Reader := KindOf;
    forall i | 0 <= i < |lines| ensures kind(TemplateLines(lines, vars)[i]) == SubstituteKind(kind(lines[i]), vars) {
      TemplateKind(lines[i], vars);
      CommentsAreNeutral(lines[i]);
    }
    RelatedLookup(kind, TemplateLines(lines, vars), lines, k, false, vars);
  }

  // ---- Storing the result ----

  lemma CleanInside(line: string, c: char)
    requires c in Clean(line)
    ensures c in line
  {
    TrimInside(line, c);
  }

  /** A templated line is one line if its tokens are after substitution. */
  lemma TemplateLineIsOneLine(line: string, vars: Vars)
    requires FittingLine(line, vars) && '\n' !in line
    requires forall t :: t in Tokens(Clean(Clean(line)), '=') ==> '\n' !in Substitute(t, vars)
    ensures '\n' !in TemplateLine(line, vars)
  {
    hide Tame, PlainFor, Substitute, Clean, Tokens, TrimRight, FittingToken;
    var s := Clean(line);
    if s != "" {
      assert '\n' !in s by { if '\n' in s { CleanInside(line, '\n'); } }
      CleanAgain(s);
      var tight := Clean(s);
      var space := s[|tight|..];
      assert s == tight + space && '$' !in space;
      forall t | t in Tokens(tight, '=') ensures Tame(t, vars) { FittingSubstitute(t, vars); }
      SubstitutedWithout(tight, vars, '\n');
      SubstitutePlain(space, vars);
      SubstituteConcat(tight, space, vars);
    }
  }

  /** A space between a value and its comment belongs to the value, and is gone once the comment is. */
  lemma CommentFraysValue(p: string, v: string, comment: string)
    requires ReadableSetting(p, v) && v != "" && !EndsWithSpace("#" + comment)
    ensures var line := SettingLine(p, v + " ") + ("#" + comment);
      KindOf(line) == Setting(p, v + " ") && KindOf(Clean(line)) == Setting(p, v) && Frayed(line)
  {
    hide Trim, TrimRight, Tokens, IndexOf;
    var s := SettingLine(p, v + " ");
    var line := s + ("#" + comment);
    assert Trimmed(line) by { assert line[0] == p[0] && line[|line| - 1] == ("#" + comment)[|comment|]; }
    assert line[..|s|] == s && line[|s|] == '#' && '#' !in s;
    IndexOfAt(line, '#', |s|);
    assert Clean(line) == s;
    TokensOfSetting(p, v + " ");
    TokensOfSetting(p, v);
    CleanSetting(p, v + " ");
    TrimDropsTrailing(v, " ");
    assert TrimRight(v) == v by { AlreadyTrimmed(v); }
  }

  lemma AlreadyTrimmed(s: string)
    requires !EndsWithSpace(s)
    ensures TrimRight(s) == s
  {
  }
}
