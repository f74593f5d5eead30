/** The configuration file object: a vector of raw lines that is scanned and edited in place. */
module ConfigFile {
  import opened Text
  import opened ConfigLines
  import opened ConfigEditor
  import opened ConfigStore
  import opened Placeholders
  import opened Templates

  function Inserted(lines: seq<string>, at: nat, line: string): seq<string>
    requires at <= |lines|
  {
    lines[..at] + [line] + lines[at..]
  }

  /** Two insertions add a setting, three add it with its group. */
  lemma InsertionsAdd(lines: seq<string>, n: nat, k: Key, v: string)
    requires n <= |lines|
    ensures Inserted(Inserted(lines, n, SettingLine(k.param, v)), n + 1, "\n") ==
            lines[..n] + Added(k, v, ["\n"]) + lines[n..]
    ensures Inserted(Inserted(Inserted(lines, n, HeaderLine(k.group)), n + 1, SettingLine(k.param, v)), n + 2, "\n") ==
            lines[..n] + AddedWithHeader(k, v, ["\n"]) + lines[n..]
  {
    hide SettingLine, HeaderLine;
    var header, setting := HeaderLine(k.group), SettingLine(k.param, v);
    var one := Inserted(lines, n, setting);
    assert one[..n + 1] == lines[..n] + [setting] && one[n + 1..] == lines[n..];
    var first := Inserted(lines, n, header);
    assert first[..n + 1] == lines[..n] + [header] && first[n + 1..] == lines[n..];
    var two := Inserted(first, n + 1, setting);
    assert two[..n + 2] == lines[..n] + [header] + [setting] && two[n + 2..] == lines[n..];
  }

  lemma SetWritesAt(lines: seq<string>, k: Key, v: string)
    ensures var spot := Scan(KindOf, lines, k, false, 0);
      InRange(lines, spot, 0) && ConfigEditor.Set(lines, k, v) == WriteAt(lines, spot, 0, k, v, ["\n"])
  {
    ScanLocatesSet(KindOf, lines, k, v, ["\n"], false, 0);
  }

  class ConfigurationFile {
    var lines: seq<string>

    /** Reads the file line by line. */
    constructor (text: string)
      ensures lines == Load(text)
    {
      var loaded: seq<string>, rest := [], text;
      while rest != ""
        invariant Load(text) == loaded + Load(rest)
        decreases |rest|
      {
        var i := IndexOf(rest, '\n');
        loaded := loaded + [rest[..i]];
        var next := if i == |rest| then "" else rest[i + 1..];
        assert Load(rest) == [rest[..i]] + Load(next) by { assert i == |rest| ==> rest[..i] == rest; }
        rest := next;
      }
      lines := loaded;
    }

    /** `exists`: the flag-driven scan. */
    method Exists(k: Key) returns (spot: Spot)
      ensures spot == FindInLayout(Split(KindOf, lines), k, 0)
      ensures Forget(spot) == Lookup(lines, k)
    {
      ScanIsStructural(KindOf, lines, k, 0);
      ScanAnswers(KindOf, lines, k, false, 0);
      spot := Search(k);
    }

    method Search(k: Key) returns (spot: Spot)
      ensures spot == Scan(KindOf, lines, k, false, 0)
    {
      hide Clean, GroupDecl, ParamValue, Tokens;
      var groupFound, current := false, 0;
      while current < |lines|
        invariant 0 <= current <= |lines|
        invariant Scan(KindOf, lines, k, false, 0) == Scan(KindOf, lines[current..], k, groupFound, current)
      {
        var rest := lines[current..];
        assert rest[1..] == lines[current + 1..];
        var line := Clean(lines[current]);
        current := current + 1;
        if line == "" { continue; }
        var tokens := Tokens(line, '=');
        if tokens == [] { return Broken(NoToken); }
        assert tokens[0] in tokens;
        var declared := GroupDecl(tokens);
        if declared.Some? && !groupFound {
          groupFound := declared.value == k.group;
          continue;
        }
        if declared.Some? && groupFound { return Missing(current - 1, true); }
        if !groupFound { continue; }
        if '=' !in line { return Broken(NoEquals); }
        var pair := ParamValue(tokens);
        if pair.param == k.param { return Found(pair.value, current - 1); }
      }
      spot := Missing(|lines|, groupFound);
    }

    /** `set`: by the line number that the scan returned; nothing changes when the scan throws. */
    method Set(k: Key, v: string) returns (written: Option<string>)
      modifies this
      ensures ConfigEditor.Set(old(lines), k, v).None? ==> lines == old(lines) && written == None
      ensures ConfigEditor.Set(old(lines), k, v).Some? ==>
        ConfigEditor.Set(old(lines), k, v) == Some(lines) && written == Some(SettingLine(k.param, v))
    {
      hide SettingLine, HeaderLine, KindOf, Scan, ConfigEditor.Set, Added, AddedWithHeader;
      var spot := Search(k);
      SetWritesAt(lines, k, v);
      match spot
      case Broken(_) => written := None;
      case Found(_, n) =>
        lines := lines[n := SettingLine(k.param, v)];
        written := Some(lines[n]);
      case Missing(n, groupExists) =>
        var at := n;
        InsertionsAdd(lines, n, k, v);
        if !groupExists {
          lines := Inserted(lines, at, HeaderLine(k.group));
          at := at + 1;
        }
        lines := Inserted(lines, at, SettingLine(k.param, v));
        lines := Inserted(lines, at + 1, "\n");
        written := Some(lines[at]);
    }

    /** `replace_placeholders`: one replacement pass over the lines. */
    method ReplacePlaceholders(vars: Vars)
      modifies this
      ensures lines == TemplateLines(old(lines), vars)
      ensures forall i :: 0 <= i < |lines| && KindOf(old(lines)[i]) == Blank ==> lines[i] == old(lines)[i]
    {
      hide Clean, Substitute, Tokens, GroupDecl, ParamValue;
      ghost var before := lines;
      var current := 0;
      while current < |lines|
        invariant 0 <= current <= |lines| == |before|
        invariant forall i :: 0 <= i < current ==> lines[i] == TemplateLine(before[i], vars)
        invariant forall i :: current <= i < |lines| ==> lines[i] == before[i]
      {
        var line := Clean(lines[current]);
        if line != "" { lines := lines[current := Substitute(line, vars)]; }
        current := current + 1;
      }
    }

    /** `save`: the text that is written. */
    method Save() returns (text: string)
      ensures text == ConfigStore.Save(lines)
      ensures Storable(lines) ==> Load(text) == Spread(lines)
    {
      hide ConfigStore.Save, Load, Spread, Storable;
      text := "";
      var i := 0;
      SaveNothing();
      while i < |lines|
        invariant 0 <= i <= |lines| && text == ConfigStore.Save(lines[..i])
      {
        SaveOneMore(lines[..i], lines[i]);
        assert lines[..i + 1] == lines[..i] + [lines[i]];
        text := text + lines[i] + "\n";
        i := i + 1;
      }
      assert lines[..i] == lines;
      if Storable(lines) { LoadSaveSpreads(lines); }
    }
  }
}
