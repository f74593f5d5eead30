/** Configuration files as stored text: loading, saving, and the `config` command, which reloads the text,
    edits one setting and writes the text back. */
module ConfigStore {
  import opened Text
  import opened ConfigLines
  import opened ConfigEditor

  // ---- Loading and saving ----

  predicate OneLine(s: string) { '\n' !in s }

  /** The `getline` loop of the constructor: a last line without a newline still counts, an empty one does not. */
  function Load(text: string): (lines: seq<string>)
    ensures forall i :: 0 <= i < |lines| ==> OneLine(lines[i])
  {
    if text == "" then []
    else
      var i := IndexOf(text, '\n');
      if i == |text| then [text] else [text[..i]] + Load(text[i + 1..])
  }

  /** `save`: every line followed by a newline. */
  function Save(lines: seq<string>): string {
    if lines == [] then "" else lines[0] + "\n" + Save(lines[1..])
  }

  lemma LoadCons(line: string, rest: string)
    requires OneLine(line)
    ensures Load(line + "\n" + rest) == [line] + Load(rest)
  {
    var text := line + "\n" + rest;
    assert text[..|line|] == line && text[|line| + 1..] == rest;
    IndexOfAt(text, '\n', |line|);
  }

  lemma {:induction false} LoadSave(lines: seq<string>)
    requires forall i :: 0 <= i < |lines| ==> OneLine(lines[i])
    ensures Load(Save(lines)) == lines
  {
    if lines != [] {
      LoadCons(lines[0], Save(lines[1..]));
      LoadSave(lines[1..]);
    }
  }

  function Terminated(text: string): string {
    if text == "" || text[|text| - 1] == '\n' then text else text + "\n"
  }

  lemma SaveCons(line: string, lines: seq<string>)
    ensures Save([line] + lines) == line + "\n" + Save(lines)
  {
    assert ([line] + lines)[1..] == lines;
  }

  lemma SaveNothing()
    ensures Save([]) == ""
  {
  }

  lemma {:induction false} SaveOneMore(lines: seq<string>, line: string)
    ensures Save(lines + [line]) == Save(lines) + line + "\n"
  {
    if lines == [] {
      assert lines + [line] == [line] + [];
      SaveCons(line, []);
    } else {
      hide Save;
      var rest := lines[1..];
      assert lines + [line] == [lines[0]] + (rest + [line]) && lines == [lines[0]] + rest;
      SaveCons(lines[0], rest + [line]);
      SaveCons(lines[0], rest);
      SaveOneMore(rest, line);
    }
  }

  lemma TerminatedCons(line: string, rest: string)
    ensures Terminated(line + "\n" + rest) == line + "\n" + Terminated(rest)
  {
    var text := line + "\n" + rest;
    if rest != "" {
      assert text[|text| - 1] == rest[|rest| - 1];
      assert text + "\n" == line + "\n" + (rest + "\n");
    } else {
      assert text[|text| - 1] == '\n' && text == line + "\n" + "";
    }
  }

  /** Loading then saving only adds a missing final newline. */
  lemma {:induction false} SaveLoad(text: string)
    ensures Save(Load(text)) == Terminated(text)
  {
    var i := IndexOf(text, '\n');
    if i < |text| {
      var line, rest := text[..i], text[i + 1..];
      assert text == line + "\n" + rest;
      calc {
        Save(Load(text));
        { LoadCons(line, rest); }
        Save([line] + Load(rest));
        { SaveCons(line, Load(rest)); SaveLoad(rest); }
        line + "\n" + Terminated(rest);
        { TerminatedCons(line, rest); }
        Terminated(text);
      }
    } else if text != "" {
      SaveCons(text, []);
      assert [text] + [] == [text] == Load(text);
    }
  }

  /** What `set` may put between lines read from a file: a lone newline character. */
  predicate Storable(lines: seq<string>) {
    forall i :: 0 <= i < |lines| ==> OneLine(lines[i]) || lines[i] == "\n"
  }

  /** A lone newline is stored as two blank lines. */
  function SpreadLine(line: string): seq<string> { if line == "\n" then ["", ""] else [line] }

  function Spread(lines: seq<string>): seq<string> {
    if lines == [] then [] else SpreadLine(lines[0]) + Spread(lines[1..])
  }

  lemma LoadSpreadLine(line: string, rest: string)
    requires OneLine(line) || line == "\n"
    ensures Load(line + "\n" + rest) == SpreadLine(line) + Load(rest)
  {
    hide Load;
    if line == "\n" {
      assert line + "\n" + rest == "" + "\n" + ("" + "\n" + rest);
      LoadCons("", "" + "\n" + rest);
      LoadCons("", rest);
    } else {
      LoadCons(line, rest);
    }
  }

  lemma {:induction false} LoadSaveSpreads(lines: seq<string>)
    requires Storable(lines)
    ensures Load(Save(lines)) == Spread(lines)
  {
    if lines != [] {
      hide Load, SpreadLine;
      LoadSaveSpreads(lines[1..]);
      LoadSpreadLine(lines[0], Save(lines[1..]));
    }
  }

  lemma {:induction false} SpreadKeepsLookup(kind: Reader, lines: seq<string>, k: Key, inGroup: bool)
    requires kind("") == Blank && kind("\n") == Blank
    ensures LookupFrom(kind, Spread(lines), k, inGroup) == LookupFrom(kind, lines, k, inGroup)
  {
    if lines != [] {
      SpreadKeepsLookup(kind, lines[1..], k, Next(kind(lines[0]), k, inGroup));
      if lines[0] == "\n" {
        LookupPad(kind, ["", ""], Spread(lines[1..]), k, inGroup);
      } else {
        assert Spread(lines)[1..] == Spread(lines[1..]);
      }
    }
  }

  /** Saving and loading keeps every lookup, and a second save after it writes the same bytes. */
  lemma StoredLinesKeepTheirMeaning(lines: seq<string>, k: Key)
    requires Storable(lines)
    ensures Lookup(Load(Save(lines)), k) == Lookup(lines, k)
    ensures Save(Load(Save(lines))) == Save(lines)
    ensures Load(Save(Load(Save(lines)))) == Load(Save(lines))
  {
    LoadSaveSpreads(lines);
    SpaceIsBlank("");
    SpaceIsBlank("\n");
    SpreadKeepsLookup(KindOf, lines, k, false);
    LoadSave(Load(Save(lines)));
    SaveLoad(Save(lines));
    SaveEnds(lines);
  }

  lemma {:induction false} SaveEnds(lines: seq<string>)
    ensures Save(lines) == "" || Save(lines)[|Save(lines)| - 1] == '\n'
  {
    if lines != [] { SaveEnds(lines[1..]); }
  }

  // ---- Settings of a stored text ----

  function Ask(text: string, k: Key): Answer { Lookup(Load(text), k) }

  /** Load, `set`, save. */
  function SetText(text: string, k: Key, v: string): Option<string> {
    match Set(Load(text), k, v)
    case None => None
    case Some(lines) => Some(Save(lines))
  }

  /** Keys and values that survive being written to a line and being stored. */
  predicate Printable(k: Key, v: string) {
    Writable(k, v) && OneLine(k.group) && OneLine(k.param) && OneLine(v)
  }

  /** The lines that the text of `SetText` loads as. */
  function SetLoaded(lines: seq<string>, k: Key, v: string): Option<seq<string>> {
    SetFrom(KindOf, lines, k, v, ["", ""], false)
  }

  lemma EmptyIsBlank()
    ensures BlankLines(KindOf, ["", ""])
  {
    SpaceIsBlank("");
  }

  lemma {:induction false} SpreadConcat(a: seq<string>, b: seq<string>)
    ensures Spread(a + b) == Spread(a) + Spread(b)
  {
    hide SpreadLine;
    if a == [] {
      assert a + b == b;
    } else {
      calc {
        Spread(a + b);
        { assert (a + b)[1..] == a[1..] + b; }
        SpreadLine(a[0]) + Spread(a[1..] + b);
        { SpreadConcat(a[1..], b); }
        SpreadLine(a[0]) + (Spread(a[1..]) + Spread(b));
        Spread(a) + Spread(b);
      }
    }
  }

  lemma {:induction false} SpreadOneLine(lines: seq<string>)
    requires forall i :: 0 <= i < |lines| ==> OneLine(lines[i])
    ensures Spread(lines) == lines
  {
    if lines != [] { SpreadOneLine(lines[1..]); }
  }

  lemma {:induction false} SpreadSet(kind: Reader, lines: seq<string>, k: Key, v: string, inGroup: bool)
    requires forall i :: 0 <= i < |lines| ==> OneLine(lines[i])
    requires OneLine(HeaderLine(k.group)) && OneLine(SettingLine(k.param, v))
    requires SetFrom(kind, lines, k, v, ["\n"], inGroup).Some?
    ensures Storable(SetFrom(kind, lines, k, v, ["\n"], inGroup).value)
    ensures SetFrom(kind, lines, k, v, ["", ""], inGroup) ==
            Some(Spread(SetFrom(kind, lines, k, v, ["\n"], inGroup).value))
  {
    var added := Added(k, v, ["\n"]);
    assert Spread(added) == Added(k, v, ["", ""]) by {
      assert added[1..] == ["\n"] && Spread(["\n"]) == ["", ""] + Spread([]);
    }
    if lines == [] {
      SpreadConcat([HeaderLine(k.group)], added);
    } else if inGroup && kind(lines[0]).Header? {
      SpreadConcat(added, lines);
      SpreadOneLine(lines);
    } else if inGroup && kind(lines[0]).Setting? && kind(lines[0]).param == k.param {
      SpreadOneLine([SettingLine(k.param, v)] + lines[1..]);
    } else {
      SpreadSet(kind, lines[1..], k, v, Next(kind(lines[0]), k, inGroup));
      SpreadConcat([lines[0]], SetFrom(kind, lines[1..], k, v, ["\n"], Next(kind(lines[0]), k, inGroup)).value);
    }
  }

  lemma {:induction false} SetSucceedsForAnyPad(kind: Reader, lines: seq<string>, k: Key, v: string, pad: seq<string>,
                                                inGroup: bool)
    ensures SetFrom(kind, lines, k, v, pad, inGroup).None? <==> LookupFrom(kind, lines, k, inGroup).Fails?
  {
    if lines != [] { SetSucceedsForAnyPad(kind, lines[1..], k, v, pad, Next(kind(lines[0]), k, inGroup)); }
  }

  /** What `SetText` stores loads as the edited lines, with two blank lines for the lone newline. */
  lemma SetTextLoads(text: string, k: Key, v: string)
    requires Printable(k, v)
    ensures SetText(text, k, v).None? <==> SetLoaded(Load(text), k, v).None?
    ensures SetText(text, k, v).None? <==> Ask(text, k).Fails?
    ensures SetText(text, k, v).Some? ==>
      Load(SetText(text, k, v).value) == SetLoaded(Load(text), k, v).value &&
      SetText(text, k, v).value == Save(SetLoaded(Load(text), k, v).value)
  {
    var lines := Load(text);
    SetSucceedsForAnyPad(KindOf, lines, k, v, ["\n"], false);
    SetSucceedsForAnyPad(KindOf, lines, k, v, ["", ""], false);
    if Set(lines, k, v).Some? {
      var edited := Set(lines, k, v).value;
      SpreadSet(KindOf, lines, k, v, false);
      LoadSaveSpreads(edited);
      SaveLoad(Save(edited));
      SaveEnds(edited);
    }
  }

  /** On stored text too, `set` is a map update. */
  lemma SetTextActsAsMapUpdate(text: string, k: Key, v: string)
    requires Printable(k, v)
    ensures SetText(text, k, v).None? <==> Ask(text, k).Fails?
    ensures SetText(text, k, v).Some? ==> Ask(SetText(text, k, v).value, k) == Is(v)
    ensures SetText(text, k, v).Some? ==> forall l :: l != k ==> Ask(SetText(text, k, v).value, l) == Ask(text, l)
  {
    SetTextLoads(text, k, v);
    WritableReadsBack(k, v);
    EmptyIsBlank();
    SetThenLookup(KindOf, Load(text), k, v, ["", ""], false);
    if SetText(text, k, v).Some? {
      forall l | l != k ensures Ask(SetText(text, k, v).value, l) == Ask(text, l) {
        SetKeepsOthers(KindOf, Load(text), k, v, ["", ""], false, l, false);
      }
    }
  }

  lemma LaterSetTextWins(text: string, k: Key, v: string, w: string)
    requires Printable(k, v) && Printable(k, w) && SetText(text, k, v).Some?
    ensures SetText(SetText(text, k, v).value, k, w) == SetText(text, k, w)
  {
    SetTextLoads(text, k, v);
    SetTextLoads(text, k, w);
    SetTextLoads(SetText(text, k, v).value, k, w);
    WritableReadsBack(k, v);
    LaterSetWins(KindOf, Load(text), k, v, w, ["", ""], false);
  }

  lemma SetTextsCommute(text: string, k: Key, v: string, l: Key, w: string)
    requires Printable(k, v) && Printable(l, w) && k != l
    requires Ask(text, l).Is? && !Ask(text, k).Fails?
    ensures SetText(text, k, v).Some? && SetText(text, l, w).Some?
    ensures SetText(SetText(text, k, v).value, l, w) == SetText(SetText(text, l, w).value, k, v)
  {
    SetTextLoads(text, k, v);
    SetTextLoads(text, l, w);
    SetTextLoads(SetText(text, k, v).value, l, w);
    SetTextLoads(SetText(text, l, w).value, k, v);
    WritableReadsBack(k, v);
    WritableReadsBack(l, w);
    EmptyIsBlank();
    SetsCommute(KindOf, Load(text), k, v, false, l, w, false, ["", ""]);
  }
}
