/** The line editor: the flag-driven scan for a setting, the insertion or replacement of a setting,
    and the laws that make the pair behave like a map from keys to values. */
module ConfigEditor {
  import opened Text
  import opened ConfigLines

  /** A way of reading lines; the laws of the editor hold for every one of them, the tool's is `KindOf`. */
  type Reader = string -> LineKind

  datatype Key = Key(group: string, param: string)

  /** Where a scan stops: at the setting, at the line where it would have to be inserted, or with a failure. */
  datatype Spot =
    | Found(value: string, line: nat)
    | Missing(line: nat, groupExists: bool)
    | Broken(defect: Defect)

  /** What a scan says about a key, without line numbers. */
  datatype Answer = Is(value: string) | Absent | Fails(defect: Defect)

  /** The scan of `exists` from the line with number `at` on; `inGroup` is its `group_found` flag. */
  function Scan(kind: Reader, lines: seq<string>, k: Key, inGroup: bool, at: nat): Spot {
    if lines == [] then Missing(at, inGroup)
    else
      match kind(lines[0])
      case Blank => Scan(kind, lines[1..], k, inGroup, at + 1)
      case Header(name) =>
        if inGroup then Missing(at, true) else Scan(kind, lines[1..], k, name == k.group, at + 1)
      case Setting(param, value) =>
        if inGroup && param == k.param then Found(value, at) else Scan(kind, lines[1..], k, inGroup, at + 1)
      case Defective(defect) =>
        if inGroup || defect == NoToken then Broken(defect) else Scan(kind, lines[1..], k, inGroup, at + 1)
  }

  /** The `group_found` flag after a line that does not end the scan. */
  function Next(what: LineKind, k: Key, inGroup: bool): bool {
    if what.Header? then what.name == k.group else inGroup
  }

  function Forget(spot: Spot): Answer {
    match spot
    case Found(value, _) => Is(value)
    case Missing(_, _) => Absent
    case Broken(defect) => Fails(defect)
  }

  /** The scan without its line numbers. */
  function LookupFrom(kind: Reader, lines: seq<string>, k: Key, inGroup: bool): Answer {
    if lines == [] then Absent
    else
      match kind(lines[0])
      case Blank => LookupFrom(kind, lines[1..], k, inGroup)
      case Header(name) =>
        if inGroup then Absent else LookupFrom(kind, lines[1..], k, name == k.group)
      case Setting(param, value) =>
        if inGroup && param == k.param then Is(value) else LookupFrom(kind, lines[1..], k, inGroup)
      case Defective(defect) =>
        if inGroup || defect == NoToken then Fails(defect) else LookupFrom(kind, lines[1..], k, inGroup)
  }

  /** What the file says about a key. */
  function Lookup(lines: seq<string>, k: Key): Answer { LookupFrom(KindOf, lines, k, false) }

  lemma {:induction false} ScanAnswers(kind: Reader, lines: seq<string>, k: Key, inGroup: bool, at: nat)
    ensures Forget(Scan(kind, lines, k, inGroup, at)) == LookupFrom(kind, lines, k, inGroup)
  {
    if lines != [] {
      ScanAnswers(kind, lines[1..], k, Next(kind(lines[0]), k, inGroup), at + 1);
    }
  }

  // ---- What does not matter to a lookup ----

  lemma {:induction false} SameKindsSameAnswer(kind: Reader, a: seq<string>, b: seq<string>, k: Key, inGroup: bool)
    requires |a| == |b| && forall i :: 0 <= i < |a| ==> kind(a[i]) == kind(b[i])
    ensures LookupFrom(kind, a, k, inGroup) == LookupFrom(kind, b, k, inGroup)
  {
    if a != [] { SameKindsSameAnswer(kind, a[1..], b[1..], k, Next(kind(a[0]), k, inGroup)); }
  }

  /** However its lines are indented, a file says the same. */
  lemma IndentedFileAnswersAlike(wide: seq<string>, lines: seq<string>, k: Key)
    requires |wide| == |lines| && forall i :: 0 <= i < |lines| ==> Framed(wide[i], lines[i])
    ensures Lookup(wide, k) == Lookup(lines, k)
  {
    hide KindOf, Framed;
    forall i | 0 <= i < |lines| ensures KindOf(wide[i]) == KindOf(lines[i]) {
      IndentationIsIgnored(wide[i], lines[i]);
    }
    SameKindsSameAnswer(KindOf, wide, lines, k, false);
  }

  lemma {:induction false} BlankLineFrom(kind: Reader, a: seq<string>, line: string, b: seq<string>, k: Key,
                                         inGroup: bool)
    requires kind(line) == Blank
    ensures LookupFrom(kind, a + [line] + b, k, inGroup) == LookupFrom(kind, a + b, k, inGroup)
    decreases |a|
  {
    if a == [] {
      assert a + [line] + b == [line] + b && ([line] + b)[1..] == b && a + b == b;
    } else {
      var rest := a[1..];
      assert (a + [line] + b)[1..] == rest + [line] + b && (a + b)[1..] == rest + b;
      BlankLineFrom(kind, rest, line, b, k, Next(kind(a[0]), k, inGroup));
    }
  }

  /** Lines of white space and comments say nothing, wherever they stand. */
  lemma CommentLinesSayNothing(a: seq<string>, space: string, comment: string, b: seq<string>, k: Key)
    requires AllBlank(space)
    ensures Lookup(a + [space] + b, k) == Lookup(a + b, k)
    ensures Lookup(a + [space + ("#" + comment)] + b, k) == Lookup(a + b, k)
  {
    BlankOrComment(space, comment);
    BlankLineFrom(KindOf, a, space, b, k, false);
    BlankLineFrom(KindOf, a, space + ("#" + comment), b, k, false);
  }

  // ---- Writing a setting ----

  /** The lines that a new setting adds, `pad` standing for the blank lines after it. */
  function Added(k: Key, v: string, pad: seq<string>): seq<string> {
    [SettingLine(k.param, v)] + pad
  }

  function AddedWithHeader(k: Key, v: string, pad: seq<string>): seq<string> {
    [HeaderLine(k.group)] + Added(k, v, pad)
  }

  /** The effect of `set`, or nothing when its scan fails: the setting is replaced where it stands, else added
      at the end of its group, else added with its group at the end of the file. */
  function SetFrom(kind: Reader, lines: seq<string>, k: Key, v: string, pad: seq<string>, inGroup: bool)
    : Option<seq<string>>
  {
    if lines == [] then Some(if inGroup then Added(k, v, pad) else AddedWithHeader(k, v, pad))
    else
      match kind(lines[0])
      case Blank => Prepend(lines[0], SetFrom(kind, lines[1..], k, v, pad, inGroup))
      case Header(name) =>
        if inGroup then Some(Added(k, v, pad) + lines)
        else Prepend(lines[0], SetFrom(kind, lines[1..], k, v, pad, name == k.group))
      case Setting(param, value) =>
        if inGroup && param == k.param then Some([SettingLine(k.param, v)] + lines[1..])
        else Prepend(lines[0], SetFrom(kind, lines[1..], k, v, pad, inGroup))
      case Defective(defect) =>
        if inGroup || defect == NoToken then None
        else Prepend(lines[0], SetFrom(kind, lines[1..], k, v, pad, inGroup))
  }

  function Prepend(line: string, rest: Option<seq<string>>): Option<seq<string>> {
    if rest.None? then None else Some([line] + rest.value)
  }

  /** The lines written for a setting are read as that setting. */
  predicate ReadsBack(kind: Reader, k: Key, v: string) {
    kind(HeaderLine(k.group)) == Header(k.group) && kind(SettingLine(k.param, v)) == Setting(k.param, v)
  }

  predicate BlankLines(kind: Reader, pad: seq<string>) {
    forall i :: 0 <= i < |pad| ==> kind(pad[i]) == Blank
  }

  /** Two keys are scanned in step: the same group is found at the same time, two groups are never open at once. */
  predicate InStep(k: Key, inK: bool, l: Key, inL: bool) {
    if k.group == l.group then inK == inL else !(inK && inL)
  }

  lemma {:induction false} LookupPad(kind: Reader, pad: seq<string>, rest: seq<string>, k: Key, inGroup: bool)
    requires BlankLines(kind, pad)
    ensures LookupFrom(kind, pad + rest, k, inGroup) == LookupFrom(kind, rest, k, inGroup)
  {
    if pad == [] {
      assert pad + rest == rest;
    } else {
      LookupPad(kind, pad[1..], rest, k, inGroup);
      assert (pad + rest)[1..] == pad[1..] + rest;
    }
  }

  lemma {:induction false} SetThenLookup(kind: Reader, lines: seq<string>, k: Key, v: string, pad: seq<string>,
                                         inGroup: bool)
    requires ReadsBack(kind, k, v)
    ensures SetFrom(kind, lines, k, v, pad, inGroup) == None <==> LookupFrom(kind, lines, k, inGroup).Fails?
    ensures SetFrom(kind, lines, k, v, pad, inGroup).Some? ==>
      LookupFrom(kind, SetFrom(kind, lines, k, v, pad, inGroup).value, k, inGroup) == Is(v)
  {
    if lines != [] {
      SetThenLookup(kind, lines[1..], k, v, pad, Next(kind(lines[0]), k, inGroup));
    }
  }

  lemma {:induction false} SetKeepsOthers(kind: Reader, lines: seq<string>, k: Key, v: string, pad: seq<string>,
                                          inK: bool, l: Key, inL: bool)
    requires ReadsBack(kind, k, v) && BlankLines(kind, pad) && k != l && InStep(k, inK, l, inL)
    requires SetFrom(kind, lines, k, v, pad, inK).Some?
    ensures LookupFrom(kind, SetFrom(kind, lines, k, v, pad, inK).value, l, inL) == LookupFrom(kind, lines, l, inL)
  {
    if lines == [] {
      LookupPad(kind, pad, [], l, inL);
      LookupPad(kind, pad, [], l, k.group == l.group);
      assert Added(k, v, pad)[1..] == pad + [] && AddedWithHeader(k, v, pad)[1..] == Added(k, v, pad);
    } else if inK && kind(lines[0]).Header? {
      LookupPad(kind, pad, lines, l, inL);
      assert (Added(k, v, pad) + lines)[1..] == pad + lines;
    } else if !(inK && kind(lines[0]).Setting? && kind(lines[0]).param == k.param) {
      SetKeepsOthers(kind, lines[1..], k, v, pad, Next(kind(lines[0]), k, inK), l, Next(kind(lines[0]), l, inL));
    }
  }

  /** A later write of the same key makes the earlier one as if it had never been. */
  lemma {:induction false} LaterSetWins(kind: Reader, lines: seq<string>, k: Key, v: string, w: string,
                                        pad: seq<string>, inGroup: bool)
    requires ReadsBack(kind, k, v)
    requires SetFrom(kind, lines, k, v, pad, inGroup).Some?
    ensures SetFrom(kind, SetFrom(kind, lines, k, v, pad, inGroup).value, k, w, pad, inGroup) ==
            SetFrom(kind, lines, k, w, pad, inGroup)
  {
    if lines == [] {
      assert Added(k, v, pad)[1..] == pad && AddedWithHeader(k, v, pad)[1..] == Added(k, v, pad);
    } else if inGroup && kind(lines[0]).Header? {
      assert (Added(k, v, pad) + lines)[1..] == pad + lines;
      assert Added(k, w, pad) + lines == [SettingLine(k.param, w)] + (pad + lines);
    } else if !(inGroup && kind(lines[0]).Setting? && kind(lines[0]).param == k.param) {
      LaterSetWins(kind, lines[1..], k, v, w, pad, Next(kind(lines[0]), k, inGroup));
    }
  }

  /** Writes of two keys commute, to the line, once one of them is present. */
  lemma {:induction false} SetsCommute(kind: Reader, lines: seq<string>, k: Key, v: string, inK: bool, l: Key,
                                       w: string, inL: bool, pad: seq<string>)
    requires ReadsBack(kind, k, v) && ReadsBack(kind, l, w) && BlankLines(kind, pad) && k != l && InStep(k, inK, l, inL)
    requires LookupFrom(kind, lines, l, inL).Is? && !LookupFrom(kind, lines, k, inK).Fails?
    ensures SetFrom(kind, lines, k, v, pad, inK).Some? && SetFrom(kind, lines, l, w, pad, inL).Some?
    ensures SetFrom(kind, SetFrom(kind, lines, k, v, pad, inK).value, l, w, pad, inL) ==
            SetFrom(kind, SetFrom(kind, lines, l, w, pad, inL).value, k, v, pad, inK)
  {
    var what := kind(lines[0]);
    SetThenLookup(kind, lines, k, v, pad, inK);
    SetThenLookup(kind, lines, l, w, pad, inL);
    if inK && what.Header? {
      SetPad(kind, pad, lines, l, w, pad, inL);
      var setL := SetFrom(kind, lines, l, w, pad, inL).value;
      assert (Added(k, v, pad) + lines)[1..] == pad + lines;
      assert Added(k, v, pad) + setL == [SettingLine(k.param, v)] + (pad + setL);
    } else if inK && what.Setting? && what.param == k.param {
    } else if inL && what.Setting? && what.param == l.param {
    } else {
      SetsCommute(kind, lines[1..], k, v, Next(what, k, inK), l, w, Next(what, l, inL), pad);
    }
  }

  lemma SetBlank(kind: Reader, line: string, rest: seq<string>, k: Key, v: string, pad: seq<string>, inGroup: bool)
    requires kind(line) == Blank
    ensures SetFrom(kind, [line] + rest, k, v, pad, inGroup) == Prepend(line, SetFrom(kind, rest, k, v, pad, inGroup))
  {
    assert ([line] + rest)[1..] == rest;
  }

  lemma {:induction false} SetPad(kind: Reader, blanks: seq<string>, rest: seq<string>, k: Key, v: string,
                                  pad: seq<string>, inGroup: bool)
    requires BlankLines(kind, blanks)
    ensures SetFrom(kind, blanks + rest, k, v, pad, inGroup) ==
            match SetFrom(kind, rest, k, v, pad, inGroup) case None => None case Some(ls) => Some(blanks + ls)
    decreases |blanks|
  {
    hide SetFrom;
    var inner := SetFrom(kind, rest, k, v, pad, inGroup);
    if blanks == [] {
      assert blanks + rest == rest;
      assert inner.Some? ==> blanks + inner.value == inner.value;
    } else {
      var first, more := blanks[0], blanks[1..];
      SetPad(kind, more, rest, k, v, pad, inGroup);
      SetBlank(kind, first, more + rest, k, v, pad, inGroup);
      assert blanks + rest == [first] + (more + rest);
      assert inner.Some? ==> blanks + inner.value == [first] + (more + inner.value);
    }
  }

  predicate InRange(lines: seq<string>, spot: Spot, at: nat) {
    match spot
    case Found(_, n) => at <= n < at + |lines|
    case Missing(n, inGroup) => at <= n <= at + |lines| && (!inGroup ==> n == at + |lines|)
    case Broken(_) => true
  }

  /** `set` as the code does it: by the line number that the scan returned, `at` being the number of the first line. */
  function WriteAt(lines: seq<string>, spot: Spot, at: nat, k: Key, v: string, pad: seq<string>): Option<seq<string>>
    requires InRange(lines, spot, at)
  {
    match spot
    case Found(_, n) => Some(lines[n - at := SettingLine(k.param, v)])
    case Missing(n, inGroup) =>
      Some(lines[..n - at] + (if inGroup then Added(k, v, pad) else AddedWithHeader(k, v, pad)) + lines[n - at..])
    case Broken(_) => None
  }

  lemma WriteBehind(lines: seq<string>, spot: Spot, at: nat, k: Key, v: string, pad: seq<string>)
    requires lines != [] && InRange(lines[1..], spot, at + 1)
    ensures InRange(lines, spot, at)
    ensures WriteAt(lines, spot, at, k, v, pad) == Prepend(lines[0], WriteAt(lines[1..], spot, at + 1, k, v, pad))
  {
    match spot
    case Found(_, n) =>
      var line := SettingLine(k.param, v);
      assert lines[n - at := line] == [lines[0]] + lines[1..][n - at - 1 := line];
    case Missing(n, inGroup) =>
      var added := if inGroup then Added(k, v, pad) else AddedWithHeader(k, v, pad);
      assert lines[..n - at] + added + lines[n - at..] ==
             [lines[0]] + (lines[1..][..n - at - 1] + added + lines[1..][n - at - 1..]);
    case Broken(_) =>
  }

  /** The line number of the scan is where the write happens: the setting itself, the end of its group,
      or the end of the file. */
  lemma {:induction false} ScanLocatesSet(kind: Reader, lines: seq<string>, k: Key, v: string, pad: seq<string>,
                                          inGroup: bool, at: nat)
    ensures InRange(lines, Scan(kind, lines, k, inGroup, at), at)
    ensures SetFrom(kind, lines, k, v, pad, inGroup) == WriteAt(lines, Scan(kind, lines, k, inGroup, at), at, k, v, pad)
  {
    var spot := Scan(kind, lines, k, inGroup, at);
    assert lines[..0] + Added(k, v, pad) + lines[0..] == Added(k, v, pad) + lines;
    if lines == [] {
      assert lines[..0] + AddedWithHeader(k, v, pad) + lines[0..] == AddedWithHeader(k, v, pad);
      assert Added(k, v, pad) + lines == Added(k, v, pad);
    } else if inGroup && kind(lines[0]).Setting? && kind(lines[0]).param == k.param {
      assert lines[0 := SettingLine(k.param, v)] == [SettingLine(k.param, v)] + lines[1..];
    } else if spot == Scan(kind, lines[1..], k, Next(kind(lines[0]), k, inGroup), at + 1) {
      ScanLocatesSet(kind, lines[1..], k, v, pad, Next(kind(lines[0]), k, inGroup), at + 1);
      WriteBehind(lines, spot, at, k, v, pad);
    }
  }

  // ---- The tool's own reader ----

  /** The keys and values that are read back as they were written. */
  predicate Writable(k: Key, v: string) {
    ReadableGroup(k.group) && ReadableSetting(k.param, v)
  }

  /** `set` on the lines in memory: the line after a new setting is a lone newline character. */
  function Set(lines: seq<string>, k: Key, v: string): Option<seq<string>> {
    SetFrom(KindOf, lines, k, v, ["\n"], false)
  }

  lemma WritableReadsBack(k: Key, v: string)
    requires Writable(k, v)
    ensures ReadsBack(KindOf, k, v)
  {
    SettingReadsBack(k.param, v);
    HeaderReadsBack(k.group);
  }

  lemma NewlineIsBlank()
    ensures BlankLines(KindOf, ["\n"])
  {
    SpaceIsBlank("\n");
  }

  /** `set` fails exactly when the lookup does; else the key reads as the value, every other key as before. */
  lemma SetActsAsMapUpdate(lines: seq<string>, k: Key, v: string)
    requires Writable(k, v)
    ensures Set(lines, k, v).None? <==> Lookup(lines, k).Fails?
    ensures Set(lines, k, v).Some? ==> Lookup(Set(lines, k, v).value, k) == Is(v)
    ensures Set(lines, k, v).Some? ==> forall l :: l != k ==> Lookup(Set(lines, k, v).value, l) == Lookup(lines, l)
  {
    WritableReadsBack(k, v);
    NewlineIsBlank();
    SetThenLookup(KindOf, lines, k, v, ["\n"], false);
    if Set(lines, k, v).Some? {
      forall l | l != k ensures Lookup(Set(lines, k, v).value, l) == Lookup(lines, l) {
        SetKeepsOthers(KindOf, lines, k, v, ["\n"], false, l, false);
      }
    }
  }

  /** A repeated `set` changes no line, and a later one leaves what it alone would have left. */
  lemma SetAgain(lines: seq<string>, k: Key, v: string, w: string)
    requires Writable(k, v) && Set(lines, k, v).Some?
    ensures Set(Set(lines, k, v).value, k, w) == Set(lines, k, w)
    ensures Set(Set(lines, k, v).value, k, v) == Set(lines, k, v)
  {
    WritableReadsBack(k, v);
    LaterSetWins(KindOf, lines, k, v, w, ["\n"], false);
    LaterSetWins(KindOf, lines, k, v, v, ["\n"], false);
  }

  // ---- The structure that the flags stand for ----

  datatype Section = Section(name: string, body: seq<LineKind>)

  /** A file as the lines before the first header, and its sections. */
  datatype Layout = Layout(preamble: seq<LineKind>, sections: seq<Section>)

  function Split(kind: Reader, lines: seq<string>): Layout {
    if lines == [] then Layout([], [])
    else
      var rest := Split(kind, lines[1..]);
      match kind(lines[0])
      case Header(name) => Layout([], [Section(name, rest.preamble)] + rest.sections)
      case other => Layout([other] + rest.preamble, rest.sections)
  }

  /** The first setting of `param` in a section body that starts at line `at`. */
  function FindInBody(body: seq<LineKind>, param: string, at: nat): Spot {
    if body == [] then Missing(at, true)
    else
      match body[0]
      case Setting(q, value) => if q == param then Found(value, at) else FindInBody(body[1..], param, at + 1)
      case Defective(defect) => Broken(defect)
      case _ => FindInBody(body[1..], param, at + 1)
  }

  /** The first section with the name of the group decides. */
  function FindInSections(sections: seq<Section>, k: Key, at: nat): Spot {
    if sections == [] then Missing(at, false)
    else if sections[0].name == k.group then FindInBody(sections[0].body, k.param, at + 1)
    else if Defective(NoToken) in sections[0].body then Broken(NoToken)
    else FindInSections(sections[1..], k, at + 1 + |sections[0].body|)
  }

  function FindInLayout(layout: Layout, k: Key, at: nat): Spot {
    if Defective(NoToken) in layout.preamble then Broken(NoToken)
    else FindInSections(layout.sections, k, at + |layout.preamble|)
  }

  /** A section in front decides if it has the name, else it is passed over, unless it holds a line of `=` only. */
  lemma SectionInFront(name: string, rest: Layout, k: Key, at: nat)
    ensures FindInLayout(Layout([], [Section(name, rest.preamble)] + rest.sections), k, at) ==
            if name == k.group then FindInBody(rest.preamble, k.param, at + 1) else FindInLayout(rest, k, at + 1)
  {
    hide FindInBody;
    var sections := [Section(name, rest.preamble)] + rest.sections;
    assert sections[0] == Section(name, rest.preamble) && sections[1..] == rest.sections;
  }

  lemma LineInFront(what: LineKind, rest: Layout, k: Key, at: nat)
    ensures FindInLayout(Layout([what] + rest.preamble, rest.sections), k, at) ==
            if what == Defective(NoToken) then Broken(NoToken) else FindInLayout(rest, k, at + 1)
    ensures FindInBody([what] + rest.preamble, k.param, at) ==
            if what.Setting? && what.param == k.param then Found(what.value, at)
            else if what.Defective? then Broken(what.defect)
            else FindInBody(rest.preamble, k.param, at + 1)
  {
    hide FindInSections;
    assert ([what] + rest.preamble)[1..] == rest.preamble;
  }

  /** The flag-driven scan is the structural lookup, line numbers included. */
  lemma {:induction false} ScanIsStructural(kind: Reader, lines: seq<string>, k: Key, at: nat)
    ensures Scan(kind, lines, k, false, at) == FindInLayout(Split(kind, lines), k, at)
    ensures Scan(kind, lines, k, true, at) == FindInBody(Split(kind, lines).preamble, k.param, at)
  {
    if lines != [] {
      ScanIsStructural(kind, lines[1..], k, at + 1);
      hide FindInBody, FindInLayout;
      var what, rest := kind(lines[0]), Split(kind, lines[1..]);
      if what.Header? {
        SectionInFront(what.name, rest, k, at);
        NoBody(k.param, at);
      } else {
        LineInFront(what, rest, k, at);
      }
    }
  }

  lemma NoBody(param: string, at: nat)
    ensures FindInBody([], param, at) == Missing(at, true)
  {
  }
}
