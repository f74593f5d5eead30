/** The merge-conflict resolver: a line-by-line state machine against a block-by-block resolution. */
module MergeConflicts {
  import opened Text

  const OURS: string := "<<<<<<<"
  const SPLIT: string := "======="
  const THEIRS: string := ">>>>>>>"

  predicate AnyContains(lines: seq<string>, word: string) {
    exists i :: 0 <= i < |lines| && Contains(lines[i], word)
  }

  /** The lines of ours that give way to a patched version of theirs. */
  predicate Skipped(line: string, theirs: seq<string>) {
    || (Contains(line, "PENALTY_KICK") && AnyContains(theirs, "PENALTY_KICK"))
    || (Contains(line, "NET_STATE_SYNC_CHAINS") && !Contains(line, "syncfix"))
    || (Contains(line, "s_net_states_proc") && AnyContains(theirs, "syncfix"))
  }

  function Remaining(ours: seq<string>, theirs: seq<string>): (r: seq<string>)
    ensures forall line :: line in r ==> line in ours
  {
    if ours == [] then []
    else (if Skipped(ours[0], theirs) then [] else [ours[0]]) + Remaining(ours[1..], theirs)
  }

  /** One conflict: theirs, preceded by what remains of ours when theirs holds a patch. */
  function ResolveBlock(ours: seq<string>, theirs: seq<string>): seq<string> {
    if AnyContains(theirs, "syncfix") then Remaining(ours, theirs) + theirs else theirs
  }

  // ---- The state machine ----

  datatype State = State(inOurs: bool, inTheirs: bool, ours: seq<string>, theirs: seq<string>, out: seq<string>)

  const START: State := State(false, false, [], [], [])

  function Step(st: State, line: string): State {
    if OURS <= line then st.(inOurs := true, ours := [])
    else if SPLIT <= line && st.inOurs then st.(inOurs := false, inTheirs := true, theirs := [])
    else if THEIRS <= line && st.inTheirs then st.(inTheirs := false, out := st.out + ResolveBlock(st.ours, st.theirs))
    else if st.inOurs then st.(ours := st.ours + [line])
    else if st.inTheirs then st.(theirs := st.theirs + [line])
    else st.(out := st.out + [line])
  }

  function Steps(st: State, lines: seq<string>): State
    decreases |lines|
  {
    if lines == [] then st else Steps(Step(st, lines[0]), lines[1..])
  }

  function Resolve(lines: seq<string>): seq<string> { Steps(START, lines).out }

  lemma {:induction false} StepsConcat(st: State, a: seq<string>, b: seq<string>)
    ensures Steps(st, a + b) == Steps(Steps(st, a), b)
    decreases |a|
  {
    hide Step;
    if a == [] {
      assert a + b == b;
    } else {
      assert (a + b)[1..] == a[1..] + b;
      StepsConcat(Step(st, a[0]), a[1..], b);
    }
  }

  /** The loop of the script. */
  method ResolveLines(lines: seq<string>) returns (newLines: seq<string>)
    ensures newLines == Resolve(lines)
  {
    hide Skipped, AnyContains;
    var inOurs, inTheirs := false, false;
    var ours: seq<string>, theirs: seq<string> := [], [];
    newLines := [];
    var i := 0;
    while i < |lines|
      invariant 0 <= i <= |lines|
      invariant Steps(START, lines) == Steps(State(inOurs, inTheirs, ours, theirs, newLines), lines[i..])
    {
      var line := lines[i];
      assert lines[i..][1..] == lines[i + 1..];
      i := i + 1;
      if OURS <= line {
        inOurs, ours := true, [];
        continue;
      } else if SPLIT <= line && inOurs {
        inOurs, inTheirs, theirs := false, true, [];
        continue;
      } else if THEIRS <= line && inTheirs {
        inTheirs := false;
        var block := ResolveConflict(ours, theirs);
        newLines := newLines + block;
        continue;
      }
      if inOurs {
        ours := ours + [line];
      } else if inTheirs {
        theirs := theirs + [line];
      } else {
        newLines := newLines + [line];
      }
    }
  }

  method ResolveConflict(ours: seq<string>, theirs: seq<string>) returns (block: seq<string>)
    ensures block == ResolveBlock(ours, theirs)
  {
    hide Skipped, AnyContains;
    block := [];
    if AnyContains(theirs, "syncfix") {
      var i := 0;
      while i < |ours|
        invariant 0 <= i <= |ours|
        invariant block + Remaining(ours[i..], theirs) == Remaining(ours, theirs)
      {
        assert ours[i..][1..] == ours[i + 1..];
        if !Skipped(ours[i], theirs) { block := block + [ours[i]]; }
        i := i + 1;
      }
    }
    block := block + theirs;
  }

  // ---- Every text ----

  predicate NoStart(lines: seq<string>) { forall i :: 0 <= i < |lines| ==> !(OURS <= lines[i]) }

  lemma NoStartBlock(ours: seq<string>, theirs: seq<string>)
    requires NoStart(ours) && NoStart(theirs)
    ensures NoStart(ResolveBlock(ours, theirs))
  {
    hide Skipped, AnyContains;
    var r := Remaining(ours, theirs);
    forall i | 0 <= i < |r| ensures !(OURS <= r[i]) {
      assert r[i] in ours;
    }
  }

  lemma {:induction false} NoStartComesOut(st: State, lines: seq<string>)
    requires NoStart(st.ours) && NoStart(st.theirs) && NoStart(st.out)
    ensures NoStart(Steps(st, lines).out)
    decreases |lines|
  {
    hide ResolveBlock;
    if lines != [] {
      NoStartBlock(st.ours, st.theirs);
      NoStartComesOut(Step(st, lines[0]), lines[1..]);
    }
  }

  lemma {:induction false} NothingToResolve(st: State, lines: seq<string>)
    requires NoStart(lines) && !st.inOurs && !st.inTheirs
    ensures Steps(st, lines).out == st.out + lines
    decreases |lines|
  {
    if lines != [] {
      NothingToResolve(Step(st, lines[0]), lines[1..]);
      assert st.out + [lines[0]] + lines[1..] == st.out + lines;
    }
  }

  /** On every text, well formed or not, no start marker comes out, and resolving again changes nothing. */
  lemma ResolveIsIdempotent(lines: seq<string>)
    ensures NoStart(Resolve(lines))
    ensures Resolve(Resolve(lines)) == Resolve(lines)
  {
    NoStartComesOut(START, lines);
    NothingToResolve(START, Resolve(lines));
  }

  // ---- Well-formed conflict files ----

  /** A line outside conflicts, or a conflict with its three marker lines. */
  datatype Chunk =
    | Plain(line: string)
    | Conflict(start: string, ours: seq<string>, split: string, theirs: seq<string>, end: string)

  predicate WellFormed(c: Chunk) {
    match c
    case Plain(line) => !(OURS <= line)
    case Conflict(start, ours, split, theirs, end) =>
      && OURS <= start && SPLIT <= split && THEIRS <= end
      && (forall i :: 0 <= i < |ours| ==> !(OURS <= ours[i]) && !(SPLIT <= ours[i]))
      && (forall i :: 0 <= i < |theirs| ==> !(OURS <= theirs[i]) && !(THEIRS <= theirs[i]))
  }

  function LinesOf(c: Chunk): seq<string> {
    match c
    case Plain(line) => [line]
    case Conflict(start, ours, split, theirs, end) => [start] + ours + [split] + theirs + [end]
  }

  function FileOf(chunks: seq<Chunk>): seq<string> {
    if chunks == [] then [] else LinesOf(chunks[0]) + FileOf(chunks[1..])
  }

  function ResolveChunk(c: Chunk): seq<string> {
    match c
    case Plain(line) => [line]
    case Conflict(_, ours, _, theirs, _) => ResolveBlock(ours, theirs)
  }

  function ResolveChunks(chunks: seq<Chunk>): seq<string> {
    if chunks == [] then [] else ResolveChunk(chunks[0]) + ResolveChunks(chunks[1..])
  }

  lemma {:induction false} CollectOurs(st: State, lines: seq<string>)
    requires st.inOurs && !st.inTheirs
    requires forall i :: 0 <= i < |lines| ==> !(OURS <= lines[i]) && !(SPLIT <= lines[i])
    ensures Steps(st, lines) == st.(ours := st.ours + lines)
    decreases |lines|
  {
    if lines == [] {
      assert st.ours + lines == st.ours;
    } else {
      CollectOurs(Step(st, lines[0]), lines[1..]);
      assert st.ours + [lines[0]] + lines[1..] == st.ours + lines;
    }
  }

  lemma {:induction false} CollectTheirs(st: State, lines: seq<string>)
    requires !st.inOurs && st.inTheirs
    requires forall i :: 0 <= i < |lines| ==> !(OURS <= lines[i]) && !(THEIRS <= lines[i])
    ensures Steps(st, lines) == st.(theirs := st.theirs + lines)
    decreases |lines|
  {
    if lines == [] {
      assert st.theirs + lines == st.theirs;
    } else {
      CollectTheirs(Step(st, lines[0]), lines[1..]);
      assert st.theirs + [lines[0]] + lines[1..] == st.theirs + lines;
    }
  }

  /** A marker line is no other marker. */
  lemma OneStep(st: State, line: string)
    ensures Steps(st, [line]) == Step(st, line)
    ensures SPLIT <= line || THEIRS <= line ==> !(OURS <= line)
    ensures THEIRS <= line ==> !(SPLIT <= line)
  {
    assert [line][1..] == [];
    assert OURS[0] == '<' && SPLIT[0] == '=' && THEIRS[0] == '>';
  }

  /** Outside a conflict, a whole chunk adds its resolution to the output, and the machine is outside again. */
  lemma ChunkStep(st: State, c: Chunk)
    requires WellFormed(c) && !st.inOurs && !st.inTheirs
    ensures var after := Steps(st, LinesOf(c));
      !after.inOurs && !after.inTheirs && after.out == st.out + ResolveChunk(c)
  {
    hide Steps, ResolveBlock;
    match c
    case Plain(line) => OneStep(st, line);
    case Conflict(start, ours, split, theirs, end) =>
      StepsConcat(st, [start] + ours + [split] + theirs, [end]);
      StepsConcat(st, [start] + ours + [split], theirs);
      StepsConcat(st, [start] + ours, [split]);
      StepsConcat(st, [start], ours);
      OneStep(st, start);
      var s1 := Step(st, start);
      CollectOurs(s1, ours);
      var s2 := s1.(ours := s1.ours + ours);
      assert s2.ours == ours;
      OneStep(s2, split);
      var s3 := Step(s2, split);
      CollectTheirs(s3, theirs);
      var s4 := s3.(theirs := s3.theirs + theirs);
      assert s4.theirs == theirs && s4.ours == ours;
      OneStep(s4, end);
  }

  lemma {:induction false} ChunksStep(st: State, chunks: seq<Chunk>)
    requires !st.inOurs && !st.inTheirs && forall i :: 0 <= i < |chunks| ==> WellFormed(chunks[i])
    ensures Steps(st, FileOf(chunks)).out == st.out + ResolveChunks(chunks)
    decreases |chunks|
  {
    hide Steps, LinesOf, ResolveChunk, WellFormed;
    if chunks == [] {
      assert Steps(st, []) == st by { NoSteps(st); }
    } else {
      ChunkStep(st, chunks[0]);
      StepsConcat(st, LinesOf(chunks[0]), FileOf(chunks[1..]));
      ChunksStep(Steps(st, LinesOf(chunks[0])), chunks[1..]);
    }
  }

  lemma NoSteps(st: State)
    ensures Steps(st, []) == st
  {
  }

  /** `a` is what is left of `b` after leaving some lines out. */
  predicate Subsequence(a: seq<string>, b: seq<string>) {
    a == [] || (b != [] && (if a[0] == b[0] then Subsequence(a[1..], b[1..]) else Subsequence(a, b[1..])))
  }

  /** The lines outside conflicts and those of their side, in order. */
  function PlainAndTheirs(chunks: seq<Chunk>): seq<string> {
    if chunks == [] then []
    else (if chunks[0].Plain? then [chunks[0].line] else chunks[0].theirs) + PlainAndTheirs(chunks[1..])
  }

  lemma {:induction false} SubsequenceTail(a: seq<string>, b: seq<string>)
    requires a != [] && Subsequence(a, b)
    ensures Subsequence(a[1..], b)
    decreases |b|
  {
    if a[0] == b[0] {
      if a[1..] != [] {
        if a[1..][0] == b[0] { SubsequenceTail(a[1..], b[1..]); }
      }
    } else {
      SubsequenceTail(a, b[1..]);
      if a[1..] != [] && a[1..][0] == b[0] { SubsequenceTail(a[1..], b[1..]); }
    }
  }

  lemma SubsequenceBehind(a: seq<string>, x: string, b: seq<string>)
    requires Subsequence(a, b)
    ensures Subsequence(a, [x] + b)
  {
    assert ([x] + b)[1..] == b;
    if a != [] && a[0] == x { SubsequenceTail(a, b); }
  }

  lemma {:induction false} SubsequenceAfter(a: seq<string>, front: seq<string>, b: seq<string>)
    requires Subsequence(a, b)
    ensures Subsequence(a, front + b)
    decreases |front|
  {
    if front == [] {
      assert front + b == b;
    } else {
      SubsequenceAfter(a, front[1..], b);
      SubsequenceBehind(a, front[0], front[1..] + b);
      assert [front[0]] + (front[1..] + b) == front + b;
    }
  }

  lemma {:induction false} SubsequenceCommon(common: seq<string>, a: seq<string>, b: seq<string>)
    requires Subsequence(a, b)
    ensures Subsequence(common + a, common + b)
    decreases |common|
  {
    if common == [] {
      assert common + a == a && common + b == b;
    } else {
      SubsequenceCommon(common[1..], a, b);
      assert (common + a)[1..] == common[1..] + a && (common + b)[1..] == common[1..] + b;
    }
  }

  lemma {:induction false} RemainingInOrder(ours: seq<string>, theirs: seq<string>)
    ensures Subsequence(Remaining(ours, theirs), ours)
    decreases |ours|
  {
    hide Skipped;
    if ours != [] {
      RemainingInOrder(ours[1..], theirs);
      assert ours == [ours[0]] + ours[1..];
      if Skipped(ours[0], theirs) {
        assert Remaining(ours, theirs) == Remaining(ours[1..], theirs);
        SubsequenceBehind(Remaining(ours[1..], theirs), ours[0], ours[1..]);
      } else {
        SubsequenceCommon([ours[0]], Remaining(ours[1..], theirs), ours[1..]);
      }
    }
  }

  lemma {:induction false} RemainingCounts(ours: seq<string>, theirs: seq<string>, line: string)
    ensures multiset(Remaining(ours, theirs))[line] == if Skipped(line, theirs) then 0 else multiset(ours)[line]
    decreases |ours|
  {
    hide Skipped;
    if ours != [] {
      RemainingCounts(ours[1..], theirs, line);
      assert ours == [ours[0]] + ours[1..];
    }
  }

  /** The word stands somewhere in the line, and in some of the lines. */
  ghost predicate Has(line: string, word: string) { exists x, y :: line == x + word + y }

  ghost predicate SomeHas(lines: seq<string>, word: string) { exists i :: 0 <= i < |lines| && Has(lines[i], word) }

  lemma HasIsContains(line: string, word: string)
    ensures Has(line, word) <==> Contains(line, word)
  {
    if Has(line, word) {
      var x, y :| line == x + word + y;
      assert line[|x|..] == word + y;
    }
    if Contains(line, word) {
      var i :| 0 <= i <= |line| && word <= line[i..];
      assert line == line[..i] + word + line[i + |word|..];
    }
  }

  lemma SomeHasIsAny(lines: seq<string>, word: string)
    ensures SomeHas(lines, word) <==> AnyContains(lines, word)
  {
    hide Contains, Has;
    forall i | 0 <= i < |lines| ensures Has(lines[i], word) <==> Contains(lines[i], word) {
      HasIsContains(lines[i], word);
    }
  }

  /** A line of ours that their side supersedes: one about the state procedure, one about the penalty if theirs speak of
      it too, or one about the sync state that is not patched itself. */
  ghost predicate Superseded(line: string, theirs: seq<string>) {
    || Has(line, "s_net_states_proc")
    || (Has(line, "PENALTY_KICK") && SomeHas(theirs, "PENALTY_KICK"))
    || (Has(line, "NET_STATE_SYNC_CHAINS") && !Has(line, "syncfix"))
  }

  /** In a conflict whose other side is patched in some line, our lines come first and in order, every one of them as
      often as it was there, except that the superseded ones are gone. Without a patch nothing of ours remains. */
  lemma OursInConflict(ours: seq<string>, theirs: seq<string>, line: string)
    ensures !SomeHas(theirs, "syncfix") ==> ResolveBlock(ours, theirs) == theirs
    ensures SomeHas(theirs, "syncfix") ==>
      exists kept ::
        && ResolveBlock(ours, theirs) == kept + theirs && Subsequence(kept, ours)
        && multiset(kept)[line] == if Superseded(line, theirs) then 0 else multiset(ours)[line]
  {
    hide Contains, Has, SomeHas, AnyContains, Remaining, Subsequence;
    SomeHasIsAny(theirs, "syncfix");
    SomeHasIsAny(theirs, "PENALTY_KICK");
    HasIsContains(line, "s_net_states_proc");
    HasIsContains(line, "PENALTY_KICK");
    HasIsContains(line, "NET_STATE_SYNC_CHAINS");
    HasIsContains(line, "syncfix");
    RemainingInOrder(ours, theirs);
    RemainingCounts(ours, theirs, line);
    var kept := Remaining(ours, theirs);
    assert AnyContains(theirs, "syncfix") ==> ResolveBlock(ours, theirs) == kept + theirs;
  }

  lemma {:induction false} NothingElseIsLost(chunks: seq<Chunk>)
    ensures Subsequence(PlainAndTheirs(chunks), ResolveChunks(chunks))
    decreases |chunks|
  {
    hide AnyContains, Remaining;
    if chunks != [] {
      var rest, out := PlainAndTheirs(chunks[1..]), ResolveChunks(chunks[1..]);
      NothingElseIsLost(chunks[1..]);
      match chunks[0]
      case Plain(line) => SubsequenceCommon([line], rest, out);
      case Conflict(_, ours, _, theirs, _) =>
        SubsequenceCommon(theirs, rest, out);
        var front := if AnyContains(theirs, "syncfix") then Remaining(ours, theirs) else [];
        SubsequenceAfter(theirs + rest, front, theirs + out);
        assert ResolveChunks(chunks) == front + (theirs + out);
    }
  }

  /** On every well-formed conflict file, the state machine is the block-by-block resolution, which keeps all lines
      outside conflicts and all of theirs, in order. */
  lemma ResolverIsBlockwise(chunks: seq<Chunk>)
    requires forall i :: 0 <= i < |chunks| ==> WellFormed(chunks[i])
    ensures Resolve(FileOf(chunks)) == ResolveChunks(chunks)
    ensures Subsequence(PlainAndTheirs(chunks), Resolve(FileOf(chunks)))
  {
    hide WellFormed;
    ChunksStep(START, chunks);
    NothingElseIsLost(chunks);
    assert START.out + ResolveChunks(chunks) == ResolveChunks(chunks);
  }

  // ---- Malformed conflicts ----

  /** No line is a marker of any kind. */
  predicate MarkerFree(lines: seq<string>) {
    forall i :: 0 <= i < |lines| ==> !(OURS <= lines[i]) && !(SPLIT <= lines[i]) && !(THEIRS <= lines[i])
  }

  lemma {:induction false} Collects(st: State, lines: seq<string>)
    requires MarkerFree(lines)
    ensures Steps(st, lines) ==
            if st.inOurs then st.(ours := st.ours + lines)
            else if st.inTheirs then st.(theirs := st.theirs + lines)
            else st.(out := st.out + lines)
    decreases |lines|
  {
    if lines == [] {
      assert st.ours + [] == st.ours && st.theirs + [] == st.theirs && st.out + [] == st.out;
    } else {
      Collects(Step(st, lines[0]), lines[1..]);
      assert lines == [lines[0]] + lines[1..];
      assert forall x: seq<string> :: x + [lines[0]] + lines[1..] == x + lines;
    }
  }

  /** Markers that do not fit are ordinary lines: a separator or an end marker outside a conflict stays. */
  lemma StrayMarkersStay(before: seq<string>, line: string)
    requires MarkerFree(before) && !(OURS <= line)
    ensures Resolve(before + [line]) == before + [line]
  {
    hide Step;
    StepsConcat(START, before, [line]);
    Collects(START, before);
    StepOutside(Steps(START, before), line);
    assert [] + before == before && [line][1..] == [];
  }

  lemma StepOutside(st: State, line: string)
    requires !st.inOurs && !st.inTheirs && !(OURS <= line)
    ensures Step(st, line) == st.(out := st.out + [line])
  {
  }

  /** A conflict that never ends takes all lines behind its start with it. */
  lemma UnfinishedConflictIsDropped(before: seq<string>, start: string, ours: seq<string>, split: string,
                                    theirs: seq<string>)
    requires MarkerFree(before) && MarkerFree(ours) && MarkerFree(theirs)
    requires OURS <= start && SPLIT <= split && !(OURS <= split)
    ensures Resolve(before + [start] + ours) == before
    ensures Resolve(before + [start] + ours + [split] + theirs) == before
  {
    hide MarkerFree, Step;
    var inside := Steps(START, before + [start] + ours);
    Opened(before, start, ours);
    StepsConcat(START, before + [start] + ours, [split] + theirs);
    StepsConcat(inside, [split], theirs);
    assert before + [start] + ours + [split] + theirs == (before + [start] + ours) + ([split] + theirs);
    OneSplit(inside, split);
    Collects(Steps(inside, [split]), theirs);
  }

  lemma Opened(before: seq<string>, start: string, ours: seq<string>)
    requires MarkerFree(before) && MarkerFree(ours) && OURS <= start
    ensures Steps(START, before + [start] + ours) == State(true, false, ours, [], before)
  {
    hide MarkerFree;
    StepsConcat(START, before + [start], ours);
    StepsConcat(START, before, [start]);
    Collects(START, before);
    assert [] + before == before && [start][1..] == [];
    Collects(Steps(START, before + [start]), ours);
    assert [] + ours == ours;
  }

  lemma OneSplit(st: State, split: string)
    requires st.inOurs && SPLIT <= split && !(OURS <= split)
    ensures Steps(st, [split]) == st.(inOurs := false, inTheirs := true, theirs := [])
  {
    assert [split][1..] == [];
  }

  /** A second start marker begins the conflict anew: what was collected since the first one is lost. */
  lemma SecondStartBeginsAnew(before: seq<string>, start: string, ours: seq<string>, again: string,
                              rest: seq<string>)
    requires MarkerFree(before) && MarkerFree(ours) && OURS <= start && OURS <= again
    ensures Resolve(before + [start] + ours + ([again] + rest)) == Resolve(before + ([again] + rest))
  {
    hide MarkerFree;
    var tail := [again] + rest;
    Opened(before, start, ours);
    StepsConcat(START, before + [start] + ours, tail);
    StepsConcat(START, before, tail);
    Collects(START, before);
    assert [] + before == before && tail[1..] == rest && tail[0] == again;
  }

  /** A start marker among their lines does not end their side: the next end marker resolves the lines behind that start
      against it. */
  lemma StartAmongTheirs(before: seq<string>, start: string, ours: seq<string>, split: string, theirs: seq<string>,
                         again: string, more: seq<string>, end: string)
    requires MarkerFree(before) && MarkerFree(ours) && MarkerFree(theirs) && MarkerFree(more)
    requires OURS <= start && SPLIT <= split && !(OURS <= split) && OURS <= again
    requires THEIRS <= end && !(OURS <= end) && !(SPLIT <= end)
    ensures Resolve(before + [start] + ours + [split] + theirs + [again] + more + [end]) ==
            before + ResolveBlock(more, theirs)
  {
    hide MarkerFree, ResolveBlock;
    var front := before + [start] + ours;
    var inside := State(true, false, ours, [], before);
    Opened(before, start, ours);
    StepsConcat(START, front + [split] + theirs + [again] + more, [end]);
    StepsConcat(START, front + [split] + theirs + [again], more);
    StepsConcat(START, front + [split] + theirs, [again]);
    StepsConcat(START, front + [split], theirs);
    StepsConcat(START, front, [split]);
    OneSplit(inside, split);
    var theirSide := inside.(inOurs := false, inTheirs := true, theirs := []);
    Collects(theirSide, theirs);
    assert [] + theirs == theirs && [again][1..] == [] && [end][1..] == [];
    var both := State(true, true, [], theirs, before);
    Collects(both, more);
    assert [] + more == more;
  }

  // ---- The text of a file ----

  /** `split('\n')`: at least one line, the last one possibly empty. */
  function SplitLines(text: string): (lines: seq<string>)
    ensures lines != [] && forall i :: 0 <= i < |lines| ==> '\n' !in lines[i]
  {
    var i := IndexOf(text, '\n');
    if i == |text| then [text] else [text[..i]] + SplitLines(text[i + 1..])
  }

  function JoinLines(lines: seq<string>): string {
    if lines == [] then "" else if |lines| == 1 then lines[0] else lines[0] + "\n" + JoinLines(lines[1..])
  }

  /** What the script makes of a file; files without the marker anywhere are not touched. */
  function ResolveText(text: string): string {
    if Contains(text, OURS) then JoinLines(Resolve(SplitLines(text))) else text
  }

  lemma SplitCons(line: string, rest: string)
    requires '\n' !in line
    ensures SplitLines(line + "\n" + rest) == [line] + SplitLines(rest)
  {
    var text := line + "\n" + rest;
    assert text[..|line|] == line && text[|line| + 1..] == rest;
    IndexOfAt(text, '\n', |line|);
  }

  lemma {:induction false} SplitJoin(lines: seq<string>)
    requires lines != [] && forall i :: 0 <= i < |lines| ==> '\n' !in lines[i]
    ensures SplitLines(JoinLines(lines)) == lines
    decreases |lines|
  {
    hide SplitLines, IndexOf;
    if |lines| == 1 {
      SplitOne(lines[0]);
      assert lines == [lines[0]];
    } else {
      SplitJoin(lines[1..]);
      SplitCons(lines[0], JoinLines(lines[1..]));
      assert lines == [lines[0]] + lines[1..];
    }
  }

  lemma SplitOne(line: string)
    requires '\n' !in line
    ensures SplitLines(line) == [line]
  {
  }

  lemma {:induction false} OneLineComesOut(st: State, lines: seq<string>, c: char)
    requires forall line :: line in st.ours + st.theirs + st.out + lines ==> c !in line
    ensures forall line :: line in Steps(st, lines).out ==> c !in line
    decreases |lines|
  {
    hide Skipped, AnyContains;
    if lines != [] {
      var next := Step(st, lines[0]);
      forall line | line in next.ours + next.theirs + next.out + lines[1..] ensures c !in line {
        assert line in Remaining(st.ours, st.theirs) ==> line in st.ours;
        assert line == lines[0] || line in st.ours + st.theirs + st.out + lines;
      }
      OneLineComesOut(next, lines[1..], c);
    }
  }

  /** Headers are globbed twice, so a file may be resolved twice: the second time leaves it as it is. */
  lemma ResolvingAFileTwice(text: string)
    ensures ResolveText(ResolveText(text)) == ResolveText(text)
  {
    hide Contains, Steps, SplitLines, JoinLines;
    if Contains(text, OURS) {
      var lines := SplitLines(text);
      var out := Resolve(lines);
      ResolveIsIdempotent(lines);
      if Contains(JoinLines(out), OURS) {
        assert out != [] by { EmptyHasNoMarker(); }
        assert forall line :: line in START.ours + START.theirs + START.out + lines ==> '\n' !in line;
        OneLineComesOut(START, lines, '\n');
        assert forall i :: 0 <= i < |out| ==> out[i] in out;
        SplitJoin(out);
      }
    }
  }

  lemma EmptyHasNoMarker()
    ensures !Contains(JoinLines([]), OURS)
  {
  }

  lemma JoinCons(line: string, lines: seq<string>)
    requires lines != []
    ensures JoinLines([line] + lines) == line + "\n" + JoinLines(lines)
  {
    assert ([line] + lines)[1..] == lines;
  }

  lemma {:induction false} JoinSplit(text: string)
    ensures JoinLines(SplitLines(text)) == text
    decreases |text|
  {
    hide SplitLines, IndexOf;
    if '\n' !in text {
      SplitOne(text);
    } else {
      hide JoinLines;
      var line, rest := FirstLine(text);
      JoinSplit(rest);
      SplitCons(line, rest);
      JoinCons(line, SplitLines(rest));
    }
  }

  lemma FirstLine(text: string) returns (line: string, rest: string)
    requires '\n' in text
    ensures text == line + "\n" + rest == line + ("\n" + rest) && '\n' !in line && |rest| < |text|
  {
    var i := IndexOf(text, '\n');
    line, rest := text[..i], text[i + 1..];
  }

  lemma ContainsBehind(front: string, rest: string, word: string)
    requires Contains(rest, word)
    ensures Contains(front + rest, word)
  {
    var j :| 0 <= j <= |rest| && word <= rest[j..];
    assert rest[j..] == (front + rest)[|front| + j..];
  }

  lemma StartsContain(line: string, rest: string, word: string)
    requires word <= line
    ensures Contains(line + rest, word)
  {
    assert word <= (line + rest)[0..];
  }

  lemma {:induction false} LineIsInside(text: string, k: nat)
    requires k < |SplitLines(text)| && OURS <= SplitLines(text)[k]
    ensures Contains(text, OURS)
    decreases |text|
  {
    hide SplitLines, Contains, IndexOf;
    if '\n' !in text {
      SplitOne(text);
      StartsContain(text, "", OURS);
      assert text + "" == text;
    } else {
      var line, rest := FirstLine(text);
      SplitCons(line, rest);
      if k == 0 {
        StartsContain(line, "\n" + rest, OURS);
      } else {
        LineIsInside(rest, k - 1);
        ContainsBehind(line + "\n", rest, OURS);
      }
    }
  }

  /** Leaving files without the marker alone is only a shortcut: they would come out as they are. */
  lemma SkippingIsAShortcut(text: string)
    ensures ResolveText(text) == JoinLines(Resolve(SplitLines(text)))
  {
    hide Contains, SplitLines, JoinLines, Steps;
    if !Contains(text, OURS) {
      var lines := SplitLines(text);
      forall k | 0 <= k < |lines| ensures !(OURS <= lines[k]) {
        if OURS <= lines[k] { LineIsInside(text, k); }
      }
      NothingToResolve(START, lines);
      assert START.out + lines == lines;
      JoinSplit(text);
    }
  }
}
