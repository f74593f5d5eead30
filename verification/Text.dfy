/** Character-level helpers of the configuration tool: trimming and splitting into tokens. */
module Text {

  /** `std::isspace` in the C locale. */
  predicate IsSpace(c: char) {
    c == ' ' || 9 <= c as int <= 13
  }

  /** No white space at either edge. */
  predicate Trimmed(s: string) {
    s != "" ==> !IsSpace(s[0]) && !IsSpace(s[|s| - 1])
  }

  predicate EndsWithSpace(s: string) {
    s != "" && IsSpace(s[|s| - 1])
  }

  function TrimLeft(s: string): (r: string)
    ensures r != "" ==> !IsSpace(r[0])
  {
    if s != "" && IsSpace(s[0]) then TrimLeft(s[1..]) else s
  }

  function TrimRight(s: string): (r: string)
    ensures r <= s && !EndsWithSpace(r)
  {
    if EndsWithSpace(s) then TrimRight(s[..|s| - 1]) else s
  }

  function Trim(s: string): (r: string)
    ensures Trimmed(r)
    ensures Trimmed(s) ==> r == s
  {
    TrimLeftSuffix(TrimRight(s));
    TrimLeft(TrimRight(s))
  }

  lemma {:induction false} TrimLeftSuffix(s: string)
    ensures var r := TrimLeft(s); |r| <= |s| && r == s[|s| - |r|..]
    ensures forall i :: 0 <= i < |s| - |TrimLeft(s)| ==> IsSpace(s[i])
  {
    if s != "" && IsSpace(s[0]) { TrimLeftSuffix(s[1..]); }
  }

  lemma {:induction false} TrimRightDropsSpace(s: string)
    ensures forall i :: |TrimRight(s)| <= i < |s| ==> IsSpace(s[i])
  {
    if EndsWithSpace(s) { TrimRightDropsSpace(s[..|s| - 1]); }
  }

  lemma {:induction false} TrimRightOfSpace(s: string)
    requires forall i :: 0 <= i < |s| ==> IsSpace(s[i])
    ensures TrimRight(s) == ""
  {
    if s != "" { TrimRightOfSpace(s[..|s| - 1]); }
  }

  lemma TrimInside(s: string, c: char)
    requires c in Trim(s)
    ensures c in s
  {
    TrimLeftSuffix(TrimRight(s));
    assert c in TrimRight(s);
  }

  /** Only white space trims to nothing. */
  lemma TrimKeepsSomething(s: string, i: nat)
    requires i < |s| && !IsSpace(s[i])
    ensures Trim(s) != ""
  {
    TrimRightDropsSpace(s);
    TrimLeftSuffix(TrimRight(s));
  }

  lemma {:induction false} TrimRightAppend(a: string, s: string)
    requires a != "" && !IsSpace(a[|a| - 1])
    ensures TrimRight(a + s) == a + TrimRight(s)
    decreases |s|
  {
    if s == "" {
      assert a + s == a;
    } else if EndsWithSpace(s) {
      assert (a + s)[..|a + s| - 1] == a + s[..|s| - 1];
      TrimRightAppend(a, s[..|s| - 1]);
    }
  }

  lemma {:induction false} TrimDropsTrailing(s: string, space: string)
    requires forall i :: 0 <= i < |space| ==> IsSpace(space[i])
    ensures TrimRight(s + space) == TrimRight(s)
    decreases |space|
  {
    if space == "" {
      assert s + space == s;
    } else {
      var shorter := space[..|space| - 1];
      assert (s + space)[..|s + space| - 1] == s + shorter;
      TrimDropsTrailing(s, shorter);
    }
  }

  // ---- White space around a text ----

  /** The white space of the C locale, character by character. */
  const BLANKS: string := " \t\n\r\U{b}\U{c}"

  predicate AllBlank(s: string) { forall i :: 0 <= i < |s| ==> s[i] in BLANKS }

  /** The text with white space before and after it. */
  ghost predicate Framed(wide: string, s: string) {
    exists before, after :: AllBlank(before) && AllBlank(after) && wide == before + s + after
  }

  lemma BlanksAreSpaces(s: string)
    requires AllBlank(s)
    ensures forall i :: 0 <= i < |s| ==> IsSpace(s[i])
  {
  }

  /** Nothing else is trimmed. */
  lemma OnlyBlanksAreTrimmed(s: string)
    ensures Trim(s) == s <==> s == "" || (s[0] !in BLANKS && s[|s| - 1] !in BLANKS)
  {
    SpacesAreBlanks(s);
  }

  lemma SpacesAreBlanks(s: string)
    ensures forall i :: 0 <= i < |s| ==> (IsSpace(s[i]) <==> s[i] in BLANKS)
  {
  }

  lemma {:induction false} TrimLeftDropsLeading(before: string, s: string)
    requires AllBlank(before)
    ensures TrimLeft(before + s) == TrimLeft(s)
    decreases |before|
  {
    if before == "" {
      assert before + s == s;
    } else {
      BlanksAreSpaces(before);
      assert (before + s)[0] == before[0] && (before + s)[1..] == before[1..] + s;
      TrimLeftDropsLeading(before[1..], s);
    }
  }

  lemma {:induction false} TrimRightPrepend(before: string, s: string)
    requires TrimRight(s) != ""
    ensures TrimRight(before + s) == before + TrimRight(s)
    decreases |s|
  {
    assert (before + s)[|before + s| - 1] == s[|s| - 1];
    if EndsWithSpace(s) {
      assert (before + s)[..|before + s| - 1] == before + s[..|s| - 1];
      TrimRightPrepend(before, s[..|s| - 1]);
    }
  }

  /** Trimming takes away whatever white space is put around a text. */
  lemma TrimAround(before: string, s: string, after: string)
    requires AllBlank(before) && AllBlank(after)
    ensures Trim(before + s + after) == Trim(s)
  {
    hide TrimLeft, TrimRight, IsSpace;
    BlanksAreSpaces(before);
    BlanksAreSpaces(after);
    TrimDropsTrailing(before + s, after);
    if TrimRight(s) == "" {
      TrimRightDropsSpace(s);
      TrimRightOfSpace(before + s);
    } else {
      TrimRightPrepend(before, s);
      TrimLeftDropsLeading(before, TrimRight(s));
    }
  }

  lemma {:induction false} TrimLeftAppend(s: string, after: string)
    requires TrimLeft(s) != ""
    ensures TrimLeft(s + after) == TrimLeft(s) + after
    decreases |s|
  {
    assert (s + after)[0] == s[0];
    if IsSpace(s[0]) {
      assert (s + after)[1..] == s[1..] + after;
      TrimLeftAppend(s[1..], after);
    }
  }

  lemma {:induction false} TrimLeftOfSpace(s: string)
    requires forall i :: 0 <= i < |s| ==> IsSpace(s[i])
    ensures TrimLeft(s) == ""
  {
    if s != "" { TrimLeftOfSpace(s[1..]); }
  }

  /** The two ends can be trimmed in either order. */
  lemma TrimEitherEndFirst(s: string)
    ensures TrimRight(TrimLeft(s)) == TrimLeft(TrimRight(s))
  {
    hide TrimLeft, TrimRight, IsSpace;
    var u := TrimRight(s);
    TrimRightDropsSpace(s);
    if u == "" {
      TrimLeftOfSpace(s);
      TrimLeftOfSpace("");
      TrimRightOfSpace("");
    } else {
      var space := s[|u|..];
      assert s == u + space && forall i :: 0 <= i < |space| ==> IsSpace(space[i]);
      LeftTrimmed(u);
      TrimLeftAppend(u, space);
      TrimDropsTrailing(TrimLeft(u), space);
    }
  }

  lemma LeftTrimmed(u: string)
    requires u != "" && !EndsWithSpace(u)
    ensures TrimLeft(u) != "" && TrimRight(TrimLeft(u)) == TrimLeft(u)
  {
    TrimLeftSuffix(u);
    assert TrimLeft(u) != "";
  }

  /** Position of the first `c` in `s`, or the length of `s`. */
  function IndexOf(s: string, c: char): (i: nat)
    ensures i <= |s|
    ensures c !in s[..i]
    ensures i < |s| ==> s[i] == c
    ensures i == |s| <==> c !in s
  {
    if s == "" || s[0] == c then 0
    else
      assert s == [s[0]] + s[1..];
      var j := IndexOf(s[1..], c);
      assert s[..1 + j] == [s[0]] + s[1..][..j];
      1 + j
  }

  lemma IndexOfAt(s: string, c: char, i: nat)
    requires i <= |s| && c !in s[..i] && (i < |s| ==> s[i] == c)
    ensures IndexOf(s, c) == i
  {
    var j := IndexOf(s, c);
    assert forall k :: 0 <= k < i ==> s[k] == s[..i][k];
    assert forall k :: 0 <= k < j ==> s[k] == s[..j][k];
  }

  /** The non-empty pieces of `s` between separators. */
  function Tokens(s: string, sep: char): (ts: seq<string>)
    ensures forall t :: t in ts ==> t != "" && sep !in t
    ensures ts == [] <==> forall i :: 0 <= i < |s| ==> s[i] == sep
  {
    if s == "" then []
    else
      var i := IndexOf(s, sep);
      if i == |s| then [s]
      else
        assert i > 0 ==> s[0] != sep by { if i > 0 { assert s[..i][0] == s[0]; } }
        assert forall k :: i < k < |s| ==> s[k] == s[i + 1..][k - i - 1];
        (if i == 0 then [] else [s[..i]]) + Tokens(s[i + 1..], sep)
  }

  lemma TokensCons(a: string, sep: char, rest: string)
    requires sep !in a
    ensures Tokens(a + [sep] + rest, sep) == (if a == "" then [] else [a]) + Tokens(rest, sep)
  {
    var s := a + [sep] + rest;
    assert s[..|a|] == a && s[|a| + 1..] == rest;
    IndexOfAt(s, sep, |a|);
  }

  lemma {:induction false} TokensInside(s: string, sep: char, t: string, c: char)
    requires t in Tokens(s, sep) && c in t
    ensures c in s
  {
    var i := IndexOf(s, sep);
    if i < |s| && t in Tokens(s[i + 1..], sep) {
      TokensInside(s[i + 1..], sep, t, c);
      assert c in s[i + 1..];
    }
  }

  predicate Contains(s: string, word: string) {
    exists i :: 0 <= i <= |s| && word <= s[i..]
  }

  // ---- Words ----

  /** No separator in the text. */
  predicate Unbroken(s: string, sep: char -> bool) { forall i :: 0 <= i < |s| ==> !sep(s[i]) }

  /** The pieces of `s` between separators. */
  function Words(s: string, sep: char -> bool): seq<string> {
    if s == "" then []
    else if sep(s[|s| - 1]) then Words(s[..|s| - 1], sep)
    else
      var i := WordStart(s, sep);
      Words(s[..i], sep) + [s[i..]]
  }

  function WordStart(s: string, sep: char -> bool): (i: nat)
    requires s != "" && !sep(s[|s| - 1])
    ensures i < |s| && Unbroken(s[i..], sep) && (i > 0 ==> sep(s[i - 1]))
  {
    if |s| == 1 || sep(s[|s| - 2]) then |s| - 1
    else
      var i := WordStart(s[..|s| - 1], sep);
      assert s[i..] == s[..|s| - 1][i..] + [s[|s| - 1]];
      i
  }

  lemma UnbrokenFrom(s: string, sep: char -> bool, i: nat)
    requires i <= |s| && Unbroken(s[i..], sep)
    ensures forall k :: i <= k < |s| ==> !sep(s[k])
  {
    assert forall k :: i <= k < |s| ==> s[k] == s[i..][k - i];
  }

  lemma WordStartUnique(s: string, sep: char -> bool, i: nat)
    requires i < |s| && Unbroken(s[i..], sep) && (i > 0 ==> sep(s[i - 1]))
    ensures !sep(s[|s| - 1]) && WordStart(s, sep) == i
  {
    hide WordStart;
    UnbrokenFrom(s, sep, i);
    UnbrokenFrom(s, sep, WordStart(s, sep));
  }

  lemma {:induction false} WordsConcat(a: string, c: char, b: string, sep: char -> bool)
    requires sep(c)
    ensures Words(a + [c] + b, sep) == Words(a, sep) + Words(b, sep)
    decreases |b|
  {
    hide WordStart, Unbroken;
    var s := a + [c] + b;
    if b == "" {
      assert s[..|s| - 1] == a;
    } else if sep(b[|b| - 1]) {
      assert s[..|s| - 1] == a + [c] + b[..|b| - 1];
      WordsConcat(a, c, b[..|b| - 1], sep);
    } else {
      var i := WordStart(b, sep);
      var j := |a| + 1 + i;
      assert s[j..] == b[i..] && s[..j] == a + [c] + b[..i];
      WordStartUnique(s, sep, j);
      WordsConcat(a, c, b[..i], sep);
    }
  }

  /** How many separators there are between two words, and which, does not matter. */
  lemma {:induction false} WordsAcross(a: string, gap: string, b: string, sep: char -> bool)
    requires gap != "" && forall i :: 0 <= i < |gap| ==> sep(gap[i])
    ensures Words(a + gap + b, sep) == Words(a, sep) + Words(b, sep)
    decreases |gap|
  {
    hide Words;
    var c, rest := gap[0], gap[1..];
    assert a + gap + b == a + [c] + (rest + b);
    WordsConcat(a, c, rest + b, sep);
    if rest == "" {
      assert rest + b == b;
    } else {
      WordsAcross("", rest, b, sep);
      NoWords(sep);
      assert "" + rest + b == rest + b && [] + Words(b, sep) == Words(b, sep);
    }
  }

  lemma {:induction false} WordsWithoutIndent(s: string)
    ensures Words(TrimLeft(s), IsSpace) == Words(s, IsSpace)
  {
    hide Words;
    if s != "" && IsSpace(s[0]) {
      WordsWithoutIndent(s[1..]);
      WordsConcat("", s[0], s[1..], IsSpace);
      NoWords(IsSpace);
      assert "" + [s[0]] + s[1..] == s && [] + Words(s[1..], IsSpace) == Words(s[1..], IsSpace);
    }
  }

  /** A name without separators is one word; a word never holds any. */
  lemma {:induction false} WordsAreUnbroken(s: string, sep: char -> bool)
    ensures forall w :: w in Words(s, sep) ==> w != "" && Unbroken(w, sep)
    ensures s != "" && Unbroken(s, sep) ==> Words(s, sep) == [s]
    decreases |s|
  {
    if s != "" {
      if sep(s[|s| - 1]) {
        WordsAreUnbroken(s[..|s| - 1], sep);
      } else {
        WordsAreUnbroken(s[..WordStart(s, sep)], sep);
        if Unbroken(s, sep) {
          assert s[0..] == s && s[..0] == "";
          WordStartUnique(s, sep, 0);
        }
      }
    }
  }

  lemma NoWords(sep: char -> bool)
    ensures Words("", sep) == []
  {
  }
}
