/** Variable substitution: one literal replacement pass per stored variable, in the order of the variable map,
    against the simultaneous substitution of all references. */
module Placeholders {
  import opened Text

  type Vars = map<string, string>

  function Pattern(name: string): string { "${" + name + "}" }

  /** Leftmost, non-overlapping replacement of a literal text. */
  function ReplaceAll(s: string, pattern: string, text: string): string
    requires pattern != ""
    decreases |s|
  {
    if |s| < |pattern| then s
    else if s[..|pattern|] == pattern then text + ReplaceAll(s[|pattern|..], pattern, text)
    else [s[0]] + ReplaceAll(s[1..], pattern, text)
  }

  /** One replacement pass per name. */
  function Passes(s: string, vars: Vars, order: seq<string>): string
    requires forall n :: n in order ==> n in vars
    decreases |order|
  {
    if order == [] then s
    else Passes(ReplaceAll(s, Pattern(order[0]), vars[order[0]]), vars, order[1..])
  }

  // ---- The order of the variable map ----

  predicate AtMost(a: string, b: string) {
    a == "" || (b != "" && (a[0] < b[0] || (a[0] == b[0] && AtMost(a[1..], b[1..]))))
  }

  lemma {:induction false} AtMostTotal(a: string, b: string)
    ensures AtMost(a, b) || AtMost(b, a)
    ensures AtMost(a, b) && AtMost(b, a) ==> a == b
  {
    if a != "" && b != "" && a[0] == b[0] {
      AtMostTotal(a[1..], b[1..]);
      assert a == [a[0]] + a[1..] && b == [b[0]] + b[1..];
    }
  }

  lemma {:induction false} AtMostTransitive(a: string, b: string, c: string)
    requires AtMost(a, b) && AtMost(b, c)
    ensures AtMost(a, c)
  {
    if a != "" && a[0] == b[0] == c[0] { AtMostTransitive(a[1..], b[1..], c[1..]); }
  }

  /** The placeholder map is keyed by the whole pattern, so `AB` comes before `A`. */
  predicate NameAtMost(a: string, b: string) { AtMost(Pattern(a), Pattern(b)) }

  predicate IsFirst(names: set<string>, n: string) {
    n in names && forall m :: m in names ==> NameAtMost(n, m)
  }

  lemma PatternInjective(a: string, b: string)
    requires Pattern(a) == Pattern(b)
    ensures a == b
  {
    assert a == Pattern(a)[2..|a| + 2] && b == Pattern(b)[2..|b| + 2];
  }

  lemma FirstUnique(names: set<string>)
    ensures forall a, b :: IsFirst(names, a) && IsFirst(names, b) ==> a == b
  {
    forall a, b | IsFirst(names, a) && IsFirst(names, b) ensures a == b {
      AtMostTotal(Pattern(a), Pattern(b));
      PatternInjective(a, b);
    }
  }

  lemma {:induction false} FirstExists(names: set<string>)
    requires names != {}
    ensures exists n :: IsFirst(names, n)
  {
    hide NameAtMost;
    var x :| x in names;
    var rest := names - {x};
    NameAtMostTotal(x, x);
    if rest == {} {
      assert names == {x};
      assert IsFirst(names, x);
    } else {
      FirstExists(rest);
      var y :| IsFirst(rest, y);
      NameAtMostTotal(x, y);
      if NameAtMost(x, y) {
        forall m | m in names ensures NameAtMost(x, m) {
          if m != x { NameAtMostTransitive(x, y, m); }
        }
        assert IsFirst(names, x);
      } else {
        assert IsFirst(names, y);
      }
    }
  }

  lemma NameAtMostTotal(a: string, b: string)
    ensures NameAtMost(a, b) || NameAtMost(b, a)
  {
    AtMostTotal(Pattern(a), Pattern(b));
  }

  lemma NameAtMostTransitive(a: string, b: string, c: string)
    requires NameAtMost(a, b) && NameAtMost(b, c)
    ensures NameAtMost(a, c)
  {
    AtMostTransitive(Pattern(a), Pattern(b), Pattern(c));
  }

  /** The names in the order in which the passes run. */
  function MapOrder(names: set<string>): (order: seq<string>)
    ensures forall n :: n in order <==> n in names
  {
    if names == {} then []
    else
      FirstExists(names);
      FirstUnique(names);
      var n :| IsFirst(names, n);
      [n] + MapOrder(names - {n})
  }

  predicate Ascending(order: seq<string>) {
    forall i, j :: 0 <= i < j < |order| ==> NameAtMost(order[i], order[j]) && order[i] != order[j]
  }

  lemma AscendingCons(first: string, rest: seq<string>)
    requires Ascending(rest) && forall i :: 0 <= i < |rest| ==> NameAtMost(first, rest[i]) && first != rest[i]
    ensures Ascending([first] + rest)
  {
    hide NameAtMost;
    var order := [first] + rest;
    forall i, j | 0 <= i < j < |order| ensures NameAtMost(order[i], order[j]) && order[i] != order[j] {
      assert order[j] == rest[j - 1];
      if i > 0 { assert order[i] == rest[i - 1]; }
    }
  }

  /** The order is that of the map: ascending by pattern, every name once. */
  lemma {:induction false} MapOrderAscends(names: set<string>)
    ensures Ascending(MapOrder(names))
    decreases |names|
  {
    hide NameAtMost, Ascending;
    if names == {} {
      assert Ascending([]) by { NothingAscends(); }
    } else {
      FirstExists(names);
      FirstUnique(names);
      var first := MapOrder(names)[0];
      var rest := MapOrder(names - {first});
      assert IsFirst(names, first) && MapOrder(names) == [first] + rest;
      MapOrderAscends(names - {first});
      assert forall i :: 0 <= i < |rest| ==> rest[i] in rest;
      AscendingCons(first, rest);
    }
  }

  lemma {:induction false} CommonFront(front: string, a: string, b: string)
    ensures AtMost(front + a, front + b) <==> AtMost(a, b)
  {
    if front == "" {
      assert front + a == a && front + b == b;
    } else {
      CommonFront(front[1..], a, b);
      assert (front + a)[1..] == front[1..] + a && (front + b)[1..] == front[1..] + b;
    }
  }

  /** Names go by the first character in which they differ; a name that goes on behind another one comes before it, if
      what follows is less than the closing brace of the key, as every letter, digit and underscore is. */
  lemma NamesByCharacters(front: string, a: string, b: string)
    requires a != "" && a[0] < (if b == "" then '}' else b[0])
    ensures NameAtMost(front + a, front + b) && !NameAtMost(front + b, front + a)
  {
    assert Pattern(front + a) == "${" + front + (a + "}") && Pattern(front + b) == "${" + front + (b + "}");
    CommonFront("${" + front, a + "}", b + "}");
    CommonFront("${" + front, b + "}", a + "}");
  }

  lemma NothingAscends()
    ensures Ascending([])
  {
  }

  /** `substitute_variables` with the current variable store. */
  function Substitute(s: string, vars: Vars): string {
    Passes(s, vars, MapOrder(vars.Keys))
  }

  /** The loop over the variable map that rewrites its input once per variable. */
  method SubstituteVariables(input: string, vars: Vars) returns (text: string)
    ensures text == Substitute(input, vars)
  {
    var order := MapOrder(vars.Keys);
    text := input;
    var i := 0;
    while i < |order|
      invariant 0 <= i <= |order|
      invariant Passes(input, vars, order) == Passes(text, vars, order[i..])
    {
      assert order[i..][1..] == order[i + 1..];
      text := ReplaceAll(text, Pattern(order[i]), vars[order[i]]);
      i := i + 1;
    }
  }

  // ---- Simultaneous substitution ----

  datatype Piece = Plain(c: char) | Ref(name: string)

  predicate ProperPiece(p: Piece) {
    match p
    case Plain(c) => c != '$'
    case Ref(name) => '$' !in name && '}' !in name
  }

  predicate Proper(ps: seq<Piece>) { forall i :: 0 <= i < |ps| ==> ProperPiece(ps[i]) }

  function RenderPiece(p: Piece): string {
    match p
    case Plain(c) => [c]
    case Ref(name) => Pattern(name)
  }

  function Render(ps: seq<Piece>): string {
    if ps == [] then "" else RenderPiece(ps[0]) + Render(ps[1..])
  }

  /** Every `$` opens a reference `${NAME}` whose name holds no `$`. */
  predicate WellPlaced(s: string)
    decreases |s|
  {
    s != "" ==>
      if s[0] != '$' then WellPlaced(s[1..])
      else
        var e := IndexOf(s, '}');
        1 < e < |s| && s[1] == '{' && '$' !in s[1..e] && WellPlaced(s[e + 1..])
  }

  /** The reference at the start of a text. */
  lemma RefAtStart(s: string)
    requires WellPlaced(s) && s != "" && s[0] == '$'
    ensures var e := IndexOf(s, '}');
      1 < e < |s| && '$' !in s[2..e] && '}' !in s[2..e] && s == Pattern(s[2..e]) + s[e + 1..] && WellPlaced(s[e + 1..])
  {
    var e := IndexOf(s, '}');
    assert 1 < e < |s| && s[1] == '{' && '$' !in s[1..e] && '}' !in s[..e];
    BehindBrace(s, e);
  }

  lemma BehindBrace(s: string, e: nat)
    requires 1 < e < |s| && s[0] == '$' && s[1] == '{' && s[e] == '}' && '$' !in s[1..e] && '}' !in s[..e]
    ensures '$' !in s[2..e] && '}' !in s[2..e] && s == Pattern(s[2..e]) + s[e + 1..]
  {
    var name := s[2..e];
    assert s[1..e] == "{" + name && s[..e] == "${" + name;
    assert s == s[..e] + ("}" + s[e + 1..]);
  }

  lemma RenderCons(p: Piece, ps: seq<Piece>)
    ensures Render([p] + ps) == RenderPiece(p) + Render(ps)
  {
    assert ([p] + ps)[1..] == ps;
  }

  function Pieces(s: string): (ps: seq<Piece>)
    requires WellPlaced(s)
    ensures Proper(ps) && Render(ps) == s
    decreases |s|
  {
    if s == "" then []
    else if s[0] != '$' then
      var rest := Pieces(s[1..]);
      RenderCons(Plain(s[0]), rest);
      [Plain(s[0])] + rest
    else
      RefAtStart(s);
      var e := IndexOf(s, '}');
      var rest := Pieces(s[e + 1..]);
      RenderCons(Ref(s[2..e]), rest);
      [Ref(s[2..e])] + rest
  }

  function PlainPieces(v: string): seq<Piece> { seq(|v|, i requires 0 <= i < |v| => Plain(v[i])) }

  function FillPiece(p: Piece, vars: Vars, names: set<string>): seq<Piece>
    requires names <= vars.Keys
  {
    if p.Ref? && p.name in names then PlainPieces(vars[p.name]) else [p]
  }

  /** All references to `names` replaced at once. */
  function Fill(ps: seq<Piece>, vars: Vars, names: set<string>): seq<Piece>
    requires names <= vars.Keys
  {
    if ps == [] then [] else FillPiece(ps[0], vars, names) + Fill(ps[1..], vars, names)
  }

  function Simultaneous(s: string, vars: Vars): string
    requires WellPlaced(s)
  {
    Render(Fill(Pieces(s), vars, vars.Keys))
  }

  /** The names that pieces refer to. */
  function Mentions(ps: seq<Piece>): set<string> {
    if ps == [] then {} else (if ps[0].Ref? then {ps[0].name} else {}) + Mentions(ps[1..])
  }

  /** Values are used as replacement formats, so those of the given names must not hold `$`; no name may hold the
      closing brace. */
  predicate PlainFor(vars: Vars, names: set<string>) {
    forall n :: n in vars ==> '}' !in n && (n in names ==> '$' !in vars[n])
  }

  predicate PlainStore(vars: Vars) { PlainFor(vars, vars.Keys) }

  lemma PlainForFewer(vars: Vars, names: set<string>, fewer: set<string>)
    requires PlainFor(vars, names) && fewer <= names
    ensures PlainFor(vars, fewer)
  {
  }

  lemma PlainStoreFor(vars: Vars, names: set<string>)
    requires PlainStore(vars)
    ensures PlainFor(vars, names)
  {
  }

  // ---- One pass ----

  /** Text without `$` is never part of a match. */
  lemma {:induction false} ReplaceSkips(x: string, rest: string, name: string, v: string)
    requires '$' !in x
    ensures ReplaceAll(x + rest, Pattern(name), v) == x + ReplaceAll(rest, Pattern(name), v)
    decreases |x|
  {
    if x == "" {
      assert x + rest == rest;
    } else {
      var s := x + rest;
      assert s[0] == x[0] && s[1..] == x[1..] + rest;
      assert x[0] in x && x[0] != Pattern(name)[0];
      ReplaceSkips(x[1..], rest, name, v);
      assert x == [x[0]] + x[1..];
      if |s| < |Pattern(name)| {
        assert ReplaceAll(rest, Pattern(name), v) == rest;
      } else {
        assert s[..|Pattern(name)|][0] == s[0];
      }
    }
  }

  lemma PatternMatches(name: string, other: string, rest: string)
    requires '}' !in name && '}' !in other && Pattern(name) <= Pattern(other) + rest
    ensures name == other
  {
    var s := Pattern(other) + rest;
    assert s[2..][|other|] == '}' && s[2..][..|other|] == other;
    assert s[2..][|name|] == '}' && s[2..][..|name|] == name;
    IndexOfAt(s[2..], '}', |name|);
    IndexOfAt(s[2..], '}', |other|);
  }

  lemma ReplaceOther(name: string, other: string, rest: string, v: string)
    requires '}' !in name && '}' !in other && '$' !in other && name != other
    ensures ReplaceAll(Pattern(other) + rest, Pattern(name), v) == Pattern(other) + ReplaceAll(rest, Pattern(name), v)
  {
    var s, tail := Pattern(other) + rest, "{" + other + "}";
    if Pattern(name) <= s { PatternMatches(name, other, rest); }
    assert s[1..] == tail + rest && Pattern(other) == "$" + tail;
    ReplaceSkips(tail, rest, name, v);
    assert "$" + (tail + ReplaceAll(rest, Pattern(name), v)) == Pattern(other) + ReplaceAll(rest, Pattern(name), v);
    if |s| < |Pattern(name)| {
      assert ReplaceAll(tail + rest, Pattern(name), v) == tail + rest;
    }
  }

  lemma {:induction false} RenderConcat(a: seq<Piece>, b: seq<Piece>)
    ensures Render(a + b) == Render(a) + Render(b)
  {
    hide RenderPiece;
    if a == [] {
      assert a + b == b;
    } else {
      calc {
        Render(a + b);
        { assert (a + b)[1..] == a[1..] + b; }
        RenderPiece(a[0]) + Render(a[1..] + b);
        { RenderConcat(a[1..], b); }
        RenderPiece(a[0]) + (Render(a[1..]) + Render(b));
        Render(a) + Render(b);
      }
    }
  }

  lemma {:induction false} RenderPlain(v: string)
    ensures Render(PlainPieces(v)) == v
  {
    if v != "" {
      RenderPlain(v[1..]);
      assert PlainPieces(v)[1..] == PlainPieces(v[1..]);
    }
  }

  /** One pass fills the references to its name and nothing else. */
  lemma {:induction false} PassFills(ps: seq<Piece>, vars: Vars, name: string)
    requires Proper(ps) && name in vars && '}' !in name
    ensures ReplaceAll(Render(ps), Pattern(name), vars[name]) == Render(Fill(ps, vars, {name}))
  {
    if ps != [] {
      var rest, v := Render(ps[1..]), vars[name];
      PassFills(ps[1..], vars, name);
      RenderConcat(FillPiece(ps[0], vars, {name}), Fill(ps[1..], vars, {name}));
      match ps[0]
      case Plain(c) =>
        ReplaceSkips([c], rest, name, v);
        assert Render([ps[0]]) == [c] + Render([]);
      case Ref(other) =>
        if other == name {
          RenderPlain(v);
          assert (Pattern(name) + rest)[|Pattern(name)|..] == rest;
        } else {
          ReplaceOther(name, other, rest, v);
          assert Render([ps[0]]) == Pattern(other) + Render([]);
        }
    }
  }

  // ---- All passes ----

  lemma {:induction false} FillConcat(a: seq<Piece>, b: seq<Piece>, vars: Vars, names: set<string>)
    requires names <= vars.Keys
    ensures Fill(a + b, vars, names) == Fill(a, vars, names) + Fill(b, vars, names)
  {
    hide FillPiece;
    if a == [] {
      assert a + b == b;
    } else {
      calc {
        Fill(a + b, vars, names);
        { assert (a + b)[1..] == a[1..] + b; }
        FillPiece(a[0], vars, names) + Fill(a[1..] + b, vars, names);
        { FillConcat(a[1..], b, vars, names); }
        FillPiece(a[0], vars, names) + (Fill(a[1..], vars, names) + Fill(b, vars, names));
        Fill(a, vars, names) + Fill(b, vars, names);
      }
    }
  }

  lemma {:induction false} FillPlain(v: string, vars: Vars, names: set<string>)
    requires names <= vars.Keys
    ensures Fill(PlainPieces(v), vars, names) == PlainPieces(v)
  {
    if v != "" {
      FillPlain(v[1..], vars, names);
      assert PlainPieces(v)[1..] == PlainPieces(v[1..]);
    }
  }

  lemma {:induction false} FillProper(ps: seq<Piece>, vars: Vars, names: set<string>)
    requires Proper(ps) && PlainFor(vars, Mentions(ps)) && names <= vars.Keys
    ensures Proper(Fill(ps, vars, names))
  {
    if ps != [] {
      PlainForFewer(vars, Mentions(ps), Mentions(ps[1..]));
      FillProper(ps[1..], vars, names);
    }
  }

  lemma {:induction false} MentionsConcat(a: seq<Piece>, b: seq<Piece>)
    ensures Mentions(a + b) == Mentions(a) + Mentions(b)
  {
    if a == [] {
      assert a + b == b;
    } else {
      assert (a + b)[1..] == a[1..] + b;
      MentionsConcat(a[1..], b);
    }
  }

  lemma {:induction false} MentionsPlain(v: string)
    ensures Mentions(PlainPieces(v)) == {}
  {
    if v != "" {
      assert PlainPieces(v)[1..] == PlainPieces(v[1..]);
      MentionsPlain(v[1..]);
    }
  }

  lemma {:induction false} FillMentions(ps: seq<Piece>, vars: Vars, names: set<string>)
    requires names <= vars.Keys
    ensures Mentions(Fill(ps, vars, names)) == Mentions(ps) - names
  {
    if ps != [] {
      FillMentions(ps[1..], vars, names);
      MentionsConcat(FillPiece(ps[0], vars, names), Fill(ps[1..], vars, names));
      if ps[0].Ref? && ps[0].name in names {
        MentionsPlain(vars[ps[0].name]);
      } else {
        assert [ps[0]][1..] == [];
      }
    }
  }

  lemma {:induction false} FillTwice(ps: seq<Piece>, vars: Vars, first: set<string>, second: set<string>)
    requires first <= vars.Keys && second <= vars.Keys
    ensures Fill(Fill(ps, vars, first), vars, second) == Fill(ps, vars, first + second)
  {
    if ps != [] {
      FillTwice(ps[1..], vars, first, second);
      FillConcat(FillPiece(ps[0], vars, first), Fill(ps[1..], vars, first), vars, second);
      if ps[0].Ref? && ps[0].name in first {
        FillPlain(vars[ps[0].name], vars, second);
      } else {
        assert Fill([ps[0]], vars, second) == FillPiece(ps[0], vars, second) + Fill([], vars, second);
      }
    }
  }

  lemma {:induction false} FillNone(ps: seq<Piece>, vars: Vars)
    ensures Fill(ps, vars, {}) == ps
  {
    if ps != [] { FillNone(ps[1..], vars); }
  }

  lemma {:induction false} PassesFill(ps: seq<Piece>, vars: Vars, order: seq<string>)
    requires Proper(ps) && PlainFor(vars, Mentions(ps)) && forall n :: n in order ==> n in vars
    ensures Passes(Render(ps), vars, order) == Render(Fill(ps, vars, set n | n in order))
    decreases |order|
  {
    hide Proper, Render, Fill, ReplaceAll, Mentions;
    if order == [] {
      FillNone(ps, vars);
      assert (set n | n in order) == {};
    } else {
      var filled := Fill(ps, vars, {order[0]});
      var later := set n | n in order[1..];
      PassFills(ps, vars, order[0]);
      FillProper(ps, vars, {order[0]});
      FillMentions(ps, vars, {order[0]});
      PassesFill(filled, vars, order[1..]);
      FillTwice(ps, vars, {order[0]}, later);
      assert {order[0]} + later == set n | n in order by { assert order == [order[0]] + order[1..]; }
    }
  }

  /** The passes make up the simultaneous substitution, whatever their order and whatever the other variables hold. */
  lemma PassesAreSimultaneous(s: string, vars: Vars, order: seq<string>)
    requires WellPlaced(s) && PlainFor(vars, Mentions(Pieces(s))) && forall n :: n in order <==> n in vars
    ensures Passes(s, vars, order) == Simultaneous(s, vars) == Substitute(s, vars)
  {
    hide PlainFor, WellPlaced, Mentions;
    var ps, mapOrder := Pieces(s), MapOrder(vars.Keys);
    PassesFill(ps, vars, order);
    PassesFill(ps, vars, mapOrder);
    assert (set n | n in order) == vars.Keys == (set n | n in mapOrder);
  }

  // ---- Substituting again ----

  lemma WellPlacedPlain(c: char, rest: string)
    requires c != '$' && WellPlaced(rest)
    ensures WellPlaced([c] + rest) && Pieces([c] + rest) == [Plain(c)] + Pieces(rest)
  {
    assert ([c] + rest)[1..] == rest;
  }

  lemma WellPlacedRef(name: string, rest: string)
    requires '$' !in name && '}' !in name && WellPlaced(rest)
    ensures WellPlaced(Pattern(name) + rest) && Pieces(Pattern(name) + rest) == [Ref(name)] + Pieces(rest)
  {
    var s, e := Pattern(name) + rest, |name| + 2;
    assert s[..e] == "${" + name && s[1..e] == "{" + name && s[2..e] == name && s[e + 1..] == rest;
    IndexOfAt(s, '}', e);
  }

  lemma {:induction false} RenderWellPlaced(ps: seq<Piece>)
    requires Proper(ps)
    ensures WellPlaced(Render(ps)) && Pieces(Render(ps)) == ps
  {
    if ps != [] {
      hide WellPlaced, Pieces, Pattern;
      RenderWellPlaced(ps[1..]);
      match ps[0]
      case Plain(c) => WellPlacedPlain(c, Render(ps[1..]));
      case Ref(name) => WellPlacedRef(name, Render(ps[1..]));
      assert [ps[0]] + ps[1..] == ps;
    }
  }

  /** The references left over are the undefined ones, so a second substitution changes nothing. */
  lemma SubstituteIsIdempotent(s: string, vars: Vars)
    requires WellPlaced(s) && PlainFor(vars, Mentions(Pieces(s)))
    ensures WellPlaced(Substitute(s, vars))
    ensures Mentions(Pieces(Substitute(s, vars))) == Mentions(Pieces(s)) - vars.Keys
    ensures Substitute(Substitute(s, vars), vars) == Substitute(s, vars)
  {
    hide WellPlaced, PlainFor, Mentions;
    var ps, filled := Pieces(s), Fill(Pieces(s), vars, vars.Keys);
    var order := MapOrder(vars.Keys);
    FillProper(ps, vars, vars.Keys);
    FillMentions(ps, vars, vars.Keys);
    RenderWellPlaced(filled);
    PlainForFewer(vars, Mentions(ps), Mentions(filled));
    PassesAreSimultaneous(s, vars, order);
    PassesAreSimultaneous(Render(filled), vars, order);
    FillTwice(ps, vars, vars.Keys, vars.Keys);
    assert vars.Keys + vars.Keys == vars.Keys;
  }

  lemma {:induction false} FilledIsPlain(ps: seq<Piece>, vars: Vars)
    requires Proper(ps) && PlainFor(vars, Mentions(ps)) && Mentions(ps) <= vars.Keys
    ensures '$' !in Render(Fill(ps, vars, vars.Keys))
  {
    if ps != [] {
      PlainForFewer(vars, Mentions(ps), Mentions(ps[1..]));
      FilledIsPlain(ps[1..], vars);
      RenderConcat(FillPiece(ps[0], vars, vars.Keys), Fill(ps[1..], vars, vars.Keys));
      match ps[0]
      case Plain(c) => assert Render([ps[0]]) == [c] + Render([]);
      case Ref(name) => RenderPlain(vars[name]);
    }
  }

  /** `var` keeps the stored values free of `$` when it refers to defined variables only. */
  lemma AssignmentKeepsStorePlain(vars: Vars, name: string, template: string)
    requires PlainStore(vars) && WellPlaced(template) && '}' !in name
    requires Mentions(Pieces(template)) <= vars.Keys
    ensures PlainStore(vars[name := Substitute(template, vars)])
  {
    hide WellPlaced, Mentions;
    PlainStoreFor(vars, Mentions(Pieces(template)));
    PassesAreSimultaneous(template, vars, MapOrder(vars.Keys));
    FilledIsPlain(Pieces(template), vars);
  }

  lemma {:induction false} FillDependsOnMentioned(ps: seq<Piece>, vars: Vars, vars': Vars)
    requires forall n :: n in Mentions(ps) ==> (n in vars <==> n in vars') && (n in vars ==> vars[n] == vars'[n])
    ensures Fill(ps, vars, vars.Keys) == Fill(ps, vars', vars'.Keys)
  {
    if ps != [] { FillDependsOnMentioned(ps[1..], vars, vars'); }
  }

  /** Only the variables that a text refers to matter to its substitution. */
  lemma SubstituteDependsOnMentioned(s: string, vars: Vars, vars': Vars)
    requires WellPlaced(s) && PlainFor(vars, Mentions(Pieces(s))) && PlainFor(vars', Mentions(Pieces(s)))
    requires forall n :: n in Mentions(Pieces(s)) ==> (n in vars <==> n in vars') && (n in vars ==> vars[n] == vars'[n])
    ensures Substitute(s, vars) == Substitute(s, vars')
  {
    hide WellPlaced, PlainFor, Mentions;
    PassesAreSimultaneous(s, vars, MapOrder(vars.Keys));
    PassesAreSimultaneous(s, vars', MapOrder(vars'.Keys));
    FillDependsOnMentioned(Pieces(s), vars, vars');
  }

  /** A lone reference becomes the value of its variable, or stays what it is. */
  lemma SubstituteReference(name: string, vars: Vars)
    requires PlainFor(vars, {name}) && '$' !in name && '}' !in name
    ensures Substitute(Pattern(name), vars) == if name in vars then vars[name] else Pattern(name)
  {
    hide WellPlaced, Substitute;
    var ps := [Ref(name)];
    assert ps[1..] == [];
    assert Render(ps) == Pattern(name) by { assert Render(ps) == RenderPiece(ps[0]) + Render([]); }
    RenderWellPlaced(ps);
    PassesAreSimultaneous(Pattern(name), vars, MapOrder(vars.Keys));
    var filled := Fill(ps, vars, vars.Keys);
    assert filled == FillPiece(ps[0], vars, vars.Keys) + Fill([], vars, vars.Keys);
    if name in vars {
      assert filled == PlainPieces(vars[name]);
      RenderPlain(vars[name]);
    } else {
      assert filled == ps;
    }
  }

  /** With a nested reference the order of the passes shows. */
  lemma NestedReferencesDependOnOrder()
    ensures var vars := map["A" := "B", "B" := "x"];
      Passes("${${A}}", vars, ["A", "B"]) == "x" && Passes("${${A}}", vars, ["B", "A"]) == "${B}"
  {
    var vars := map["A" := "B", "B" := "x"];
    var s, pa, pb := "${${A}}", Pattern("A"), Pattern("B");
    assert pa == "${A}" && pb == "${B}" && 'B' in pb;
    assert ReplaceAll("}", pa, "B") == "}" && ReplaceAll("", pb, "x") == "";
    assert s[2..][..4] == pa && s[2..][4..] == "}";
    assert ReplaceAll(s[2..], pa, "B") == "B}";
    assert s[..4] != pa && s[1..][..4] != pa && s[1..][1..] == s[2..];
    assert ReplaceAll(s, pa, "B") == "${B}";
    assert ReplaceAll("${B}", pb, "x") == "x";
    NoMatch(s, pb, "x", 'B');
    assert Passes("x", vars, []) == "x";
    assert ["A", "B"][1..] == ["B"] && ["B", "A"][1..] == ["A"] && ["A"][1..] == [] && ["B"][1..] == [];
  }

  lemma {:induction false} NoMatch(s: string, pattern: string, text: string, c: char)
    requires c in pattern && c !in s
    ensures ReplaceAll(s, pattern, text) == s
    decreases |s|
  {
    if |s| >= |pattern| {
      assert s[..|pattern|] != pattern;
      NoMatch(s[1..], pattern, text, c);
    }
  }
}
