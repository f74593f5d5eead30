/** The `config` command on one file, and its refinement of a plain map. */
module ConfigActions {
  import opened ConfigLines
  import opened ConfigEditor
  import opened ConfigStore
  import opened Placeholders

  datatype Action = Default | Ensure | Get

  /** A `config` command whose value has had its variables substituted. */
  datatype Step = Step(action: Action, key: Key, value: string)

  predicate IsPlaceholder(val: string) {
    val == "" || (val[0] == '$' && val[|val| - 1] == '}')
  }

  /** The value `${NAME}` comes to a placeholder exactly when the variable is not stored, or stored empty. */
  lemma PlaceholderIffUnresolved(name: string, vars: Vars)
    requires PlainFor(vars, {name}) && '$' !in name && '}' !in name
    ensures IsPlaceholder(Substitute(Pattern(name), vars)) <==> name !in vars || vars[name] == ""
  {
    hide Substitute;
    SubstituteReference(name, vars);
    assert Pattern(name)[0] == '$' && Pattern(name)[|Pattern(name)| - 1] == '}';
    if name in vars && vars[name] != "" { assert vars[name][0] in vars[name]; }
  }

  /** A setting that `default` leaves alone. */
  predicate Settled(a: Answer) {
    a.Is? && !IsPlaceholder(a.value)
  }

  /** What the command writes, if it writes anything, can stand in a file. */
  predicate PrintableStep(s: Step) { s.action != Get ==> Printable(s.key, s.value) }

  /** The text after the command, or nothing when it throws; the text is written back only if it was altered. */
  function Apply(text: string, s: Step): Option<string> {
    var answer := Ask(text, s.key);
    if answer.Fails? then None
    else if s.action == Get || (s.action == Default && Settled(answer)) then Some(text)
    else SetText(text, s.key, s.value)
  }

  function ApplyAll(text: string, steps: seq<Step>): Option<string>
    decreases |steps|
  {
    if steps == [] then Some(text)
    else
      match Apply(text, steps[0])
      case None => None
      case Some(next) => ApplyAll(next, steps[1..])
  }

  /** `default` writes a key that is absent, empty, or reads as anything between `$` and `}`, and leaves every other
      value as it is. */
  lemma DefaultWritesIff(text: string, k: Key, v: string)
    requires Printable(k, v) && !Ask(text, k).Fails?
    ensures var answer, next := Ask(text, k), Apply(text, Step(Default, k, v));
      && next.Some?
      && if answer == Absent || answer == Is("") || (exists x :: answer == Is("$" + x + "}")) then
           next == SetText(text, k, v) && Ask(next.value, k) == Is(v)
         else next == Some(text)
  {
    hide Ask, SetText, Printable;
    SetTextActsAsMapUpdate(text, k, v);
    var answer := Ask(text, k);
    if answer.Is? { PlaceholderShape(answer.value); }
  }

  lemma PlaceholderShape(val: string)
    ensures IsPlaceholder(val) <==> val == "" || exists x :: val == "$" + x + "}"
  {
    if val != "" && IsPlaceholder(val) {
      assert val == "$" + val[1..|val| - 1] + "}";
    }
  }

  // ---- The same commands on a map ----

  function MapStep(m: map<Key, string>, s: Step): map<Key, string> {
    match s.action
    case Get => m
    case Ensure => m[s.key := s.value]
    case Default => if s.key in m && !IsPlaceholder(m[s.key]) then m else m[s.key := s.value]
  }

  function MapSteps(m: map<Key, string>, steps: seq<Step>): map<Key, string>
    decreases |steps|
  {
    if steps == [] then m else MapSteps(MapStep(m, steps[0]), steps[1..])
  }

  /** The file holds the map, except for the keys whose lookup fails. */
  ghost predicate Holds(text: string, m: map<Key, string>, broken: iset<Key>) {
    forall k ::
      if k in broken then Ask(text, k).Fails?
      else Ask(text, k) == if k in m then Is(m[k]) else Absent
  }

  lemma {:induction false} LookupMentions(kind: Reader, lines: seq<string>, k: Key, inGroup: bool)
    requires LookupFrom(kind, lines, k, inGroup).Is?
    ensures exists i :: 0 <= i < |lines| && kind(lines[i]).Setting? && kind(lines[i]).param == k.param
    ensures inGroup || exists h :: 0 <= h < |lines| && kind(lines[h]) == Header(k.group)
  {
    var what := kind(lines[0]);
    if !(inGroup && what.Setting? && what.param == k.param) {
      LookupMentions(kind, lines[1..], k, Next(what, k, inGroup));
      var i :| 0 <= i < |lines[1..]| && kind(lines[1..][i]).Setting? && kind(lines[1..][i]).param == k.param;
      assert kind(lines[i + 1]).param == k.param;
      if !Next(what, k, inGroup) {
        var h :| 0 <= h < |lines[1..]| && kind(lines[1..][h]) == Header(k.group);
        assert kind(lines[h + 1]) == Header(k.group);
      }
    }
  }

  /** Every stored text, however broken, holds some map. */
  lemma EveryFileHoldsAMap(text: string) returns (m: map<Key, string>, broken: iset<Key>)
    ensures Holds(text, m, broken)
  {
    hide KindOf, LookupFrom, Load;
    var lines, kind: Reader := Load(text), KindOf;
    var groups := set h | 0 <= h < |lines| && kind(lines[h]).Header? :: kind(lines[h]).name;
    var params := set i | 0 <= i < |lines| && kind(lines[i]).Setting? :: kind(lines[i]).param;
    var keys := set g, p | g in groups && p in params :: Key(g, p);
    m := map k | k in keys && Ask(text, k).Is? :: Ask(text, k).value;
    broken := iset k: Key | Ask(text, k).Fails?;
    forall k | Ask(text, k).Is? ensures k in keys {
      LookupMentions(kind, lines, k, false);
      assert k.group in groups && k.param in params && k == Key(k.group, k.param);
    }
  }

  lemma StepRefinesMap(text: string, s: Step, m: map<Key, string>, broken: iset<Key>)
    requires Holds(text, m, broken) && PrintableStep(s)
    ensures Apply(text, s).None? <==> s.key in broken
    ensures Apply(text, s).Some? ==> Holds(Apply(text, s).value, MapStep(m, s), broken)
  {
    hide Ask, SetText, Printable, IsPlaceholder;
    if s.action != Get { SetTextActsAsMapUpdate(text, s.key, s.value); }
  }

  /** A script of `config` commands on one file, each of which reloads the text, edits lines and saves, ends with a
      file that holds what the same commands make of a plain map; it throws exactly when it reaches a broken key. */
  lemma {:induction false} ConfigScriptIsMapFold(text: string, steps: seq<Step>, m: map<Key, string>, broken: iset<Key>)
    requires Holds(text, m, broken)
    requires forall s :: s in steps ==> PrintableStep(s)
    ensures ApplyAll(text, steps).None? <==> exists s :: s in steps && s.key in broken
    ensures ApplyAll(text, steps).Some? ==> Holds(ApplyAll(text, steps).value, MapSteps(m, steps), broken)
    decreases |steps|
  {
    hide Apply, Holds, MapStep, PrintableStep;
    if steps != [] {
      StepRefinesMap(text, steps[0], m, broken);
      if Apply(text, steps[0]).Some? {
        ConfigScriptIsMapFold(Apply(text, steps[0]).value, steps[1..], MapStep(m, steps[0]), broken);
      }
    }
  }
}
