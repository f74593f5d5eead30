/** `mv_safe`: moving the entries of one directory into another without overwriting anything there. */
module MoveSafely {

  /** A directory: its entries by name. */
  type Directory = map<string, string>

  // ---- Numbered names ----

  function Digit(d: nat): char
    requires d < 10
  {
    "0123456789"[d]
  }

  function Decimal(n: nat): string {
    if n < 10 then [Digit(n)] else Decimal(n / 10) + [Digit(n % 10)]
  }

  /** The number that a decimal text stands for. */
  function ValueOf(s: string): nat {
    if s == "" then 0 else 10 * ValueOf(s[..|s| - 1]) + DigitValue(s[|s| - 1])
  }

  function DigitValue(c: char): nat { if '0' <= c <= '9' then (c - '0') as nat else 0 }

  lemma {:induction false} DecimalReadsBack(n: nat)
    ensures ValueOf(Decimal(n)) == n
  {
    var s := Decimal(n);
    assert DigitValue(s[|s| - 1]) == n % 10;
    if n < 10 {
      assert s[..|s| - 1] == "";
    } else {
      assert s[..|s| - 1] == Decimal(n / 10);
      DecimalReadsBack(n / 10);
    }
  }

  /** Position of the last dot, or the length of the name. */
  function LastDot(name: string): (i: nat)
    ensures i <= |name| && (i < |name| ==> name[i] == '.')
  {
    if name == "" then 0
    else if name[|name| - 1] == '.' then |name| - 1
    else
      var i := LastDot(name[..|name| - 1]);
      if i == |name| - 1 then |name| else i
  }

  /** The part before the last dot and the part after it; both are the whole name when there is no dot. */
  function Stem(name: string): string { name[..LastDot(name)] }

  function Extension(name: string): string {
    if LastDot(name) == |name| then name else name[LastDot(name) + 1..]
  }

  /** A name with a dot is its stem, a dot and a dot-free extension. */
  lemma {:induction false} StemAndExtension(name: string)
    ensures '.' in name ==> name == Stem(name) + "." + Extension(name) && '.' !in Extension(name)
    ensures '.' !in name ==> Stem(name) == Extension(name) == name
  {
    LastDotIsLast(name);
    var i := LastDot(name);
    if i < |name| {
      assert name[i] in name;
      var ext := name[i + 1..];
      forall k | 0 <= k < |ext| ensures ext[k] != '.' { assert ext[k] == name[i + 1 + k]; }
    }
  }

  lemma {:induction false} LastDotIsLast(name: string)
    ensures forall k :: LastDot(name) < k < |name| ==> name[k] != '.'
    ensures LastDot(name) == |name| ==> '.' !in name
  {
    if name != "" && name[|name| - 1] != '.' {
      var front := name[..|name| - 1];
      LastDotIsLast(front);
      assert forall k :: 0 <= k < |front| ==> name[k] == front[k];
      assert name == front + [name[|name| - 1]];
    }
  }

  function Numbered(name: string, counter: nat): string {
    Stem(name) + "_" + Decimal(counter) + "." + Extension(name)
  }

  lemma {:induction false} LastDotAt(front: string, ext: string)
    requires '.' !in ext
    ensures LastDot(front + "." + ext) == |front|
    decreases |ext|
  {
    var name := front + "." + ext;
    if ext != "" {
      var shorter := ext[..|ext| - 1];
      assert name[..|name| - 1] == front + "." + shorter && name[|name| - 1] == ext[|ext| - 1];
      assert ext[|ext| - 1] in ext;
      LastDotAt(front, shorter);
    }
  }

  /** A numbered name has the extension of the name, and the number goes to the end of the stem; a name without a dot is
      repeated as extension. */
  lemma NumberedParts(name: string, n: nat)
    ensures Extension(Numbered(name, n)) == Extension(name)
    ensures Stem(Numbered(name, n)) == Stem(name) + "_" + Decimal(n)
    ensures '.' !in name ==> Numbered(name, n) == name + "_" + Decimal(n) + "." + name
  {
    hide Decimal, LastDot;
    StemAndExtension(name);
    var stem := Stem(name) + "_" + Decimal(n);
    LastDotAt(stem, Extension(name));
    assert Numbered(name, n) == stem + "." + Extension(name);
  }

  lemma NumberedInjective(name: string, a: nat, b: nat)
    requires Numbered(name, a) == Numbered(name, b)
    ensures a == b
  {
    hide Decimal, Stem, Extension;
    var front, back := Stem(name) + "_", "." + Extension(name);
    var s := Numbered(name, a);
    assert s[|front|..|s| - |back|] == Decimal(a);
    assert s[|front|..|s| - |back|] == Decimal(b);
    DecimalReadsBack(a);
    DecimalReadsBack(b);
  }

  /** The numbered names with counters from 1 up to, not including, `n`. */
  ghost function NumberedBelow(name: string, n: nat): set<string> {
    set c | 1 <= c < n :: Numbered(name, c)
  }

  lemma {:induction false} NumberedAreMany(name: string, n: nat)
    requires n >= 1
    ensures |NumberedBelow(name, n)| == n - 1
  {
    hide Numbered;
    if n > 1 {
      NumberedAreMany(name, n - 1);
      var last := Numbered(name, n - 1);
      assert NumberedBelow(name, n) == NumberedBelow(name, n - 1) + {last};
      if last in NumberedBelow(name, n - 1) {
        var c :| 1 <= c < n - 1 && Numbered(name, c) == last;
        NumberedInjective(name, c, n - 1);
      }
    }
  }

  lemma {:induction false} SubsetIsSmaller(a: set<string>, b: set<string>)
    requires a <= b
    ensures |a| <= |b|
  {
    if x :| x in a {
      SubsetIsSmaller(a - {x}, b - {x});
    }
  }

  /** The name under which an entry arrives: its own if that is free, else the first free numbered one.
      The search ends because distinct counters give distinct names and a directory is finite. */
  method FreeName(name: string, target: Directory) returns (free: string)
    ensures free !in target
    ensures name !in target ==> free == name
    ensures name in target ==>
      exists n :: n >= 1 && free == Numbered(name, n) && forall c :: 1 <= c < n ==> Numbered(name, c) in target
  {
    hide Numbered;
    free := name;
    if name in target {
      var counter := 1;
      while Numbered(name, counter) in target
        invariant counter >= 1 && NumberedBelow(name, counter) <= target.Keys
        decreases |target| + 1 - counter
      {
        counter := counter + 1;
        NumberedAreMany(name, counter);
        SubsetIsSmaller(NumberedBelow(name, counter), target.Keys);
      }
      free := Numbered(name, counter);
      assert forall c :: 1 <= c < counter ==> Numbered(name, c) in NumberedBelow(name, counter);
    }
  }

  // ---- The move ----

  ghost predicate Injective(m: map<string, string>) {
    forall a, b :: a in m && b in m && m[a] == m[b] ==> a == b
  }

  /** Entries went from one directory to the other under the names of `arrived`: each of them to one name that was free,
      with its content; no entry of the target was overwritten or lost, and nothing else changed. */
  ghost predicate Moved(source0: Directory, target0: Directory, source: Directory, target: Directory,
                        arrived: map<string, string>)
  {
    && Injective(arrived)
    && arrived.Keys <= source0.Keys && source == source0 - arrived.Keys
    && (forall n :: n in arrived ==> arrived[n] !in target0 && arrived[n] in target && target[arrived[n]] == source0[n])
    && (forall t :: t in target0 ==> t in target && target[t] == target0[t])
    && (forall t :: t in target ==> t in target0 || t in arrived.Values)
  }

  lemma InjectiveOneMore(m: map<string, string>, k: string, v: string)
    requires Injective(m) && k !in m && v !in m.Values
    ensures Injective(m[k := v])
    ensures forall t :: t in m[k := v].Values <==> t == v || t in m.Values
  {
    var next := m[k := v];
    assert next[k] == v;
    forall t | t in m.Values ensures t in next.Values {
      var n :| n in m && m[n] == t;
      assert next[n] == t;
    }
  }

  lemma MovedOneMore(source0: Directory, target0: Directory, source: Directory, target: Directory,
                     arrived: map<string, string>, name: string, free: string)
    requires Moved(source0, target0, source, target, arrived) && name in source && free !in target
    ensures Moved(source0, target0, source - {name}, target[free := source[name]], arrived[name := free])
  {
    hide Injective;
    assert free !in arrived.Values;
    InjectiveOneMore(arrived, name, free);
    assert source - {name} == source0 - arrived[name := free].Keys;
  }

  lemma MovedKeys(source0: Directory, target0: Directory, source: Directory, target: Directory, arrived: map<string,
                  string>)
    requires Moved(source0, target0, source, target, arrived)
    ensures target.Keys == target0.Keys + arrived.Values && target0.Keys !! arrived.Values
    ensures source0.Keys == source.Keys + arrived.Keys && source.Keys !! arrived.Keys
    ensures Injective(arrived)
  {
    forall v | v in arrived.Values ensures v in target && v !in target0 {
      var n :| n in arrived && arrived[n] == v;
    }
  }

  /** Nothing is lost and nothing is made up: the two directories together hold as many entries as before. */
  lemma MovedConserves(source0: Directory, target0: Directory, source: Directory, target: Directory,
                       arrived: map<string, string>)
    requires Moved(source0, target0, source, target, arrived)
    ensures |source| + |target| == |source0| + |target0|
  {
    hide Moved, Injective;
    MovedKeys(source0, target0, source, target, arrived);
    ValuesAreAsMany(arrived);
    assert |target.Keys| == |target0.Keys| + |arrived.Values|;
    assert |source0.Keys| == |source.Keys| + |arrived.Keys|;
  }

  lemma {:induction false} ValuesAreAsMany(m: map<string, string>)
    requires Injective(m)
    ensures |m.Values| == |m.Keys|
    decreases |m|
  {
    if k :| k in m {
      var rest := m - {k};
      ValuesAreAsMany(rest);
      assert m.Keys == rest.Keys + {k};
      assert m.Values == rest.Values + {m[k]} by {
        forall v | v in m.Values ensures v in rest.Values + {m[k]} {
          var n :| n in m && m[n] == v;
          assert n != k ==> n in rest && rest[n] == v;
        }
      }
    } else {
      assert m == map[];
    }
  }

  /** The entry has its own name, or that name is taken and it has the first numbered one that was free. */
  ghost predicate Arrives(target: Directory, name: string, free: string) {
    || free == name
    || (name in target &&
        exists n :: n >= 1 && free == Numbered(name, n) && forall c :: 1 <= c < n ==> Numbered(name, c) in target)
  }

  class Mover {
    var source: Directory
    var target: Directory

    /** Moves the entries that the shell lists, in that order. */
    method MoveAll(listed: seq<string>) returns (arrived: map<string, string>)
      requires forall i :: 0 <= i < |listed| ==> listed[i] in source
      requires forall i, j :: 0 <= i < j < |listed| ==> listed[i] != listed[j]
      modifies this
      ensures arrived.Keys == (set n | n in listed)
      ensures Moved(old(source), old(target), source, target, arrived)
      ensures forall n :: n in arrived ==> Arrives(target, n, arrived[n])
    {
      hide Moved, Numbered;
      arrived := map[];
      var i := 0;
      NothingMoved(source, target);
      while i < |listed|
        invariant 0 <= i <= |listed|
        invariant arrived.Keys == (set n | n in listed[..i])
        invariant forall j :: i <= j < |listed| ==> listed[j] in source
        invariant Moved(old(source), old(target), source, target, arrived)
        invariant forall n :: n in arrived ==> Arrives(target, n, arrived[n])
      {
        var name := listed[i];
        assert listed[..i + 1] == listed[..i] + [name];
        var free := FreeName(name, target);
        MovedOneMore(old(source), old(target), source, target, arrived, name, free);
        target := target[free := source[name]];
        source := source - {name};
        arrived := arrived[name := free];
        i := i + 1;
      }
      assert listed[..i] == listed;
    }
  }

  lemma NothingMoved(source: Directory, target: Directory)
    ensures Moved(source, target, source, target, map[])
  {
    assert source - {} == source;
  }
}
