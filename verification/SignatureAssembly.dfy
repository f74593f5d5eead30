/** The two signature-assembly loops: the candidate block grows in a buffer, the signature of the attempt's primary
    validator being moved to the front in the original version, and nothing being moved in the pure sorted one. */
module SignatureAssembly {

  newtype Byte = b: int | 0 <= b < 256

  /** A signature with the address that is derived from it. */
  datatype Sign = Sign(addr: int, bytes: seq<Byte>)

  // ---- What the buffers hold ----

  function Concat(signs: seq<Sign>): seq<Byte> {
    if signs == [] then [] else signs[0].bytes + Concat(signs[1..])
  }

  function Others(signs: seq<Sign>, primary: int): seq<Sign> {
    if signs == [] then []
    else (if signs[0].addr == primary then [] else [signs[0]]) + Others(signs[1..], primary)
  }

  /** The primary's signatures, the last one first. */
  function Primaries(signs: seq<Sign>, primary: int): seq<Sign> {
    if signs == [] then []
    else Primaries(signs[1..], primary) + (if signs[0].addr == primary then [signs[0]] else [])
  }

  /** The order of the original version. */
  function PrimaryFirst(signs: seq<Sign>, primary: int): seq<Sign> {
    Primaries(signs, primary) + Others(signs, primary)
  }

  lemma {:induction false} ConcatAppend(a: seq<Sign>, b: seq<Sign>)
    ensures Concat(a + b) == Concat(a) + Concat(b)
  {
    if a == [] {
      assert a + b == b;
    } else {
      assert (a + b)[1..] == a[1..] + b;
      ConcatAppend(a[1..], b);
    }
  }

  lemma {:induction false} SplitLast(signs: seq<Sign>, s: Sign, primary: int)
    ensures Others(signs + [s], primary) == Others(signs, primary) + (if s.addr == primary then [] else [s])
    ensures Primaries(signs + [s], primary) == (if s.addr == primary then [s] else []) + Primaries(signs, primary)
  {
    if signs == [] {
      assert signs + [s] == [s] && [s][1..] == [];
    } else {
      assert (signs + [s])[1..] == signs[1..] + [s];
      SplitLast(signs[1..], s, primary);
    }
  }

  /** One more signature goes to the front if it is the primary's, to the end if it is not. */
  lemma OneMoreSign(signs: seq<Sign>, s: Sign, primary: int)
    ensures Concat(PrimaryFirst(signs + [s], primary)) ==
            if s.addr == primary then s.bytes + Concat(PrimaryFirst(signs, primary))
            else Concat(PrimaryFirst(signs, primary)) + s.bytes
  {
    hide Others, Primaries, Concat;
    SplitLast(signs, s, primary);
    var ps, os := Primaries(signs, primary), Others(signs, primary);
    ConcatOne(s);
    if s.addr == primary {
      assert PrimaryFirst(signs + [s], primary) == [s] + (ps + os);
      ConcatAppend([s], ps + os);
    } else {
      assert PrimaryFirst(signs + [s], primary) == (ps + os) + [s];
      ConcatAppend(ps + os, [s]);
    }
  }

  lemma ConcatOne(s: Sign)
    ensures Concat([s]) == s.bytes
  {
    assert [s][1..] == [];
    assert Concat([s]) == s.bytes + Concat([]);
  }

  // ---- The buffer operations ----

  method Realloc(a: array<Byte>, n: nat) returns (b: array<Byte>)
    requires a.Length <= n
    ensures fresh(b) && b.Length == n && b[..a.Length] == a[..]
  {
    b := new Byte[n];
    var i := 0;
    while i < a.Length
      invariant 0 <= i <= a.Length && b[..i] == a[..i]
    {
      b[i] := a[i];
      i := i + 1;
    }
  }

  /** The contents after `moved` has been copied to position `dst`. */
  ghost function Overwritten(was: seq<Byte>, dst: nat, moved: seq<Byte>): seq<Byte>
    requires dst + |moved| <= |was|
  {
    was[..dst] + moved + was[dst + |moved|..]
  }

  lemma IsOverwritten(was: seq<Byte>, now: seq<Byte>, dst: nat, moved: seq<Byte>)
    requires dst + |moved| <= |was| == |now|
    requires forall j :: 0 <= j < |was| ==> now[j] == if dst <= j < dst + |moved| then moved[j - dst] else was[j]
    ensures now == Overwritten(was, dst, moved)
  {
  }

  /** Copies `n` bytes inside the buffer; source and destination may overlap. */
  method MemMove(a: array<Byte>, dst: nat, src: nat, n: nat)
    requires dst + n <= a.Length && src + n <= a.Length
    modifies a
    ensures a[..] == Overwritten(old(a[..]), dst, old(a[src..src + n]))
  {
    hide Overwritten;
    ghost var was, moved := a[..], a[src..src + n];
    if dst <= src {
      var i := 0;
      while i < n
        invariant 0 <= i <= n
        invariant forall j :: 0 <= j < a.Length ==> a[j] == if dst <= j < dst + i then moved[j - dst] else was[j]
      {
        assert a[src + i] == was[src + i] == moved[i];
        a[dst + i] := a[src + i];
        i := i + 1;
      }
    } else {
      var i := n;
      while i > 0
        invariant 0 <= i <= n
        invariant forall j :: 0 <= j < a.Length ==> a[j] == if dst + i <= j < dst + n then moved[j - dst] else was[j]
      {
        i := i - 1;
        assert a[src + i] == was[src + i] == moved[i];
        a[dst + i] := a[src + i];
      }
    }
    IsOverwritten(was, a[..], dst, moved);
  }

  method MemCpy(a: array<Byte>, dst: nat, bytes: seq<Byte>)
    requires dst + |bytes| <= a.Length
    modifies a
    ensures a[..] == Overwritten(old(a[..]), dst, bytes)
  {
    hide Overwritten;
    ghost var was := a[..];
    var i := 0;
    while i < |bytes|
      invariant 0 <= i <= |bytes|
      invariant forall j :: 0 <= j < a.Length ==> a[j] == if dst <= j < dst + i then bytes[j - dst] else was[j]
    {
      a[dst + i] := bytes[i];
      i := i + 1;
    }
    IsOverwritten(was, a[..], dst, bytes);
  }

  /** Making room behind the header and writing a signature there. */
  lemma InsertedInFront(head: seq<Byte>, placed: seq<Byte>, junk: seq<Byte>, bytes: seq<Byte>)
    requires |junk| == |bytes|
    ensures Overwritten(Overwritten(head + placed + junk, |head| + |bytes|, placed), |head|, bytes) ==
            head + (bytes + placed)
  {
    var room := Overwritten(head + placed + junk, |head| + |bytes|, placed);
    assert room[..|head|] == head && room[|head| + |bytes|..] == placed;
  }

  lemma InsertedBehind(front: seq<Byte>, junk: seq<Byte>, bytes: seq<Byte>)
    requires |junk| == |bytes|
    ensures Overwritten(front + junk, |front|, bytes) == front + bytes
  {
  }

  lemma Middle(all: seq<Byte>, head: seq<Byte>, placed: seq<Byte>, junk: seq<Byte>)
    requires all == head + placed + junk
    ensures all[|head|..|head| + |placed|] == placed
  {
  }

  lemma LastOrOnly(head: seq<Byte>, placed: seq<Byte>, bytes: seq<Byte>)
    ensures head + placed + bytes == head + (placed + bytes)
    ensures placed == [] ==> placed + bytes == bytes + placed
  {
  }

  // ---- The two loops ----

  /** One turn of the original loop: the primary's signature goes right behind the header, any other to the end. */
  method PlaceSign(candidate: array<Byte>, sizeExcludeSigns: nat, sign: Sign, primary: int) returns (grown: array<Byte>)
    requires sizeExcludeSigns <= candidate.Length
    ensures fresh(grown)
    ensures var head, placed := candidate[..sizeExcludeSigns], candidate[sizeExcludeSigns..];
      grown[..] == head + if sign.addr == primary then sign.bytes + placed else placed + sign.bytes
  {
    hide Overwritten;
    ghost var before, head, placed := candidate[..], candidate[..sizeExcludeSigns], candidate[sizeExcludeSigns..];
    var size, signSize := candidate.Length, |sign.bytes|;
    grown := Realloc(candidate, size + signSize);
    ghost var junk := grown[size..];
    assert grown[..] == before + junk && before == head + placed;
    if sign.addr == primary && size != sizeExcludeSigns {
      InsertedInFront(head, placed, junk, sign.bytes);
      if size > sizeExcludeSigns {
        assert grown[sizeExcludeSigns..size] == placed by { Middle(grown[..], head, placed, junk); }
        MemMove(grown, sizeExcludeSigns + signSize, sizeExcludeSigns, size - sizeExcludeSigns);
      }
      MemCpy(grown, sizeExcludeSigns, sign.bytes);
    } else {
      InsertedBehind(before, junk, sign.bytes);
      MemCpy(grown, size, sign.bytes);
      LastOrOnly(head, placed, sign.bytes);
    }
  }

  lemma NoSigns(signs: seq<Sign>, primary: int)
    ensures Concat(PrimaryFirst(signs[..0], primary)) == []
  {
  }

  lemma HeadAndPlaced(all: seq<Byte>, head: seq<Byte>, placed: seq<Byte>)
    requires all == head + placed
    ensures all[..|head|] == head && all[|head|..] == placed
  {
  }

  /** The original loop, on signatures that have been sorted: the header, the primary's signatures moved to the front,
      the others in order, and not a byte more. */
  method Assemble(header: array<Byte>, signs: seq<Sign>, primary: int) returns (candidate: array<Byte>)
    ensures candidate[..] == header[..] + Concat(PrimaryFirst(signs, primary))
  {
    hide Concat, PrimaryFirst;
    candidate := header;
    ghost var head := header[..];
    NoSigns(signs, primary);
    var i := 0;
    while i < |signs|
      invariant 0 <= i <= |signs| && header[..] == head
      invariant candidate[..] == head + Concat(PrimaryFirst(signs[..i], primary))
    {
      ghost var placed := Concat(PrimaryFirst(signs[..i], primary));
      OneMoreSign(signs[..i], signs[i], primary);
      assert signs[..i + 1] == signs[..i] + [signs[i]];
      HeadAndPlaced(candidate[..], head, placed);
      assert candidate[..header.Length] == head && candidate[header.Length..] == placed;
      candidate := PlaceSign(candidate, header.Length, signs[i], primary);
      i := i + 1;
    }
    assert signs[..i] == signs;
  }

  /** One turn of the sorted loop: the signature goes to the end. */
  method AppendSign(candidate: array<Byte>, sign: Sign) returns (grown: array<Byte>)
    ensures fresh(grown) && grown[..] == candidate[..] + sign.bytes
  {
    hide Overwritten;
    ghost var before := candidate[..];
    grown := Realloc(candidate, candidate.Length + |sign.bytes|);
    ghost var junk := grown[candidate.Length..];
    assert grown[..] == before + junk;
    InsertedBehind(before, junk, sign.bytes);
    MemCpy(grown, candidate.Length, sign.bytes);
  }

  /** The pure sorted loop. */
  method AssembleSorted(header: array<Byte>, signs: seq<Sign>) returns (candidate: array<Byte>)
    ensures candidate[..] == header[..] + Concat(signs)
  {
    candidate := header;
    ghost var head := header[..];
    var i := 0;
    while i < |signs|
      invariant 0 <= i <= |signs| && header[..] == head
      invariant candidate[..] == head + Concat(signs[..i])
    {
      hide Concat;
      ghost var placed := Concat(signs[..i]);
      ConcatAppend(signs[..i], [signs[i]]);
      ConcatOne(signs[i]);
      assert signs[..i + 1] == signs[..i] + [signs[i]];
      candidate := AppendSign(candidate, signs[i]);
      assert head + placed + signs[i].bytes == head + (placed + signs[i].bytes);
      i := i + 1;
    }
    assert signs[..i] == signs;
  }

  // ---- Agreement between nodes ----

  type Order = (Sign, Sign) -> bool

  ghost predicate StrictTotal(less: Order) {
    && (forall a, b :: less(a, b) ==> !less(b, a))
    && (forall a, b :: a == b || less(a, b) || less(b, a))
    && (forall a, b, c :: less(a, b) && less(b, c) ==> less(a, c))
  }

  ghost predicate Sorted(less: Order, signs: seq<Sign>) {
    forall i, j :: 0 <= i < j < |signs| ==> !less(signs[j], signs[i])
  }

  /** `signs` is what sorting the signatures in order of arrival gives. */
  ghost predicate SortedFrom(less: Order, signs: seq<Sign>, arrived: seq<Sign>) {
    multiset(signs) == multiset(arrived) && Sorted(less, signs)
  }

  lemma SameFirst(less: Order, a: seq<Sign>, b: seq<Sign>)
    requires StrictTotal(less) && Sorted(less, a) && Sorted(less, b) && multiset(a) == multiset(b) && a != [] && b != []
    ensures a[0] == b[0]
  {
    assert a[0] in multiset(b) && b[0] in multiset(a);
    var i :| 0 <= i < |b| && b[i] == a[0];
    var j :| 0 <= j < |a| && a[j] == b[0];
  }

  lemma SortedTail(less: Order, signs: seq<Sign>)
    requires Sorted(less, signs) && signs != []
    ensures Sorted(less, signs[1..])
  {
  }

  /** Sorting by a strict total order forgets the order of arrival. */
  lemma {:induction false} SortedIsUnique(less: Order, a: seq<Sign>, b: seq<Sign>)
    requires StrictTotal(less) && Sorted(less, a) && Sorted(less, b) && multiset(a) == multiset(b)
    ensures a == b
    decreases |a|
  {
    hide StrictTotal, Sorted;
    assert |a| == |multiset(a)| == |multiset(b)| == |b|;
    if a != [] {
      SameFirst(less, a, b);
      assert a == [a[0]] + a[1..] && b == [b[0]] + b[1..];
      assert multiset(a[1..]) == multiset(a) - multiset{a[0]} && multiset(b[1..]) == multiset(b) - multiset{b[0]};
      SortedTail(less, a);
      SortedTail(less, b);
      SortedIsUnique(less, a[1..], b[1..]);
    }
  }

  /** Two nodes that collected the same signatures, in whatever order, assemble the same bytes: in the original
      version for the same primary, in the pure sorted version without any regard to it. */
  lemma NodesAgree(less: Order, arrived1: seq<Sign>, signs1: seq<Sign>, arrived2: seq<Sign>, signs2: seq<Sign>,
                   primary: int)
    requires StrictTotal(less) && multiset(arrived1) == multiset(arrived2)
    requires SortedFrom(less, signs1, arrived1) && SortedFrom(less, signs2, arrived2)
    ensures Concat(PrimaryFirst(signs1, primary)) == Concat(PrimaryFirst(signs2, primary))
    ensures Concat(signs1) == Concat(signs2)
  {
    SortedIsUnique(less, signs1, signs2);
  }

  ghost predicate DistinctAddresses(signs: seq<Sign>) {
    forall i, j :: 0 <= i < j < |signs| ==> signs[i].addr != signs[j].addr
  }

  lemma {:induction false} NoPrimary(signs: seq<Sign>, primary: int)
    requires forall i :: 0 <= i < |signs| ==> signs[i].addr != primary
    ensures Primaries(signs, primary) == [] && Others(signs, primary) == signs
  {
    if signs != [] { NoPrimary(signs[1..], primary); }
  }

  lemma {:induction false} OnePrimary(signs: seq<Sign>, at: nat)
    requires DistinctAddresses(signs) && at < |signs|
    ensures Primaries(signs, signs[at].addr) == [signs[at]]
    ensures Others(signs, signs[at].addr) == signs[..at] + signs[at + 1..]
  {
    if at == 0 {
      NoPrimary(signs[1..], signs[0].addr);
    } else {
      OnePrimary(signs[1..], at - 1);
      assert signs[..at] == [signs[0]] + signs[1..][..at - 1] && signs[1..][at..] == signs[at + 1..];
    }
  }

  /** With one signature per validator, the two versions assemble the signatures in the same order exactly when the
      primary has not signed or its signature sorts first. */
  lemma VersionsAgreeIff(signs: seq<Sign>, primary: int)
    requires DistinctAddresses(signs)
    ensures PrimaryFirst(signs, primary) == signs <==>
            (forall i :: 0 <= i < |signs| ==> signs[i].addr != primary) || (signs != [] && signs[0].addr == primary)
  {
    hide Primaries, Others;
    if i :| 0 <= i < |signs| && signs[i].addr == primary {
      OnePrimary(signs, i);
      assert PrimaryFirst(signs, primary)[0] == signs[i];
      if i == 0 { assert PrimaryFirst(signs, primary) == [signs[0]] + signs[1..] == signs; }
    } else {
      NoPrimary(signs, primary);
      assert PrimaryFirst(signs, primary) == signs;
    }
  }

  /** The original version depends on the attempt: primaries whose signatures do not start alike give other bytes. */
  lemma AttemptsDisagree(signs: seq<Sign>, i: nat, j: nat)
    requires DistinctAddresses(signs) && i < |signs| && j < |signs|
    requires !(signs[i].bytes <= signs[j].bytes) && !(signs[j].bytes <= signs[i].bytes)
    ensures Concat(PrimaryFirst(signs, signs[i].addr)) != Concat(PrimaryFirst(signs, signs[j].addr))
  {
    hide Primaries, Others;
    var a, b := signs[i], signs[j];
    OnePrimary(signs, i);
    OnePrimary(signs, j);
    ConcatOne(a);
    ConcatOne(b);
    ConcatAppend([a], Others(signs, a.addr));
    ConcatAppend([b], Others(signs, b.addr));
    var x, y := Concat(PrimaryFirst(signs, a.addr)), Concat(PrimaryFirst(signs, b.addr));
    assert a.bytes <= x && b.bytes <= y;
    if x == y { PrefixesCompare(a.bytes, b.bytes, x); }
  }

  lemma PrefixesCompare(a: seq<Byte>, b: seq<Byte>, x: seq<Byte>)
    requires a <= x && b <= x
    ensures a <= b || b <= a
  {
    if |a| <= |b| { assert b[..|a|] == x[..|a|]; } else { assert a[..|b|] == x[..|b|]; }
  }
}
