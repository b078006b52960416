/** The sort state both views keep and the sorted projection they derive from it. */
module Sorting {
  import opened Wrappers
  import opened Figures

  datatype Direction = Asc | Desc

  /** The comparator both views pass to `Array.prototype.sort`:
      negative when `a` goes first, positive when `b` goes first, zero on equal keys. */
  function Compare(field: string, dir: Direction, a: Figure, b: Figure): (c: int)
    requires IsField(field)
    ensures c == -1 || c == 0 || c == 1
    ensures c < 0 <==> if dir == Asc then Less(Key(a, field), Key(b, field)) else Less(Key(b, field), Key(a, field))
    ensures c > 0 <==> if dir == Asc then Less(Key(b, field), Key(a, field)) else Less(Key(a, field), Key(b, field))
  {
    LessAsymmetric(Key(a, field), Key(b, field));
    if Less(Key(a, field), Key(b, field)) then (if dir == Asc then -1 else 1)
    else if Less(Key(b, field), Key(a, field)) then (if dir == Asc then 1 else -1)
    else 0
  }

  /** The comparator is consistent: swapping its arguments negates it. */
  lemma CompareAntisymmetric(field: string, dir: Direction, a: Figure, b: Figure)
    requires IsField(field)
    ensures Compare(field, dir, a, b) == -Compare(field, dir, b, a)
  {
    LessAsymmetric(Key(a, field), Key(b, field));
  }

  /** It answers zero exactly for equal keys. */
  lemma CompareZeroIffSameKey(field: string, dir: Direction, a: Figure, b: Figure)
    requires IsField(field)
    ensures Compare(field, dir, a, b) == 0 <==> Key(a, field) == Key(b, field)
  {
    LessTotal(Key(a, field), Key(b, field));
    LessIrreflexive(Key(a, field));
  }

  /** "Goes no later than" is transitive. */
  lemma CompareTransitive(field: string, dir: Direction, a: Figure, b: Figure, c: Figure)
    requires IsField(field)
    requires Compare(field, dir, a, b) <= 0 && Compare(field, dir, b, c) <= 0
    ensures Compare(field, dir, a, c) <= 0
  {
    var ka, kb, kc := Key(a, field), Key(b, field), Key(c, field);
    LessTotal(ka, kb);
    LessTotal(kb, kc);
    LessTotal(ka, kc);
    LessAsymmetric(ka, kb);
    LessAsymmetric(kb, kc);
    LessAsymmetric(ka, kc);
    if Less(ka, kb) && Less(kb, kc) { LessTransitive(ka, kb, kc); }
    if Less(kb, ka) && Less(kc, kb) { LessTransitive(kc, kb, ka); }
  }

  /** Descending order is ascending order read backwards. */
  lemma CompareDescMirrorsAsc(field: string, a: Figure, b: Figure)
    requires IsField(field)
    ensures Compare(field, Desc, a, b) == Compare(field, Asc, b, a)
  {
    LessAsymmetric(Key(a, field), Key(b, field));
  }

  /** No element is placed after one the comparator wants behind it. */
  ghost predicate Sorted(s: seq<Figure>, field: string, dir: Direction)
    requires IsField(field)
  {
    forall i, j :: 0 <= i < j < |s| ==> Compare(field, dir, s[i], s[j]) <= 0
  }

  function Insert(x: Figure, s: seq<Figure>, field: string, dir: Direction): (r: seq<Figure>)
    requires IsField(field)
    ensures multiset(r) == multiset(s) + multiset{x}
  {
    if s == [] then [x]
    else if Compare(field, dir, x, s[0]) <= 0 then [x] + s
    else
      assert s == [s[0]] + s[1..];
      [s[0]] + Insert(x, s[1..], field, dir)
  }

  /** Putting in front an element that goes no later than any other keeps a list sorted. */
  lemma SortedCons(x: Figure, s: seq<Figure>, field: string, dir: Direction)
    requires IsField(field) && Sorted(s, field, dir)
    requires forall j :: 0 <= j < |s| ==> Compare(field, dir, x, s[j]) <= 0
    ensures Sorted([x] + s, field, dir)
  {
    var r := [x] + s;
    forall i, j | 0 <= i < j < |r|
      ensures Compare(field, dir, r[i], r[j]) <= 0
    {
      assert r[j] == s[j - 1];
      if i > 0 { assert r[i] == s[i - 1]; }
    }
  }

  /** An element the comparator places no later than the head of a sorted list goes before all of it. */
  lemma HeadBound(x: Figure, s: seq<Figure>, field: string, dir: Direction)
    requires IsField(field) && Sorted(s, field, dir) && s != []
    requires Compare(field, dir, x, s[0]) <= 0
    ensures forall j :: 0 <= j < |s| ==> Compare(field, dir, x, s[j]) <= 0
  {
    forall j | 0 < j < |s|
      ensures Compare(field, dir, x, s[j]) <= 0
    {
      CompareTransitive(field, dir, x, s[0], s[j]);
    }
  }

  /** Every element of a permutation of `[x] + tail` is `x` or an element of `tail`. */
  lemma HeadBeforeInserted(h: Figure, x: Figure, tail: seq<Figure>, rest: seq<Figure>, field: string, dir: Direction)
    requires IsField(field)
    requires multiset(rest) == multiset(tail) + multiset{x}
    requires Compare(field, dir, h, x) <= 0
    requires forall k :: 0 <= k < |tail| ==> Compare(field, dir, h, tail[k]) <= 0
    ensures forall j :: 0 <= j < |rest| ==> Compare(field, dir, h, rest[j]) <= 0
  {
    forall j | 0 <= j < |rest|
      ensures Compare(field, dir, h, rest[j]) <= 0
    {
      assert rest[j] in multiset(rest);
      if rest[j] != x {
        assert rest[j] in multiset(tail);
      }
    }
  }

  lemma {:induction false} InsertSorted(x: Figure, s: seq<Figure>, field: string, dir: Direction)
    requires IsField(field) && Sorted(s, field, dir)
    ensures Sorted(Insert(x, s, field, dir), field, dir)
  {
    if s == [] {
    } else if Compare(field, dir, x, s[0]) <= 0 {
      HeadBound(x, s, field, dir);
      SortedCons(x, s, field, dir);
    } else {
      CompareAntisymmetric(field, dir, x, s[0]);
      var tail := s[1..];
      var rest := Insert(x, tail, field, dir);
      assert Sorted(tail, field, dir);
      InsertSorted(x, tail, field, dir);
      assert forall k :: 0 <= k < |tail| ==> tail[k] == s[k + 1];
      HeadBeforeInserted(s[0], x, tail, rest, field, dir);
      SortedCons(s[0], rest, field, dir);
    }
  }

  /** `[...s].sort(comparator)`: a permutation of `s` (sorted, by SortFiguresSorted). */
  function SortFigures(s: seq<Figure>, field: string, dir: Direction): (r: seq<Figure>)
    requires IsField(field)
    ensures multiset(r) == multiset(s)
    ensures |r| == |s|
  {
    if s == [] then []
    else
      assert s == [s[0]] + s[1..];
      Insert(s[0], SortFigures(s[1..], field, dir), field, dir)
  }

  /** The comparator accepts the order the sort produces. */
  lemma {:induction false} SortFiguresSorted(s: seq<Figure>, field: string, dir: Direction)
    requires IsField(field)
    ensures Sorted(SortFigures(s, field, dir), field, dir)
  {
    if s != [] {
      SortFiguresSorted(s[1..], field, dir);
      InsertSorted(s[0], SortFigures(s[1..], field, dir), field, dir);
    }
  }

  /** `!sortField` is false: a field is chosen and it is not the empty string. */
  predicate SortActive(field: Option<string>) {
    field.Some? && field.value != ""
  }

  /** The sort state names a sortable property whenever sorting is active. */
  predicate SortableChoice(field: Option<string>) {
    SortActive(field) ==> IsField(field.value)
  }

  /** `getSortedData`: the list unchanged while no field is chosen (or "None" is),
      otherwise a permutation ordered by the chosen field in the chosen direction. */
  function SortedBy(s: seq<Figure>, field: Option<string>, dir: Direction): (r: seq<Figure>)
    requires SortableChoice(field)
    ensures !SortActive(field) ==> r == s
    ensures multiset(r) == multiset(s) && |r| == |s|
    ensures SortActive(field) ==> Sorted(r, field.value, dir)
  {
    if !SortActive(field) then s
    else
      SortFiguresSorted(s, field.value, dir);
      SortFigures(s, field.value, dir)
  }

  /** `handleSort`: the direction chosen when `field` is clicked or selected;
      descending only when the same field is re-selected while ascending. */
  function SelectDirection(current: Option<string>, dir: Direction, field: string): (d: Direction)
    ensures d == Desc <==> current == Some(field) && dir == Asc
  {
    if current == Some(field) && dir == Asc then Desc else Asc
  }

  /** Re-selecting the field just selected always reverses the direction. */
  lemma ReselectAlternates(current: Option<string>, dir: Direction, field: string)
    ensures var d := SelectDirection(current, dir, field);
            SelectDirection(Some(field), d, field) != d
  {
  }

  /** The direction button: ascending and descending swap. */
  function Flipped(dir: Direction): (r: Direction)
    ensures r != dir
  {
    if dir == Asc then Desc else Asc
  }

  lemma FlipTwiceIsIdentity(dir: Direction)
    ensures Flipped(Flipped(dir)) == dir
  {
  }

  /** No two different figures share a key. */
  ghost predicate DistinctKeys(s: seq<Figure>, field: string)
    requires IsField(field)
  {
    forall x, y :: x in s && y in s && Key(x, field) == Key(y, field) ==> x == y
  }

  /** Two sorted arrangements of one collection with distinct keys start alike. */
  lemma SameHead(a: seq<Figure>, b: seq<Figure>, field: string, dir: Direction)
    requires IsField(field)
    requires Sorted(a, field, dir) && Sorted(b, field, dir)
    requires multiset(a) == multiset(b) && DistinctKeys(a, field) && a != [] && b != []
    ensures a[0] == b[0]
  {
    if a[0] != b[0] {
      assert a[0] in multiset(b) && b[0] in multiset(a);
      var k :| 0 <= k < |b| && b[k] == a[0];
      var j :| 0 <= j < |a| && a[j] == b[0];
      assert Compare(field, dir, b[0], a[0]) <= 0;
      assert Compare(field, dir, a[0], b[0]) <= 0;
      CompareAntisymmetric(field, dir, a[0], b[0]);
      CompareZeroIffSameKey(field, dir, a[0], b[0]);
      assert false;
    }
  }

  lemma SortedTail(a: seq<Figure>, field: string, dir: Direction)
    requires IsField(field) && Sorted(a, field, dir) && a != []
    ensures Sorted(a[1..], field, dir)
  {
    var t := a[1..];
    forall i, j | 0 <= i < j < |t|
      ensures Compare(field, dir, t[i], t[j]) <= 0
    {
      assert t[i] == a[i + 1] && t[j] == a[j + 1];
    }
  }

  /** With distinct keys there is only one sorted arrangement of a collection. */
  lemma {:induction false} SortedUnique(a: seq<Figure>, b: seq<Figure>, field: string, dir: Direction)
    requires IsField(field)
    requires Sorted(a, field, dir) && Sorted(b, field, dir)
    requires multiset(a) == multiset(b) && DistinctKeys(a, field)
    ensures a == b
    decreases |a|
  {
    assert |a| == |multiset(a)| == |multiset(b)| == |b|;
    if a != [] {
      SameHead(a, b, field, dir);
      assert a == [a[0]] + a[1..] && b == [b[0]] + b[1..];
      assert multiset(a[1..]) == multiset(a) - multiset{a[0]};
      assert multiset(b[1..]) == multiset(b) - multiset{a[0]};
      SortedTail(a, field, dir);
      SortedTail(b, field, dir);
      assert forall x :: x in a[1..] ==> x in a;
      SortedUnique(a[1..], b[1..], field, dir);
    }
  }

  function Reverse<T>(s: seq<T>): (r: seq<T>)
    ensures |r| == |s|
    ensures forall i :: 0 <= i < |s| ==> r[i] == s[|s| - 1 - i]
    ensures multiset(r) == multiset(s)
  {
    if s == [] then []
    else
      assert s == [s[0]] + s[1..];
      Reverse(s[1..]) + [s[0]]
  }

  /** Read backwards, an ascending list is a descending one. */
  lemma ReverseOfAscIsDesc(up: seq<Figure>, field: string)
    requires IsField(field) && Sorted(up, field, Asc)
    ensures Sorted(Reverse(up), field, Desc)
  {
    var down := Reverse(up);
    var n := |up|;
    forall i, j | 0 <= i < j < n
      ensures Compare(field, Desc, down[i], down[j]) <= 0
    {
      var hi, lo := n - 1 - i, n - 1 - j;
      assert down[i] == up[hi] && down[j] == up[lo];
      assert Compare(field, Asc, up[lo], up[hi]) <= 0;
      CompareDescMirrorsAsc(field, down[i], down[j]);
    }
  }

  lemma DistinctKeysPermutation(a: seq<Figure>, b: seq<Figure>, field: string)
    requires IsField(field) && multiset(a) == multiset(b) && DistinctKeys(b, field)
    ensures DistinctKeys(a, field)
  {
    forall x | x in a ensures x in b {
      assert x in multiset(a);
    }
  }

  /** Sorting descending gives exactly the ascending order reversed when keys are distinct. */
  lemma DescIsReversedAsc(s: seq<Figure>, field: string)
    requires IsField(field) && DistinctKeys(s, field)
    ensures SortFigures(s, field, Desc) == Reverse(SortFigures(s, field, Asc))
  {
    var up := SortFigures(s, field, Asc);
    SortFiguresSorted(s, field, Asc);
    ReverseOfAscIsDesc(up, field);
    var sorted := SortFigures(s, field, Desc);
    SortFiguresSorted(s, field, Desc);
    DistinctKeysPermutation(sorted, s, field);
    SortedUnique(sorted, Reverse(up), field, Desc);
  }
}
