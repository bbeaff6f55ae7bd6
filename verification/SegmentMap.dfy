/** Sorted lists of disjoint segments, and the key-to-value map such a list stands for. */
module SegmentMap {
  import opened Iterators

  datatype Option<+T> = None | Some(value: T)

  /** Keys from `start` up to, not including, `end`. */
  datatype Range = Range(start: int, end: int) {
    function Length(): int {
      end - start
    }

    predicate Contains(x: int) {
      start <= x < end
    }

    predicate CanSplitAt(x: int) {
      Contains(x) && start < x
    }
  }

  datatype Seg<V> = Seg(range: Range, value: V)

  ghost predicate Sorted<V>(s: seq<Seg<V>>) {
    && (forall i :: 0 <= i < |s| ==> s[i].range.start < s[i].range.end)
    && (forall i, j :: 0 <= i < j < |s| ==> s[i].range.end <= s[j].range.start)
  }

  /** What a segment's value says about one key of its range. */
  type Reading<!V, !X> = (Range, V, int) -> X

  ghost function Lookup<V, X>(s: seq<Seg<V>>, at: Reading<V, X>, key: int): Option<X> {
    if s == [] then None
    else if s[0].range.Contains(key) then Some(at(s[0].range, s[0].value, key))
    else Lookup(s[1..], at, key)
  }

  lemma {:induction false} LookupAppend<V, X>(a: seq<Seg<V>>, b: seq<Seg<V>>, at: Reading<V, X>, key: int)
    ensures Lookup(a + b, at, key) == if Lookup(a, at, key).Some? then Lookup(a, at, key) else Lookup(b, at, key)
    decreases |a|
  {
    if a == [] {
      assert a + b == b;
    } else {
      assert (a + b)[1..] == a[1..] + b;
      LookupAppend(a[1..], b, at, key);
    }
  }

  lemma {:induction false} LookupNone<V, X>(s: seq<Seg<V>>, at: Reading<V, X>, key: int)
    ensures Lookup(s, at, key).None? <==> forall i :: 0 <= i < |s| ==> !s[i].range.Contains(key)
    decreases |s|
  {
    if s != [] {
      LookupNone(s[1..], at, key);
      assert forall i :: 0 < i < |s| ==> s[i] == s[1..][i - 1];
    }
  }

  /** A key inside segment `i` reads that segment. */
  lemma LookupAt<V, X>(s: seq<Seg<V>>, at: Reading<V, X>, key: int, i: nat)
    requires Sorted(s) && i < |s| && s[i].range.Contains(key)
    ensures Lookup(s, at, key) == Some(at(s[i].range, s[i].value, key))
  {
    assert s == s[..i] + s[i..];
    LookupAppend(s[..i], s[i..], at, key);
    LookupNone(s[..i], at, key);
  }

  lemma LookupOne<V, X>(x: Seg<V>, at: Reading<V, X>, key: int)
    ensures Lookup([x], at, key) == if x.range.Contains(key) then Some(at(x.range, x.value, key)) else None
  {
    assert [x][1..] == [];
  }

  lemma LookupTwo<V, X>(x: Seg<V>, y: Seg<V>, at: Reading<V, X>, key: int)
    ensures Lookup([x, y], at, key) ==
              if x.range.Contains(key) then Some(at(x.range, x.value, key))
              else if y.range.Contains(key) then Some(at(y.range, y.value, key)) else None
  {
    assert [x, y][1..] == [y];
    LookupOne(y, at, key);
  }

  // ----- replacing a stretch of the list -----

  function Splice<V>(s: seq<Seg<V>>, i: nat, j: nat, mid: seq<Seg<V>>): seq<Seg<V>>
    requires i <= j <= |s|
  {
    s[..i] + mid + s[j..]
  }

  /** `mid` is sorted and lies between what comes before `i` and after `j`. */
  ghost predicate Fits<V>(s: seq<Seg<V>>, i: nat, j: nat, mid: seq<Seg<V>>) {
    && i <= j <= |s| && Sorted(mid)
    && (forall m :: 0 <= m < |mid| && 0 < i ==> s[i - 1].range.end <= mid[m].range.start)
    && (forall m :: 0 <= m < |mid| && j < |s| ==> mid[m].range.end <= s[j].range.start)
  }

  lemma SpliceSorted<V>(s: seq<Seg<V>>, i: nat, j: nat, mid: seq<Seg<V>>)
    requires Sorted(s) && Fits(s, i, j, mid)
    ensures Sorted(Splice(s, i, j, mid))
  {
    var s' := Splice(s, i, j, mid);
    var d := |mid|;
    forall x, y | 0 <= x < y < |s'| ensures s'[x].range.end <= s'[y].range.start {
      assert x < i ==> s'[x] == s[x];
      assert i <= x < i + d ==> s'[x] == mid[x - i];
      assert x >= i + d ==> s'[x] == s[x - d - i + j];
      assert y < i ==> s'[y] == s[y];
      assert i <= y < i + d ==> s'[y] == mid[y - i];
      assert y >= i + d ==> s'[y] == s[y - d - i + j];
    }
  }

  /** Only keys of the exchanged stretch, old or new, are affected. */
  lemma SpliceLookup<V, X>(s: seq<Seg<V>>, i: nat, j: nat, mid: seq<Seg<V>>, at: Reading<V, X>, key: int)
    requires Sorted(s) && Fits(s, i, j, mid)
    ensures Lookup(Splice(s, i, j, mid), at, key) ==
              if Lookup(mid, at, key).Some? then Lookup(mid, at, key)
              else if Lookup(s[i..j], at, key).Some? then None
              else Lookup(s, at, key)
  {
    var s' := Splice(s, i, j, mid);
    hide Lookup;
    LookupAppend(s[..i] + mid, s[j..], at, key);
    LookupAppend(s[..i], mid, at, key);
    assert s == s[..i] + s[i..j] + s[j..];
    LookupAppend(s[..i] + s[i..j], s[j..], at, key);
    LookupAppend(s[..i], s[i..j], at, key);
    LookupNone(s[..i], at, key);
    LookupNone(s[j..], at, key);
    LookupNone(mid, at, key);
    LookupNone(s[i..j], at, key);
    if Lookup(mid, at, key).Some? {
      var m :| 0 <= m < |mid| && mid[m].range.Contains(key);
      Apart(s, i, j, mid, m, key);
    } else if Lookup(s[i..j], at, key).Some? {
      var m :| 0 <= m < |s[i..j]| && s[i..j][m].range.Contains(key);
      assert s[i..j][m] == s[i + m];
    }
  }

  lemma Apart<V>(s: seq<Seg<V>>, i: nat, j: nat, mid: seq<Seg<V>>, m: nat, key: int)
    requires Sorted(s) && Fits(s, i, j, mid) && m < |mid| && mid[m].range.Contains(key)
    ensures forall x :: 0 <= x < i ==> !s[..i][x].range.Contains(key)
    ensures forall x :: 0 <= x < |s[j..]| ==> !s[j..][x].range.Contains(key)
  {
    forall x | 0 <= x < i ensures !s[..i][x].range.Contains(key) {
      assert s[..i][x] == s[x] && s[x].range.end <= s[i - 1].range.end;
    }
    forall x | 0 <= x < |s[j..]| ensures !s[j..][x].range.Contains(key) {
      assert s[j..][x] == s[j + x] && s[j].range.start <= s[j + x].range.start;
    }
  }

  // ----- merging and splitting values -----

  /** Merged and split values say about every key what the values they come from said. */
  ghost predicate Lawful<V(!new), X>(at: Reading<V, X>, merge: (Range, V, Range, V) -> Option<V>, split: (Range, V, int) -> (V, V)) {
    && (forall r1: Range, v1: V, r2: Range, v2: V, key: int ::
          r1.end == r2.start && r1.start < r1.end && r2.start < r2.end && merge(r1, v1, r2, v2).Some? ==>
            && (r1.Contains(key) ==> at(Range(r1.start, r2.end), merge(r1, v1, r2, v2).value, key) == at(r1, v1, key))
            && (r2.Contains(key) ==> at(Range(r1.start, r2.end), merge(r1, v1, r2, v2).value, key) == at(r2, v2, key)))
    && (forall r: Range, v: V, x: int, key: int ::
          r.CanSplitAt(x) ==>
            && (Range(r.start, x).Contains(key) ==> at(Range(r.start, x), split(r, v, x).0, key) == at(r, v, key))
            && (Range(x, r.end).Contains(key) ==> at(Range(x, r.end), split(r, v, x).1, key) == at(r, v, key)))
  }

  /** Every key reads the same in both lists. */
  ghost predicate Agree<V, X>(s: seq<Seg<V>>, s': seq<Seg<V>>, at: Reading<V, X>) {
    forall key :: Lookup(s', at, key) == Lookup(s, at, key)
  }

  /** The keys of `r` read as `v` says, every other as before. */
  ghost predicate Added<V, X>(s: seq<Seg<V>>, s': seq<Seg<V>>, at: Reading<V, X>, r: Range, v: V) {
    forall key :: Lookup(s', at, key) == if r.Contains(key) then Some(at(r, v, key)) else Lookup(s, at, key)
  }

  /** The keys of `r` are gone, every other reads as before. */
  ghost predicate Removed<V, X>(s: seq<Seg<V>>, s': seq<Seg<V>>, at: Reading<V, X>, r: Range) {
    forall key :: Lookup(s', at, key) == if r.Contains(key) then None else Lookup(s, at, key)
  }

  // ----- what the operations do to the list -----

  lemma PutIsSplice<V>(s: seq<Seg<V>>, k: nat, x: Seg<V>)
    requires k <= |s|
    ensures PutIn(s, k, x) == Splice(s, k, k, [x])
  {
  }

  lemma TakeIsSplice<V>(s: seq<Seg<V>>, m: nat)
    requires m < |s|
    ensures TakeOut(s, m) == Splice(s, m, m + 1, [])
  {
  }

  lemma SetIsSplice<V>(s: seq<Seg<V>>, m: nat, x: Seg<V>)
    requires m < |s|
    ensures s[m := x] == Splice(s, m, m + 1, [x])
  {
  }

  /** A new segment in a gap. */
  lemma AddPlain<V, X>(s: seq<Seg<V>>, k: nat, r: Range, v: V, at: Reading<V, X>)
    requires Sorted(s) && Fits(s, k, k, [Seg(r, v)])
    ensures var s' := PutIn(s, k, Seg(r, v)); Sorted(s') && Added(s, s', at, r, v)
  {
    hide Lookup, Sorted, Fits;
    var mid := [Seg(r, v)];
    FitsBounds(s, k, k, mid);
    PutIsSplice(s, k, Seg(r, v));
    SpliceSorted(s, k, k, mid);
    forall key ensures Lookup(Splice(s, k, k, mid), at, key) == if r.Contains(key) then Some(at(r, v, key)) else Lookup(s, at, key) {
      SpliceLookup(s, k, k, mid, at, key);
      LookupOne(Seg(r, v), at, key);
      LookupEmpty<V, X>(at, key);
      assert s[k..k] == [];
    }
  }

  lemma FitsBounds<V>(s: seq<Seg<V>>, i: nat, j: nat, mid: seq<Seg<V>>)
    requires Fits(s, i, j, mid)
    ensures i <= j <= |s|
  {
  }

  lemma LookupEmpty<V, X>(at: Reading<V, X>, key: int)
    ensures Lookup([], at, key) == None
  {
  }

  /** A stretch exchanged for one that reads the same, with the keys of `r` added. */
  lemma AddBySplice<V, X>(s: seq<Seg<V>>, i: nat, j: nat, mid: seq<Seg<V>>, r: Range, v: V, at: Reading<V, X>)
    requires Sorted(s) && Fits(s, i, j, mid)
    requires forall key :: Lookup(mid, at, key) == if r.Contains(key) then Some(at(r, v, key)) else Lookup(s[i..j], at, key)
    requires forall key :: Lookup(s[i..j], at, key).Some? ==> Lookup(s, at, key) == Lookup(s[i..j], at, key)
    ensures var s' := Splice(s, i, j, mid); Sorted(s') && Added(s, s', at, r, v)
  {
    hide Lookup, Sorted, Fits;
    FitsBounds(s, i, j, mid);
    SpliceSorted(s, i, j, mid);
    forall key ensures Lookup(Splice(s, i, j, mid), at, key) == if r.Contains(key) then Some(at(r, v, key)) else Lookup(s, at, key) {
      SpliceLookup(s, i, j, mid, at, key);
    }
  }

  /** A stretch exchanged for one that reads the same. */
  lemma AgreeBySplice<V, X>(s: seq<Seg<V>>, i: nat, j: nat, mid: seq<Seg<V>>, at: Reading<V, X>)
    requires Sorted(s) && Fits(s, i, j, mid) && Agree(s[i..j], mid, at)
    ensures var s' := Splice(s, i, j, mid); Sorted(s') && Agree(s, s', at)
  {
    hide Lookup, Sorted, Fits;
    FitsBounds(s, i, j, mid);
    SpliceSorted(s, i, j, mid);
    forall key ensures Lookup(Splice(s, i, j, mid), at, key) == Lookup(s, at, key) {
      SpliceLookup(s, i, j, mid, at, key);
      StretchReads(s, i, j, at, key);
    }
  }

  lemma StretchReads<V, X>(s: seq<Seg<V>>, i: nat, j: nat, at: Reading<V, X>, key: int)
    requires Sorted(s) && i <= j <= |s|
    ensures Lookup(s[i..j], at, key).Some? ==> Lookup(s, at, key) == Lookup(s[i..j], at, key)
  {
    hide Lookup;
    assert s == s[..i] + s[i..j] + s[j..];
    LookupAppend(s[..i] + s[i..j], s[j..], at, key);
    LookupAppend(s[..i], s[i..j], at, key);
    LookupNone(s[i..j], at, key);
    LookupNone(s[..i], at, key);
    if Lookup(s[i..j], at, key).Some? {
      var m :| 0 <= m < |s[i..j]| && s[i..j][m].range.Contains(key);
      assert s[i..j][m] == s[i + m];
    }
  }

  lemma AddToPrev<V(!new), X>(s: seq<Seg<V>>, k: nat, r: Range, v: V, mv: V, at: Reading<V, X>,
                        merge: (Range, V, Range, V) -> Option<V>, split: (Range, V, int) -> (V, V))
    requires Sorted(s) && Lawful(at, merge, split) && 0 < k <= |s| && Fits(s, k, k, [Seg(r, v)])
    requires s[k - 1].range.end == r.start && merge(s[k - 1].range, s[k - 1].value, r, v) == Some(mv)
    ensures var s' := s[k - 1 := Seg(Range(s[k - 1].range.start, r.end), mv)]; Sorted(s') && Added(s, s', at, r, v)
  {
    var x := s[k - 1];
    var y := Seg(Range(x.range.start, r.end), mv);
    assert [Seg(r, v)][0] == Seg(r, v);
    assert s[k - 1..k] == [x];
    forall key ensures Lookup([y], at, key) == if r.Contains(key) then Some(at(r, v, key)) else Lookup([x], at, key) {
      LookupOne(y, at, key);
      LookupOne(x, at, key);
    }
    forall key ensures Lookup(s[k - 1..k], at, key).Some? ==> Lookup(s, at, key) == Lookup(s[k - 1..k], at, key) {
      StretchReads(s, k - 1, k, at, key);
    }
    SetIsSplice(s, k - 1, y);
    AddBySplice(s, k - 1, k, [y], r, v, at);
  }

  lemma AddToNext<V(!new), X>(s: seq<Seg<V>>, k: nat, r: Range, v: V, mv: V, at: Reading<V, X>,
                        merge: (Range, V, Range, V) -> Option<V>, split: (Range, V, int) -> (V, V))
    requires Sorted(s) && Lawful(at, merge, split) && k < |s| && Fits(s, k, k, [Seg(r, v)])
    requires s[k].range.start == r.end && merge(r, v, s[k].range, s[k].value) == Some(mv)
    ensures var s' := s[k := Seg(Range(r.start, s[k].range.end), mv)]; Sorted(s') && Added(s, s', at, r, v)
  {
    var x := s[k];
    var y := Seg(Range(r.start, x.range.end), mv);
    assert [Seg(r, v)][0] == Seg(r, v);
    assert s[k..k + 1] == [x];
    forall key ensures Lookup([y], at, key) == if r.Contains(key) then Some(at(r, v, key)) else Lookup([x], at, key) {
      LookupOne(y, at, key);
      LookupOne(x, at, key);
    }
    forall key ensures Lookup(s[k..k + 1], at, key).Some? ==> Lookup(s, at, key) == Lookup(s[k..k + 1], at, key) {
      StretchReads(s, k, k + 1, at, key);
    }
    SetIsSplice(s, k, y);
    AddBySplice(s, k, k + 1, [y], r, v, at);
  }

  /** Two touching neighbours merged. */
  lemma MergeAgrees<V(!new), X>(s: seq<Seg<V>>, m: nat, mv: V, at: Reading<V, X>,
                          merge: (Range, V, Range, V) -> Option<V>, split: (Range, V, int) -> (V, V))
    requires Sorted(s) && Lawful(at, merge, split) && m + 1 < |s| && s[m].range.end == s[m + 1].range.start
    requires merge(s[m].range, s[m].value, s[m + 1].range, s[m + 1].value) == Some(mv)
    ensures var s' := TakeOut(s[m := Seg(Range(s[m].range.start, s[m + 1].range.end), mv)], m + 1);
            Sorted(s') && Agree(s, s', at)
  {
    var x, z := s[m], s[m + 1];
    var y := Seg(Range(x.range.start, z.range.end), mv);
    assert s[m..m + 2] == [x, z];
    forall key ensures Lookup([y], at, key) == Lookup([x, z], at, key) {
      LookupOne(y, at, key);
      LookupTwo(x, z, at, key);
    }
    assert TakeOut(s[m := y], m + 1) == Splice(s, m, m + 2, [y]);
    AgreeBySplice(s, m, m + 2, [y], at);
  }

  /** One segment split in two. */
  lemma SplitAgrees<V(!new), X>(s: seq<Seg<V>>, m: nat, x: int, at: Reading<V, X>,
                          merge: (Range, V, Range, V) -> Option<V>, split: (Range, V, int) -> (V, V))
    requires Sorted(s) && Lawful(at, merge, split) && m < |s| && s[m].range.CanSplitAt(x)
    ensures var r, v := s[m].range, split(s[m].range, s[m].value, x);
            var s' := PutIn(s[m := Seg(Range(r.start, x), v.0)], m + 1, Seg(Range(x, r.end), v.1));
            Sorted(s') && Agree(s, s', at)
  {
    var r, v := s[m].range, split(s[m].range, s[m].value, x);
    var y, z := Seg(Range(r.start, x), v.0), Seg(Range(x, r.end), v.1);
    assert s[m..m + 1] == [s[m]];
    forall key ensures Lookup([y, z], at, key) == Lookup([s[m]], at, key) {
      LookupOne(s[m], at, key);
      LookupTwo(y, z, at, key);
    }
    assert PutIn(s[m := y], m + 1, z) == Splice(s, m, m + 1, [y, z]);
    AgreeBySplice(s, m, m + 1, [y, z], at);
  }

  /** One segment removed. */
  lemma TakeRemoves<V, X>(s: seq<Seg<V>>, m: nat, at: Reading<V, X>)
    requires Sorted(s) && m < |s|
    ensures Sorted(TakeOut(s, m)) && Removed(s, TakeOut(s, m), at, s[m].range)
  {
    hide Lookup;
    TakeIsSplice(s, m);
    SpliceSorted(s, m, m + 1, []);
    assert s[m..m + 1] == [s[m]];
    forall key ensures Lookup(TakeOut(s, m), at, key) == if s[m].range.Contains(key) then None else Lookup(s, at, key) {
      SpliceLookup(s, m, m + 1, [], at, key);
      LookupEmpty<V, X>(at, key);
      LookupOne(s[m], at, key);
    }
  }

  lemma FitsOne<V>(s: seq<Seg<V>>, k: nat, r: Range, v: V)
    requires k <= |s|
    ensures Fits(s, k, k, [Seg(r, v)]) <==>
              && r.start < r.end
              && (0 < k ==> s[k - 1].range.end <= r.start)
              && (k < |s| ==> r.end <= s[k].range.start)
  {
    var mid := [Seg(r, v)];
    assert mid[0] == Seg(r, v);
  }

  lemma AddedThen<V, X>(s: seq<Seg<V>>, s1: seq<Seg<V>>, s2: seq<Seg<V>>, at: Reading<V, X>, r: Range, v: V)
    requires Added(s, s1, at, r, v) && Agree(s1, s2, at)
    ensures Added(s, s2, at, r, v)
  {
  }

  lemma AgreeThen<V, X>(s: seq<Seg<V>>, s1: seq<Seg<V>>, s2: seq<Seg<V>>, at: Reading<V, X>)
    requires Agree(s, s1, at) && Agree(s1, s2, at)
    ensures Agree(s, s2, at)
  {
  }

  lemma AgreeSame<V, X>(s: seq<Seg<V>>, at: Reading<V, X>)
    ensures Agree(s, s, at)
  {
  }

  /** The list with segment `m` split at `x`. */
  function SplitList<V>(s: seq<Seg<V>>, m: nat, x: int, split: (Range, V, int) -> (V, V)): seq<Seg<V>>
    requires m < |s|
  {
    var v := split(s[m].range, s[m].value, x);
    PutIn(s[m := Seg(Range(s[m].range.start, x), v.0)], m + 1, Seg(Range(x, s[m].range.end), v.1))
  }

  // ----- merging all neighbours -----

  ghost predicate Joins<V>(x: Seg<V>, y: Seg<V>, merge: (Range, V, Range, V) -> Option<V>) {
    x.range.end == y.range.start && merge(x.range, x.value, y.range, y.value).Some?
  }

  /** Segments `m` and `m + 1` made one. */
  ghost function JoinAt<V>(s: seq<Seg<V>>, m: nat, merge: (Range, V, Range, V) -> Option<V>): (r: seq<Seg<V>>)
    requires m + 1 < |s| && Joins(s[m], s[m + 1], merge)
    ensures |r| == |s| - 1
  {
    var x, y := s[m], s[m + 1];
    TakeOut(s[m := Seg(Range(x.range.start, y.range.end), merge(x.range, x.value, y.range, y.value).value)], m + 1)
  }

  lemma JoinsIs<V>(s: seq<Seg<V>>, m: nat, merge: (Range, V, Range, V) -> Option<V>)
    requires m + 1 < |s|
    ensures var x, y := s[m], s[m + 1];
            && (Joins(x, y, merge) <==> x.range.end == y.range.start && merge(x.range, x.value, y.range, y.value).Some?)
            && (Joins(x, y, merge) ==>
                  JoinAt(s, m, merge)
                  == TakeOut(s[m := Seg(Range(x.range.start, y.range.end), merge(x.range, x.value, y.range, y.value).value)], m + 1))
  {
  }

  /** Segments `m` and `m + 1` made one if they merge. */
  ghost function TryJoin<V>(s: seq<Seg<V>>, m: nat, merge: (Range, V, Range, V) -> Option<V>): (r: seq<Seg<V>>)
    ensures |r| <= |s|
  {
    if m + 1 < |s| && Joins(s[m], s[m + 1], merge) then JoinAt(s, m, merge) else s
  }

  /** Insertion at gap `k`, as the documentation has it: plainly, then merged with the segment
      before, then with the one after. */
  ghost function InsertMerged<V>(s: seq<Seg<V>>, k: nat, x: Seg<V>, merge: (Range, V, Range, V) -> Option<V>): seq<Seg<V>>
    requires k <= |s|
  {
    var plain := PutIn(s, k, x);
    if 0 < k && Joins(s[k - 1], x, merge) then TryJoin(JoinAt(plain, k - 1, merge), k - 1, merge) else TryJoin(plain, k, merge)
  }

  /** The segment before takes the new one. */
  lemma GrowsPrev<V>(s: seq<Seg<V>>, k: nat, x: Seg<V>, merge: (Range, V, Range, V) -> Option<V>)
    requires 0 < k <= |s| && Joins(s[k - 1], x, merge)
    ensures var mv := merge(s[k - 1].range, s[k - 1].value, x.range, x.value).value;
            InsertMerged(s, k, x, merge) == TryJoin(s[k - 1 := Seg(Range(s[k - 1].range.start, x.range.end), mv)], k - 1, merge)
  {
    var plain := PutIn(s, k, x);
    var mv := merge(s[k - 1].range, s[k - 1].value, x.range, x.value).value;
    assert plain[k - 1] == s[k - 1] && plain[k] == x;
    assert JoinAt(plain, k - 1, merge) == s[k - 1 := Seg(Range(s[k - 1].range.start, x.range.end), mv)];
  }

  /** The segment after takes the new one. */
  lemma GrowsNext<V>(s: seq<Seg<V>>, k: nat, x: Seg<V>, merge: (Range, V, Range, V) -> Option<V>)
    requires k < |s| && !(0 < k && Joins(s[k - 1], x, merge)) && Joins(x, s[k], merge)
    ensures var mv := merge(x.range, x.value, s[k].range, s[k].value).value;
            InsertMerged(s, k, x, merge) == s[k := Seg(Range(x.range.start, s[k].range.end), mv)]
  {
    var plain := PutIn(s, k, x);
    assert plain[k] == x && plain[k + 1] == s[k];
  }

  lemma StaysPlain<V>(s: seq<Seg<V>>, k: nat, x: Seg<V>, merge: (Range, V, Range, V) -> Option<V>)
    requires k <= |s| && !(0 < k && Joins(s[k - 1], x, merge)) && !(k < |s| && Joins(x, s[k], merge))
    ensures InsertMerged(s, k, x, merge) == PutIn(s, k, x)
  {
    assert k < |s| ==> PutIn(s, k, x)[k + 1] == s[k];
  }

  lemma TryJoinIs<V>(s: seq<Seg<V>>, m: nat, merge: (Range, V, Range, V) -> Option<V>)
    ensures m + 1 < |s| && Joins(s[m], s[m + 1], merge) ==> TryJoin(s, m, merge) == JoinAt(s, m, merge)
    ensures m + 1 >= |s| || !Joins(s[m], s[m + 1], merge) ==> TryJoin(s, m, merge) == s
  {
  }

  /** Merging from segment `m` on, always with the next one as long as that succeeds. */
  ghost function JoinFrom<V>(s: seq<Seg<V>>, m: nat, merge: (Range, V, Range, V) -> Option<V>): seq<Seg<V>>
    decreases |s| - m
  {
    if m + 1 >= |s| then s
    else if Joins(s[m], s[m + 1], merge) then JoinFrom(JoinAt(s, m, merge), m, merge)
    else JoinFrom(s, m + 1, merge)
  }

  lemma JoinFromIs<V>(s: seq<Seg<V>>, m: nat, merge: (Range, V, Range, V) -> Option<V>)
    ensures m + 1 >= |s| ==> JoinFrom(s, m, merge) == s
    ensures m + 1 < |s| && Joins(s[m], s[m + 1], merge) ==> JoinFrom(s, m, merge) == JoinFrom(JoinAt(s, m, merge), m, merge)
    ensures m + 1 < |s| && !Joins(s[m], s[m + 1], merge) ==> JoinFrom(s, m, merge) == JoinFrom(s, m + 1, merge)
  {
  }

  /** A merge that fails with a segment fails with what that segment grows to. */
  ghost predicate Steady<V(!new)>(merge: (Range, V, Range, V) -> Option<V>) {
    forall a: Seg<V>, b: Seg<V>, c: Seg<V> :: Joins(b, c, merge) && !Joins(a, b, merge) ==>
      !Joins(a, Seg(Range(b.range.start, c.range.end), merge(b.range, b.value, c.range, c.value).value), merge)
  }

  /** The same for a segment that grows to the left. */
  ghost predicate SteadyBack<V(!new)>(merge: (Range, V, Range, V) -> Option<V>) {
    forall a: Seg<V>, b: Seg<V>, c: Seg<V> :: Joins(a, b, merge) && !Joins(b, c, merge) ==>
      !Joins(Seg(Range(a.range.start, b.range.end), merge(a.range, a.value, b.range, b.value).value), c, merge)
  }

  ghost predicate NoneJoin<V>(s: seq<Seg<V>>, merge: (Range, V, Range, V) -> Option<V>) {
    forall i, j :: 0 <= i && j == i + 1 && j < |s| ==> !Joins(s[i], s[j], merge)
  }

  /** Joining one pair leaves no other, when failures are steady. */
  lemma JoinOnly<V(!new)>(s: seq<Seg<V>>, m: nat, merge: (Range, V, Range, V) -> Option<V>)
    requires Steady(merge) && m + 1 < |s| && Joins(s[m], s[m + 1], merge)
    requires forall i, j :: 0 <= i && j == i + 1 && j < |s| && i != m && i != m + 1 ==> !Joins(s[i], s[j], merge)
    ensures var r := JoinAt(s, m, merge); forall i, j :: 0 <= i && j == i + 1 && j < |r| && i != m ==> !Joins(r[i], r[j], merge)
    ensures SteadyBack(merge) && (m + 2 < |s| ==> !Joins(s[m + 1], s[m + 2], merge)) ==> NoneJoin(JoinAt(s, m, merge), merge)
  {
    var r := JoinAt(s, m, merge);
    assert forall i :: 0 <= i < m ==> r[i] == s[i];
    assert forall i :: m < i < |r| ==> r[i] == s[i + 1];
    forall i, j | 0 <= i && j == i + 1 && j < |r| && i != m ensures !Joins(r[i], r[j], merge) {
      assert i + 1 < m ==> !Joins(s[i], s[i + 1], merge);
      assert i + 1 == m ==> !Joins(s[i], s[i + 1], merge);
      assert i > m ==> !Joins(s[i + 1], s[i + 2], merge);
    }
  }

  /** Insertion keeps a set in which nothing is left to merge that way, when failures are
      steady. */
  lemma InsertLeavesNone<V(!new)>(s: seq<Seg<V>>, k: nat, x: Seg<V>, merge: (Range, V, Range, V) -> Option<V>)
    requires Steady(merge) && SteadyBack(merge) && k <= |s| && NoneJoin(s, merge)
    ensures NoneJoin(InsertMerged(s, k, x, merge), merge)
  {
    hide Steady, SteadyBack, Joins;
    var plain := PutIn(s, k, x);
    assert forall i :: 0 <= i < k ==> plain[i] == s[i];
    assert plain[k] == x && forall i :: k < i < |plain| ==> plain[i] == s[i - 1];
    forall i, j | 0 <= i && j == i + 1 && j < |plain| && i != k && j != k ensures !Joins(plain[i], plain[j], merge) {
      assert j < k ==> !Joins(s[i], s[j], merge);
      assert i > k ==> !Joins(s[i - 1], s[j - 1], merge);
    }
    if 0 < k && Joins(s[k - 1], x, merge) {
      JoinOnly(plain, k - 1, merge);
      LastJoin(JoinAt(plain, k - 1, merge), k - 1, merge);
    } else if k < |s| && Joins(x, s[k], merge) {
      JoinOnly(plain, k, merge);
      assert k + 1 < |s| ==> !Joins(s[k], s[k + 1], merge);
    }
  }

  lemma LastJoin<V(!new)>(r: seq<Seg<V>>, m: nat, merge: (Range, V, Range, V) -> Option<V>)
    requires Steady(merge) && SteadyBack(merge) && m < |r|
    requires forall i, j :: 0 <= i && j == i + 1 && j < |r| && i != m ==> !Joins(r[i], r[j], merge)
    ensures NoneJoin(TryJoin(r, m, merge), merge)
  {
    hide Steady, SteadyBack, Joins;
    if m + 1 < |r| && Joins(r[m], r[m + 1], merge) {
      assert m + 2 < |r| ==> !Joins(r[m + 1], r[m + 2], merge);
      JoinOnly(r, m, merge);
    }
  }

  /** One pass leaves nothing to merge, when failures are steady. */
  lemma {:induction false} NothingLeftToJoin<V(!new)>(s: seq<Seg<V>>, m: nat, merge: (Range, V, Range, V) -> Option<V>)
    requires Steady(merge) && forall i :: 0 <= i < m && i + 1 < |s| ==> !Joins(s[i], s[i + 1], merge)
    ensures var r := JoinFrom(s, m, merge); forall i :: 0 <= i && i + 1 < |r| ==> !Joins(r[i], r[i + 1], merge)
    decreases |s| - m
  {
    JoinFromIs(s, m, merge);
    if m + 1 < |s| {
      if Joins(s[m], s[m + 1], merge) {
        NothingLeftToJoin(JoinAt(s, m, merge), m, merge);
      } else {
        NothingLeftToJoin(s, m + 1, merge);
      }
    }
  }
}
