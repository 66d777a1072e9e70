/**
 * The table ordering of `useFilteredMembers` (src/Hooks/useMembers.js:130-142):
 * the value a member sorts by on one column, the comparator built from it, the
 * stable sort `Array.prototype.sort` performs with that comparator, and an
 * in-place insertion sort proved to compute it.
 */
module MemberSort {
  import opened Wrappers
  import opened Seqs
  import opened Records
  import Config

  /** What a column compares: a text or a number. */
  datatype SortValue = Str(s: string) | Num(n: int)

  /** `BEBAN_KERJA_WEIGHTS[m.beban_kerja] ?? 0`: an unknown or missing workload weighs 0. */
  function Weight(beban: Option<string>): (w: int)
    ensures 0 <= w <= 4
    ensures beban.Some? && beban.value in Config.BebanKerjaWeights ==> w == Config.BebanKerjaWeights[beban.value]
    ensures beban.Some? && beban.value !in Config.BebanKerjaWeights ==> w == 0
    ensures beban == Some("Critical") ==> w == 4
    ensures beban.None? ==> w == 0
  {
    match beban
    case None => 0
    case Some(b) => if b in Config.BebanKerjaWeights then Config.BebanKerjaWeights[b] else 0
  }

  /** `m[key] ?? ''`, except that `beban_kerja` sorts by its weight. */
  function SortValueOf(m: Member, key: SortKey): SortValue
  {
    match key
    case UnitNama => Str(m.unitNama)
    case Project => Str(m.project)
    case Lokasi => Str(m.lokasi)
    case KontrakBerakhir => Str(m.kontrakBerakhir.GetOr(""))
    case Utilisasi => Num(m.utilisasi)
    case BebanKerja => Num(Weight(m.bebanKerja))
  }

  /** One column holds values of one kind only. */
  lemma SortValueKind(a: Member, b: Member, key: SortKey)
    ensures SortValueOf(a, key).Num? <==> SortValueOf(b, key).Num?
    ensures SortValueOf(a, key).Num? <==> key == Utilisasi || key == BebanKerja
  {
  }

  // ---------------------------------------------------------------------------
  // `<` on column values

  /** `a < b` on two strings: lexicographic order of the characters. */
  predicate StrLess(a: string, b: string)
    decreases |a|
  {
    if a == [] then b != []
    else b != [] && (a[0] < b[0] || (a[0] == b[0] && StrLess(a[1..], b[1..])))
  }

  lemma {:induction false} StrLessIrreflexive(a: string)
    ensures !StrLess(a, a)
    decreases |a|
  {
    if a != [] {
      StrLessIrreflexive(a[1..]);
    }
  }

  lemma {:induction false} StrLessTransitive(a: string, b: string, c: string)
    requires StrLess(a, b) && StrLess(b, c)
    ensures StrLess(a, c)
    decreases |a|
  {
    if a != [] && a[0] == b[0] && b[0] == c[0] {
      StrLessTransitive(a[1..], b[1..], c[1..]);
    }
  }

  lemma {:induction false} StrLessTotal(a: string, b: string)
    requires a != b
    ensures StrLess(a, b) || StrLess(b, a)
    decreases |a|
  {
    if a != [] && b != [] && a[0] == b[0] {
      assert a[1..] != b[1..] by {
        assert a == [a[0]] + a[1..] && b == [b[0]] + b[1..];
      }
      StrLessTotal(a[1..], b[1..]);
    }
  }

  /**
   * `<` on two column values. A column never mixes numbers and texts
   * (`SortValueKind`); numbers are put first so that the order is total.
   */
  predicate ValueLess(u: SortValue, v: SortValue)
  {
    match (u, v)
    case (Num(a), Num(b)) => a < b
    case (Str(a), Str(b)) => StrLess(a, b)
    case (Num(_), Str(_)) => true
    case (Str(_), Num(_)) => false
  }

  /** `ValueLess` is a strict total order. */
  lemma ValueLessOrder(u: SortValue, v: SortValue, w: SortValue)
    ensures !ValueLess(u, u)
    ensures u != v ==> ValueLess(u, v) || ValueLess(v, u)
    ensures ValueLess(u, v) ==> !ValueLess(v, u)
    ensures ValueLess(u, v) && ValueLess(v, w) ==> ValueLess(u, w)
  {
    if u.Str? {
      StrLessIrreflexive(u.s);
    }
    if ValueLess(u, v) && ValueLess(v, u) && u.Str? && v.Str? {
      StrLessTransitive(u.s, v.s, u.s);
    }
    if u != v && u.Str? && v.Str? {
      StrLessTotal(u.s, v.s);
    }
    if ValueLess(u, v) && ValueLess(v, w) && u.Str? && v.Str? && w.Str? {
      StrLessTransitive(u.s, v.s, w.s);
    }
  }

  // ---------------------------------------------------------------------------
  // The comparator

  /** The comparator handed to `result.sort`: -1 when `a` goes first, 1 when `b` does, 0 on equal values. */
  function Compare(a: Member, b: Member, key: SortKey, dir: Direction): (r: int)
    ensures r == -1 || r == 0 || r == 1
    ensures SortValueOf(a, key) == SortValueOf(b, key) ==> r == 0
    ensures ValueLess(SortValueOf(a, key), SortValueOf(b, key)) ==> (r == -1 <==> dir == Asc) && r != 0
  {
    var va := SortValueOf(a, key);
    var vb := SortValueOf(b, key);
    ValueLessOrder(va, vb, va);
    if ValueLess(va, vb) then (if dir == Asc then -1 else 1)
    else if ValueLess(vb, va) then (if dir == Asc then 1 else -1)
    else 0
  }

  /** The comparator puts `a` strictly before `b`. */
  predicate Before(a: Member, b: Member, key: SortKey, dir: Direction)
  {
    Compare(a, b, key, dir) < 0
  }

  /**
   * The comparator is a strict weak order: `a` goes first exactly when its value
   * is smaller (ascending) or larger (descending), members tie exactly when their
   * values are equal, and ties are transitive.
   */
  lemma BeforeOrder(a: Member, b: Member, c: Member, key: SortKey, dir: Direction)
    ensures Before(a, b, key, dir) <==>
      if dir == Asc then ValueLess(SortValueOf(a, key), SortValueOf(b, key))
      else ValueLess(SortValueOf(b, key), SortValueOf(a, key))
    ensures Compare(a, b, key, dir) == 0 <==> SortValueOf(a, key) == SortValueOf(b, key)
    ensures !Before(a, a, key, dir)
    ensures Before(a, b, key, dir) ==> !Before(b, a, key, dir)
    ensures Before(a, b, key, dir) && Before(b, c, key, dir) ==> Before(a, c, key, dir)
    ensures !Before(a, b, key, dir) && !Before(b, c, key, dir) ==> !Before(a, c, key, dir)
  {
    var va := SortValueOf(a, key);
    var vb := SortValueOf(b, key);
    var vc := SortValueOf(c, key);
    ValueLessOrder(va, vb, vc);
    ValueLessOrder(vb, va, vc);
    ValueLessOrder(vc, vb, va);
    ValueLessOrder(va, vc, vb);
    ValueLessOrder(vb, vc, va);
    ValueLessOrder(vc, va, vb);
    assert Compare(a, b, key, dir) == 0 <==> !ValueLess(va, vb) && !ValueLess(vb, va);
    if dir == Asc {
      assert Before(a, b, key, dir) <==> ValueLess(va, vb);
      assert Before(b, c, key, dir) <==> ValueLess(vb, vc);
      assert Before(a, c, key, dir) <==> ValueLess(va, vc);
    } else {
      assert Before(a, b, key, dir) <==> ValueLess(vb, va);
      assert Before(b, c, key, dir) <==> ValueLess(vc, vb);
      assert Before(a, c, key, dir) <==> ValueLess(vc, va);
    }
  }

  /** The comparator as a "goes strictly first" relation. */
  function BeforeOn(key: SortKey, dir: Direction): (Member, Member) -> bool
  {
    (a, b) => Before(a, b, key, dir)
  }

  lemma BeforeOnIsStrictWeakOrder(key: SortKey, dir: Direction)
    ensures StrictWeakOrder(BeforeOn(key, dir))
  {
    var before := BeforeOn(key, dir);
    forall a, b, c {
      BeforeOrder(a, b, c, key, dir);
    }
  }

  /** The column value of a member. */
  function ValueOn(key: SortKey): Member -> SortValue
  {
    m => SortValueOf(m, key)
  }

  /** Members that tie under the comparator have equal column values, and the comparator never separates equal values. */
  lemma BeforeOnSeparates(key: SortKey, dir: Direction)
    ensures Separates(BeforeOn(key, dir), ValueOn(key))
  {
    forall a, b | BeforeOn(key, dir)(a, b) ensures ValueOn(key)(a) != ValueOn(key)(b) {
      BeforeOrder(a, b, a, key, dir);
    }
  }

  // ---------------------------------------------------------------------------
  // The stable sort, as a function, for any strict weak order

  /** Irreflexive and transitive, with transitive incomparability: what a sort comparator must be. */
  ghost predicate StrictWeakOrder<T(!new)>(before: (T, T) -> bool)
  {
    && (forall a :: !before(a, a))
    && (forall a, b, c :: before(a, b) && before(b, c) ==> before(a, c))
    && (forall a, b, c :: !before(a, b) && !before(b, c) ==> !before(a, c))
  }

  /** `before` only ever separates elements with different `f` values. */
  ghost predicate Separates<T(!new), K>(before: (T, T) -> bool, f: T -> K)
  {
    forall a, b :: before(a, b) ==> f(a) != f(b)
  }

  /** Inserts `x` after every element of `s` that it does not go strictly before: the step of a stable insertion sort. */
  function InsertRight<T>(s: seq<T>, x: T, before: (T, T) -> bool): (r: seq<T>)
    ensures |r| == |s| + 1
    decreases |s|
  {
    if s == [] || !before(x, s[|s| - 1]) then s + [x]
    else InsertRight(s[..|s| - 1], x, before) + [s[|s| - 1]]
  }

  /** `Array.prototype.sort` with a comparator: the stable sort of `s`. */
  function SortSpec<T>(s: seq<T>, before: (T, T) -> bool): (r: seq<T>)
    ensures |r| == |s|
    decreases |s|
  {
    if s == [] then [] else InsertRight(SortSpec(s[..|s| - 1], before), s[|s| - 1], before)
  }

  /** No element goes strictly before one to its left. */
  ghost predicate Sorted<T>(s: seq<T>, before: (T, T) -> bool)
  {
    forall i, j :: 0 <= i < j < |s| ==> !before(s[j], s[i])
  }

  /** `InsertRight` puts `x` at the position after the last element it does not go before. */
  lemma {:induction false} InsertRightAt<T>(s: seq<T>, x: T, j: nat, before: (T, T) -> bool)
    requires j <= |s|
    requires j == 0 || !before(x, s[j - 1])
    requires forall k :: j <= k < |s| ==> before(x, s[k])
    ensures InsertRight(s, x, before) == s[..j] + [x] + s[j..]
    decreases |s|
  {
    if j < |s| {
      var n := |s| - 1;
      InsertRightAt(s[..n], x, j, before);
      assert s[..n][..j] == s[..j];
      assert s[..n][j..] + [s[n]] == s[j..];
    } else {
      assert s[..j] == s;
    }
  }

  /** Where `InsertRight` puts `x`. */
  lemma {:induction false} InsertRightShape<T>(s: seq<T>, x: T, before: (T, T) -> bool) returns (j: nat)
    ensures j <= |s|
    ensures j == 0 || !before(x, s[j - 1])
    ensures forall k :: j <= k < |s| ==> before(x, s[k])
    ensures InsertRight(s, x, before) == s[..j] + [x] + s[j..]
    decreases |s|
  {
    if s == [] || !before(x, s[|s| - 1]) {
      j := |s|;
      assert s[..j] == s;
    } else {
      var n := |s| - 1;
      j := InsertRightShape(s[..n], x, before);
      assert s[..n][..j] == s[..j];
      assert s[..n][j..] + [s[n]] == s[j..];
      assert forall k :: j <= k < n ==> s[k] == s[..n][k];
    }
  }

  /** Inserting adds exactly `x`. */
  lemma {:induction false} InsertRightPermutation<T>(s: seq<T>, x: T, before: (T, T) -> bool)
    ensures multiset(InsertRight(s, x, before)) == multiset(s) + multiset{x}
    decreases |s|
  {
    if s != [] && before(x, s[|s| - 1]) {
      var n := |s| - 1;
      InsertRightPermutation(s[..n], x, before);
      assert s == s[..n] + [s[n]];
    }
  }

  /** The sort only reorders: it is a permutation of its input. */
  lemma {:induction false} SortSpecPermutation<T>(s: seq<T>, before: (T, T) -> bool)
    ensures multiset(SortSpec(s, before)) == multiset(s)
    decreases |s|
  {
    if s != [] {
      var n := |s| - 1;
      SortSpecPermutation(s[..n], before);
      InsertRightPermutation(SortSpec(s[..n], before), s[n], before);
      assert s == s[..n] + [s[n]];
    }
  }

  /** Inserting into a sorted sequence keeps it sorted. */
  lemma InsertRightSorted<T(!new)>(s: seq<T>, x: T, before: (T, T) -> bool)
    requires StrictWeakOrder(before)
    requires Sorted(s, before)
    ensures Sorted(InsertRight(s, x, before), before)
  {
    var j := InsertRightShape(s, x, before);
    var r := InsertRight(s, x, before);
    forall p, q | 0 <= p < q < |r| ensures !before(r[q], r[p]) {
      if p < j && q == j {
        assert !before(x, s[j - 1]) && !before(s[j - 1], s[p]);
      } else if p == j && q > j {
        assert before(x, s[q - 1]);
      } else if p < j && q > j {
        assert r[p] == s[p] && r[q] == s[q - 1];
      } else if p > j {
        assert r[p] == s[p - 1] && r[q] == s[q - 1];
      }
    }
  }

  /** The sorted result has no element going strictly before one to its left. */
  lemma {:induction false} SortSpecSorted<T(!new)>(s: seq<T>, before: (T, T) -> bool)
    requires StrictWeakOrder(before)
    ensures Sorted(SortSpec(s, before), before)
    decreases |s|
  {
    if s != [] {
      var n := |s| - 1;
      SortSpecSorted(s[..n], before);
      InsertRightSorted(SortSpec(s[..n], before), s[n], before);
    }
  }

  /** The elements whose `f` value is `v`. */
  function HasValue<T, K(==)>(f: T -> K, v: K): T -> bool
  {
    x => f(x) == v
  }

  /** Inserting keeps every group of equal `f` values in the order `s + [x]` has it. */
  lemma {:induction false} InsertRightStable<T(!new), K>(s: seq<T>, x: T, before: (T, T) -> bool, f: T -> K, v: K)
    requires Separates(before, f)
    ensures Filter(HasValue(f, v), InsertRight(s, x, before)) == Filter(HasValue(f, v), s + [x])
    decreases |s|
  {
    var p := HasValue(f, v);
    if s != [] && before(x, s[|s| - 1]) {
      var n := |s| - 1;
      var init, last := s[..n], s[n];
      InsertRightStable(init, x, before, f, v);
      FilterAppend(p, InsertRight(init, x, before), [last]);
      FilterAppend(p, init, [x]);
      FilterAppend(p, init + [last], [x]);
      FilterAppend(p, init, [last]);
      FilterSingle(p, x);
      FilterSingle(p, last);
      assert s == init + [last];
    }
  }

  /**
   * The sort is stable: elements with equal `f` values keep the order they had,
   * for any `f` the comparator only separates by (a descending comparator does
   * not reverse ties).
   */
  lemma {:induction false} SortSpecStable<T(!new), K>(s: seq<T>, before: (T, T) -> bool, f: T -> K, v: K)
    requires Separates(before, f)
    ensures Filter(HasValue(f, v), SortSpec(s, before)) == Filter(HasValue(f, v), s)
    decreases |s|
  {
    if s != [] {
      var n := |s| - 1;
      var p := HasValue(f, v);
      SortSpecStable(s[..n], before, f, v);
      InsertRightStable(SortSpec(s[..n], before), s[n], before, f, v);
      FilterAppend(p, SortSpec(s[..n], before), [s[n]]);
      FilterAppend(p, s[..n], [s[n]]);
      assert s == s[..n] + [s[n]];
    }
  }

  // ---------------------------------------------------------------------------
  // `result.sort(...)` in place

  /** Sorts the array in place by insertion: each element moves left past the ones it goes strictly before. */
  method SortInPlace<T>(a: array<T>, before: (T, T) -> bool)
    modifies a
    ensures a[..] == SortSpec(old(a[..]), before)
  {
    ghost var input := a[..];
    var i := 0;
    while i < a.Length
      invariant 0 <= i <= a.Length
      invariant a[..i] == SortSpec(input[..i], before)
      invariant a[i..] == input[i..]
    {
      SortSpecStep(input, i, before);
      ghost var tail := a[i + 1..];
      assert tail == input[i + 1..];
      ShiftIn(a, i, before);
      i := i + 1;
    }
    assert input[..a.Length] == input;
  }

  /** Sorting one more element of `s` inserts it into the sorted shorter prefix. */
  lemma SortSpecStep<T>(s: seq<T>, i: nat, before: (T, T) -> bool)
    requires i < |s|
    ensures SortSpec(s[..i + 1], before) == InsertRight(SortSpec(s[..i], before), s[i], before)
  {
    assert s[..i + 1][..i] == s[..i];
  }

  /** Moves `a[i]` left past the elements of `a[..i]` it goes strictly before, shifting them right by one. */
  method ShiftIn<T>(a: array<T>, i: nat, before: (T, T) -> bool)
    requires i < a.Length
    modifies a
    ensures a[..i + 1] == InsertRight(old(a[..i]), old(a[i]), before)
    ensures a[i + 1..] == old(a[i + 1..])
  {
    var x := a[i];
    ghost var pre := a[..i];
    ghost var rest := a[i + 1..];
    var j := i;
    while j > 0 && before(x, a[j - 1])
      invariant 0 <= j <= i
      invariant forall k :: 0 <= k < j ==> a[k] == pre[k]
      invariant forall k :: j < k <= i ==> a[k] == pre[k - 1]
      invariant a[i + 1..] == rest
      invariant forall k :: j <= k < i ==> before(x, pre[k])
    {
      assert a[j - 1] == pre[j - 1];
      a[j] := a[j - 1];
      j := j - 1;
    }
    a[j] := x;
    InsertRightAt(pre, x, j, before);
    ShiftedIsInsert(a[..i + 1], pre, x, j);
  }

  /** A sequence that agrees with `pre` before `j`, holds `x` at `j` and `pre` shifted by one after it is `pre` with `x` put in at `j`. */
  lemma ShiftedIsInsert<T>(b: seq<T>, pre: seq<T>, x: T, j: nat)
    requires j <= |pre| && |b| == |pre| + 1
    requires forall k :: 0 <= k < j ==> b[k] == pre[k]
    requires b[j] == x
    requires forall k :: j < k < |b| ==> b[k] == pre[k - 1]
    ensures b == pre[..j] + [x] + pre[j..]
  {
    var c := pre[..j] + [x] + pre[j..];
    forall k | 0 <= k < |b| ensures b[k] == c[k] {
      if k > j {
        assert c[k] == pre[j..][k - j - 1];
      }
    }
  }
}
