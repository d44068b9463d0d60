/** Sequence operations shared by the components and scripts: filtering,
    counting, duplicate-free lists, string order and sorting. */
module Seqs {

  // ---------------------------------------------------------------- filter and count

  /** The elements of `s` that satisfy `keep`, in their original order
      (`Array.prototype.filter`, a list comprehension with `if`). */
  function Filter<T(!new)>(s: seq<T>, keep: T -> bool): (r: seq<T>)
    ensures |r| <= |s|
    ensures forall x :: x in r <==> x in s && keep(x)
    ensures multiset(r) <= multiset(s)
  {
    if s == [] then []
    else
      assert s == [s[0]] + s[1..];
      (if keep(s[0]) then [s[0]] else []) + Filter(s[1..], keep)
  }

  lemma {:induction false} FilterAppend<T(!new)>(a: seq<T>, b: seq<T>, keep: T -> bool)
    ensures Filter(a + b, keep) == Filter(a, keep) + Filter(b, keep)
  {
    if a != [] {
      assert a + b == [a[0]] + (a[1..] + b);
      FilterAppend(a[1..], b, keep);
      assert Filter(a + b, keep) == (if keep(a[0]) then [a[0]] else []) + Filter(a[1..] + b, keep);
    } else {
      assert a + b == b;
    }
  }

  /** What a prefix keeps is a prefix of what the whole keeps: the kept
      elements stay in their original order, each as often as it occurs. */
  lemma FilterPrefixes<T(!new)>(s: seq<T>, keep: T -> bool)
    ensures forall b :: 0 <= b <= |s| ==> Filter(s[..b], keep) <= Filter(s, keep)
  {
    forall b | 0 <= b <= |s| ensures Filter(s[..b], keep) <= Filter(s, keep) {
      assert s == s[..b] + s[b..];
      FilterAppend(s[..b], s[b..], keep);
    }
  }

  /** Filters that agree on every element give the same result. */
  lemma {:induction false} FilterSamePredicate<T(!new)>(s: seq<T>, p: T -> bool, q: T -> bool)
    requires forall x :: p(x) == q(x)
    ensures Filter(s, p) == Filter(s, q)
  {
    if s != [] {
      FilterSamePredicate(s[1..], p, q);
    }
  }

  /** Keeping every element changes nothing. */
  lemma {:induction false} FilterKeepsAll<T(!new)>(s: seq<T>, keep: T -> bool)
    requires forall x :: x in s ==> keep(x)
    ensures Filter(s, keep) == s
  {
    if s != [] {
      FilterKeepsAll(s[1..], keep);
    }
  }

  /** The number of elements that satisfy `keep` (`filter(...).length`). */
  function Count<T(!new)>(s: seq<T>, keep: T -> bool): (n: nat)
    ensures n <= |s|
    ensures n == 0 <==> forall x :: x in s ==> !keep(x)
  {
    var r := Filter(s, keep);
    assert r != [] ==> r[0] in r;
    |r|
  }

  lemma CountCons<T(!new)>(s: seq<T>, keep: T -> bool)
    requires s != []
    ensures Count(s, keep) == (if keep(s[0]) then 1 else 0) + Count(s[1..], keep)
  {}

  /** Counting over a sequence split in two adds up. */
  lemma CountAppend<T(!new)>(a: seq<T>, b: seq<T>, keep: T -> bool)
    ensures Count(a + b, keep) == Count(a, keep) + Count(b, keep)
  {
    FilterAppend(a, b, keep);
  }

  /** Counting among the kept elements is counting the elements that pass
      both tests. */
  lemma {:induction false} CountOfFilter<T(!new)>(s: seq<T>, p: T -> bool, q: T -> bool, both: T -> bool)
    requires forall x :: both(x) == (p(x) && q(x))
    ensures Count(Filter(s, p), q) == Count(s, both)
  {
    if s != [] {
      CountOfFilter(s[1..], p, q, both);
      CountCons(s, both);
      var f := Filter(s, p);
      if p(s[0]) {
        assert f == [s[0]] + Filter(s[1..], p);
        CountCons(f, q);
        assert f[1..] == Filter(s[1..], p);
      } else {
        assert f == Filter(s[1..], p);
      }
    }
  }

  /** Counting over one more element. */
  lemma CountSnoc<T(!new)>(s: seq<T>, x: T, keep: T -> bool)
    ensures Count(s + [x], keep) == Count(s, keep) + if keep(x) then 1 else 0
  {
    CountAppend(s, [x], keep);
    CountCons([x], keep);
    assert [x][1..] == [];
  }

  /** Counts of three predicates no two of which hold together add up to at
      most the length. */
  lemma {:induction false} DisjointCounts<T(!new)>(s: seq<T>, p: T -> bool, q: T -> bool, r: T -> bool)
    requires forall x :: !(p(x) && q(x)) && !(p(x) && r(x)) && !(q(x) && r(x))
    ensures Count(s, p) + Count(s, q) + Count(s, r) <= |s|
    ensures Count(s, p) + Count(s, q) + Count(s, r) == |s| <==> forall x :: x in s ==> p(x) || q(x) || r(x)
  {
    if s != [] {
      DisjointCounts(s[1..], p, q, r);
      CountCons(s, p);
      CountCons(s, q);
      CountCons(s, r);
      assert forall x :: x in s <==> x == s[0] || x in s[1..];
    }
  }

  lemma CountSamePredicate<T(!new)>(s: seq<T>, p: T -> bool, q: T -> bool)
    requires forall x :: p(x) == q(x)
    ensures Count(s, p) == Count(s, q)
  {
    FilterSamePredicate(s, p, q);
  }

  /** Every element is counted exactly when every element satisfies `keep`. */
  lemma {:induction false} CountAll<T(!new)>(s: seq<T>, keep: T -> bool)
    ensures Count(s, keep) == |s| <==> forall x :: x in s ==> keep(x)
  {
    if s != [] {
      CountAll(s[1..], keep);
      CountCons(s, keep);
      assert forall x :: x in s <==> x == s[0] || x in s[1..];
    }
  }

  /** Counting by a predicate that holds exactly when one of two exclusive
      predicates does adds up their counts. */
  lemma {:induction false} CountOr<T(!new)>(s: seq<T>, p: T -> bool, q: T -> bool, r: T -> bool)
    requires forall x :: r(x) == (p(x) || q(x)) && !(p(x) && q(x))
    ensures Count(s, r) == Count(s, p) + Count(s, q)
  {
    if s != [] {
      CountOr(s[1..], p, q, r);
      CountCons(s, p);
      CountCons(s, q);
      CountCons(s, r);
    }
  }

  // ---------------------------------------------------------------- duplicate-free lists

  predicate NoDups<T(==)>(s: seq<T>) {
    forall i, j :: 0 <= i < j < |s| ==> s[i] != s[j]
  }

  /** One more element of a prefix. */
  lemma TakeSnoc<T>(s: seq<T>, i: nat)
    requires i < |s|
    ensures s[..i + 1] == s[..i] + [s[i]]
  {}

  /** Appending an element that is not yet present keeps a list duplicate-free. */
  lemma AppendFresh<T>(s: seq<T>, x: T)
    requires NoDups(s) && x !in s
    ensures NoDups(s + [x])
  {}

  /** The distinct elements of `s` in order of first appearance: what
      JavaScript's `Array.from(new Set(s))` yields. */
  function Distinct<T(==,!new)>(s: seq<T>): (r: seq<T>)
    ensures NoDups(r)
    ensures forall x :: x in r <==> x in s
    decreases |s|
  {
    if s == [] then []
    else
      var d := Distinct(s[..|s| - 1]);
      assert s == s[..|s| - 1] + [s[|s| - 1]];
      if s[|s| - 1] in d then d else d + [s[|s| - 1]]
  }

  // ---------------------------------------------------------------- string order

  /** Lexicographic order on character codes: JavaScript's default `sort()`
      and Python's `<` on `str` for the characters this model covers. */
  predicate StrLe(a: string, b: string) {
    a == [] || (b != [] && (a[0] < b[0] || (a[0] == b[0] && StrLe(a[1..], b[1..]))))
  }

  lemma {:induction false} StrLeTotal(a: string, b: string)
    ensures StrLe(a, b) || StrLe(b, a)
  {
    if a != [] && b != [] && a[0] == b[0] {
      StrLeTotal(a[1..], b[1..]);
    }
  }

  lemma {:induction false} StrLeTrans(a: string, b: string, c: string)
    requires StrLe(a, b) && StrLe(b, c)
    ensures StrLe(a, c)
  {
    if a != [] && b != [] && c != [] && a[0] == b[0] == c[0] {
      StrLeTrans(a[1..], b[1..], c[1..]);
    }
  }

  lemma {:induction false} StrLeAntisym(a: string, b: string)
    requires StrLe(a, b) && StrLe(b, a)
    ensures a == b
  {
    if a != [] && b != [] {
      StrLeAntisym(a[1..], b[1..]);
      assert a == [a[0]] + a[1..] && b == [b[0]] + b[1..];
    }
  }

  /** Python's order on pairs of strings: by the first, then the second. */
  predicate PairLe(a: (string, string), b: (string, string)) {
    StrLe(a.0, b.0) && (a.0 == b.0 ==> StrLe(a.1, b.1))
  }

  lemma PairLeAntisym(a: (string, string), b: (string, string))
    requires PairLe(a, b) && PairLe(b, a)
    ensures a == b
  {
    StrLeAntisym(a.0, b.0);
    StrLeAntisym(a.1, b.1);
  }

  // ---------------------------------------------------------------- sorting

  ghost predicate TotalPreorder<T(!new)>(le: (T, T) -> bool) {
    && (forall a, b :: le(a, b) || le(b, a))
    && (forall a, b, c :: le(a, b) && le(b, c) ==> le(a, c))
  }

  predicate Sorted<T>(s: seq<T>, le: (T, T) -> bool) {
    forall i, j :: 0 <= i < j < |s| ==> le(s[i], s[j])
  }

  /** Sorted and free of duplicates: ascending without ties. */
  predicate StrictlySorted(s: seq<string>) {
    forall i, j :: 0 <= i < j < |s| ==> StrLe(s[i], s[j]) && s[i] != s[j]
  }

  lemma StrLeIsTotalPreorder()
    ensures TotalPreorder(StrLe)
  {
    forall a, b ensures StrLe(a, b) || StrLe(b, a) {
      StrLeTotal(a, b);
    }
    forall a, b, c | StrLe(a, b) && StrLe(b, c) ensures StrLe(a, c) {
      StrLeTrans(a, b, c);
    }
  }

  lemma PairLeIsTotalPreorder()
    ensures TotalPreorder(PairLe)
  {
    forall a: (string, string), b: (string, string) ensures PairLe(a, b) || PairLe(b, a) {
      StrLeTotal(a.0, b.0);
      StrLeTotal(a.1, b.1);
    }
    forall a: (string, string), b: (string, string), c: (string, string) | PairLe(a, b) && PairLe(b, c)
      ensures PairLe(a, c)
    {
      StrLeTrans(a.0, b.0, c.0);
      if a.0 == c.0 {
        StrLeAntisym(a.0, b.0);
        StrLeTrans(a.1, b.1, c.1);
      }
    }
  }

  function Insert<T>(x: T, s: seq<T>, le: (T, T) -> bool): (r: seq<T>)
    ensures multiset(r) == multiset(s) + multiset{x}
    ensures |r| == |s| + 1
  {
    if s == [] || le(x, s[0]) then [x] + s
    else
      assert s == [s[0]] + s[1..];
      [s[0]] + Insert(x, s[1..], le)
  }

  lemma {:induction false} InsertSorted<T(!new)>(x: T, s: seq<T>, le: (T, T) -> bool)
    requires TotalPreorder(le) && Sorted(s, le)
    ensures Sorted(Insert(x, s, le), le)
  {
    if s != [] && !le(x, s[0]) {
      InsertSorted(x, s[1..], le);
      var t := Insert(x, s[1..], le);
      assert le(s[0], x);
      forall y | y in t ensures le(s[0], y) {
        assert y in multiset(t);
        if y != x {
          assert y in multiset(s[1..]);
          var k :| 0 <= k < |s[1..]| && s[1..][k] == y;
          assert y == s[k + 1];
        }
      }
      var r := [s[0]] + t;
      forall i, j | 0 <= i < j < |r| ensures le(r[i], r[j]) {
        if i == 0 {
          assert r[j] == t[j - 1];
          assert r[j] in t;
        } else {
          assert r[i] == t[i - 1] && r[j] == t[j - 1];
        }
      }
    }
  }

  /** Insertion sort by `le`. */
  function Sort<T>(s: seq<T>, le: (T, T) -> bool): (r: seq<T>)
    ensures multiset(r) == multiset(s)
    ensures |r| == |s|
  {
    if s == [] then []
    else
      assert s == [s[0]] + s[1..];
      Insert(s[0], Sort(s[1..], le), le)
  }

  lemma {:induction false} SortSorted<T(!new)>(s: seq<T>, le: (T, T) -> bool)
    requires TotalPreorder(le)
    ensures Sorted(Sort(s, le), le)
  {
    if s != [] {
      SortSorted(s[1..], le);
      InsertSorted(s[0], Sort(s[1..], le), le);
    }
  }

  /** The sorted copy of a list of strings: same elements, ascending. */
  function SortStrings(s: seq<string>): (r: seq<string>)
    ensures multiset(r) == multiset(s)
    ensures Sorted(r, StrLe)
  {
    StrLeIsTotalPreorder();
    SortSorted(s, StrLe);
    Sort(s, StrLe)
  }

  /** Sorting a duplicate-free list of strings leaves it strictly ascending,
      with exactly the same members. */
  lemma SortStringsStrict(s: seq<string>)
    requires NoDups(s)
    ensures StrictlySorted(SortStrings(s))
    ensures forall x :: x in SortStrings(s) <==> x in s
  {
    var r := SortStrings(s);
    assert forall x :: x in r <==> x in multiset(r);
    forall i, j | 0 <= i < j < |r| ensures StrLe(r[i], r[j]) && r[i] != r[j] {
      EqualPairCountsTwice(r, i, j);
      MultiplicityOfNoDups(s, r[i]);
    }
  }

  /** Sorting a duplicate-free list keeps it duplicate-free, with the same
      members. */
  lemma SortPairsDistinct(d: seq<(string, string)>)
    requires NoDups(d)
    ensures NoDups(Sort(d, PairLe))
    ensures forall k :: k in Sort(d, PairLe) <==> k in d
  {
    var r := Sort(d, PairLe);
    assert forall k :: k in r <==> k in multiset(r);
    assert forall k :: k in d <==> k in multiset(d);
    forall i, j | 0 <= i < j < |r| ensures r[i] != r[j] {
      EqualPairCountsTwice(r, i, j);
      MultiplicityOfNoDups(d, r[i]);
    }
  }

  lemma {:induction false} FilterNoDups<T(!new)>(s: seq<T>, keep: T -> bool)
    requires NoDups(s)
    ensures NoDups(Filter(s, keep))
  {
    if s != [] {
      FilterNoDups(s[1..], keep);
      assert s[0] !in s[1..];
    }
  }

  /** Two equal elements at different positions make a multiplicity of two. */
  lemma EqualPairCountsTwice<T>(r: seq<T>, i: nat, j: nat)
    requires i < j < |r|
    ensures r[i] == r[j] ==> multiset(r)[r[i]] >= 2
  {
    assert r == r[..j] + r[j..];
    assert r[..j][i] == r[i];
    assert r[j..][0] == r[j];
    assert multiset(r) == multiset(r[..j]) + multiset(r[j..]);
  }

  lemma {:induction false} MultiplicityOfNoDups<T>(s: seq<T>, x: T)
    requires NoDups(s)
    ensures multiset(s)[x] <= 1
  {
    if s != [] {
      assert s == [s[0]] + s[1..];
      MultiplicityOfNoDups(s[1..], x);
      if x == s[0] {
        assert x !in s[1..];
      }
    }
  }
}
