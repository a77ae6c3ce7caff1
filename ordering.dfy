/** Python 2's ordering of the values records hold, and the stable `sorted(..., key=...)`
    that extract_all applies to the records. */
module Ordering {
  import opened Types

  /** Python 2 orders values of different types by type: None first, then numbers
      (bool counts as 0 or 1), then the other types by type name: datetime, jsontree,
      list, str. */
  function Rank(v: Value): nat {
    match v
    case Null => 0
    case Int(_) => 1
    case Bool(_) => 1
    case Date(_) => 2
    case Rec(_) => 3
    case List(_) => 4
    case Str(_) => 5
  }

  function Number(v: Value): int
    requires v.Int? || v.Bool?
  {
    if v.Int? then v.i else if v.b then 1 else 0
  }

  function CompareInt(a: int, b: int): (r: int)
    ensures r == -1 || r == 0 || r == 1
    ensures r == 0 <==> a == b
    ensures r < 0 <==> a < b
  {
    if a < b then -1 else if a == b then 0 else 1
  }

  /** Byte strings compare character by character; a proper prefix is smaller. */
  function CompareStr(a: string, b: string): (r: int)
    ensures r == -1 || r == 0 || r == 1
    ensures r == 0 <==> a == b
  {
    if a == [] && b == [] then 0
    else if a == [] then -1
    else if b == [] then 1
    else if a[0] != b[0] then CompareInt(a[0] as int, b[0] as int)
    else
      var r := CompareStr(a[1..], b[1..]);
      assert r == 0 <==> a[1..] == b[1..];
      assert a == [a[0]] + a[1..] && b == [b[0]] + b[1..];
      r
  }

  /** The fields of a datetime, most significant first. */
  function DateFields(d: DateTime): (r: seq<int>)
    ensures |r| == 7
  {
    [d.year, d.month, d.day, d.hour, d.minute, d.second, d.microsecond]
  }

  /** datetimes compare field by field, most significant first. */
  function CompareDate(a: DateTime, b: DateTime): (r: int)
    ensures r == -1 || r == 0 || r == 1
    ensures r == 0 <==> a == b
  {
    var fa := DateFields(a);
    var fb := DateFields(b);
    var r := CompareInts(fa, fb);
    assert fa == fb ==> a == b by {
      if fa == fb {
        assert fa[0] == fb[0] && fa[1] == fb[1] && fa[2] == fb[2] && fa[3] == fb[3];
        assert fa[4] == fb[4] && fa[5] == fb[5] && fa[6] == fb[6];
      }
    }
    r
  }

  function CompareInts(a: seq<int>, b: seq<int>): (r: int)
    requires |a| == |b|
    ensures r == -1 || r == 0 || r == 1
    ensures r == 0 <==> a == b
  {
    if a == [] then 0
    else if a[0] != b[0] then CompareInt(a[0], b[0])
    else
      var r := CompareInts(a[1..], b[1..]);
      assert a == [a[0]] + a[1..] && b == [b[0]] + b[1..];
      r
  }

  /** Python 2's cmp on converted values; two records compare equal (see README). */
  function Compare(a: Value, b: Value): (r: int)
    ensures r == -1 || r == 0 || r == 1
    decreases a, 1
  {
    if Rank(a) != Rank(b) then CompareInt(Rank(a), Rank(b))
    else match a
      case Null => 0
      case Int(_) => CompareInt(Number(a), Number(b))
      case Bool(_) => CompareInt(Number(a), Number(b))
      case Date(d) => CompareDate(d, b.dt)
      case Rec(_) => 0
      case List(xs) => CompareSeq(xs, b.items)
      case Str(s) => CompareStr(s, b.s)
  }

  /** Lists compare element by element; a proper prefix is smaller. */
  function CompareSeq(xs: seq<Value>, ys: seq<Value>): (r: int)
    ensures r == -1 || r == 0 || r == 1
    decreases xs, 0
  {
    if xs == [] && ys == [] then 0
    else if xs == [] then -1
    else if ys == [] then 1
    else
      var c := Compare(xs[0], ys[0]);
      if c != 0 then c else CompareSeq(xs[1..], ys[1..])
  }

  lemma {:induction false} CompareStrFlip(a: string, b: string)
    ensures CompareStr(a, b) == -CompareStr(b, a)
  {
    if a != [] && b != [] && a[0] == b[0] {
      CompareStrFlip(a[1..], b[1..]);
    }
  }

  lemma {:induction false} CompareIntsFlip(a: seq<int>, b: seq<int>)
    requires |a| == |b|
    ensures CompareInts(a, b) == -CompareInts(b, a)
  {
    if a != [] && a[0] == b[0] {
      CompareIntsFlip(a[1..], b[1..]);
    }
  }

  /** cmp is antisymmetric: swapping the operands flips the sign. */
  lemma {:induction false} CompareFlip(a: Value, b: Value)
    ensures Compare(a, b) == -Compare(b, a)
    decreases a, 1
  {
    if Rank(a) == Rank(b) {
      match a
      case Date(d) => CompareIntsFlip(DateFields(d), DateFields(b.dt));
      case List(xs) => CompareSeqFlip(xs, b.items);
      case Str(s) => CompareStrFlip(s, b.s);
      case _ =>
    }
  }

  lemma {:induction false} CompareSeqFlip(xs: seq<Value>, ys: seq<Value>)
    ensures CompareSeq(xs, ys) == -CompareSeq(ys, xs)
    decreases xs, 0
  {
    if xs != [] && ys != [] {
      CompareFlip(xs[0], ys[0]);
      CompareSeqFlip(xs[1..], ys[1..]);
    }
  }

  // ---------------------------------------------------------------- what the order is

  /** The length of the longest common prefix of a and b. */
  function CommonPrefix<T(==)>(a: seq<T>, b: seq<T>): (k: nat)
    ensures k <= |a| && k <= |b| && a[..k] == b[..k]
    ensures k < |a| && k < |b| ==> a[k] != b[k]
  {
    if a == [] || b == [] || a[0] != b[0] then 0
    else
      var k := CommonPrefix(a[1..], b[1..]);
      assert a[..k + 1] == [a[0]] + a[1..][..k] && b[..k + 1] == [b[0]] + b[1..][..k];
      k + 1
  }

  /** Strings compare lexicographically: by the first character where they differ, and
      when one is a prefix of the other, by length. */
  lemma {:induction false} CompareStrLexicographic(a: string, b: string)
    ensures var k := CommonPrefix(a, b);
            CompareStr(a, b) == if k < |a| && k < |b| then CompareInt(a[k] as int, b[k] as int) else CompareInt(|a|, |b|)
  {
    if a != [] && b != [] && a[0] == b[0] {
      CompareStrLexicographic(a[1..], b[1..]);
    }
  }

  /** Integer sequences of one length compare by their first differing entry. */
  lemma {:induction false} CompareIntsLexicographic(a: seq<int>, b: seq<int>)
    requires |a| == |b|
    ensures var k := CommonPrefix(a, b);
            CompareInts(a, b) == if k < |a| then CompareInt(a[k], b[k]) else 0
  {
    if a != [] && a[0] == b[0] {
      CompareIntsLexicographic(a[1..], b[1..]);
    }
  }

  /** datetimes compare chronologically: by the most significant field where they differ. */
  lemma CompareDateChronological(a: DateTime, b: DateTime)
    ensures var fa, fb := DateFields(a), DateFields(b);
            var k := CommonPrefix(fa, fb);
            && (k < 7 ==> CompareDate(a, b) == CompareInt(fa[k], fb[k]))
            && (k == 7 ==> a == b)
  {
    CompareIntsLexicographic(DateFields(a), DateFields(b));
  }

  /** Values of different rank order by rank; values of one type by their own order:
      numbers by value, the others by CompareDate, CompareSeq and CompareStr. */
  lemma CompareByType(a: Value, b: Value)
    ensures Rank(a) < Rank(b) ==> Compare(a, b) == -1
    ensures (a.Int? || a.Bool?) && (b.Int? || b.Bool?) ==> Compare(a, b) == CompareInt(Number(a), Number(b))
    ensures a.Int? && b.Int? ==> (Compare(a, b) < 0 <==> a.i < b.i)
    ensures a.Date? && b.Date? ==> Compare(a, b) == CompareDate(a.dt, b.dt)
    ensures a.List? && b.List? ==> Compare(a, b) == CompareSeq(a.items, b.items)
    ensures a.Str? && b.Str? ==> Compare(a, b) == CompareStr(a.s, b.s)
  {
  }

  /** The length of the longest prefix on which the entries of xs and ys compare equal. */
  function EqualPrefix(xs: seq<Value>, ys: seq<Value>): (k: nat)
    ensures k <= |xs| && k <= |ys|
    ensures forall i :: 0 <= i < k ==> Compare(xs[i], ys[i]) == 0
    ensures k < |xs| && k < |ys| ==> Compare(xs[k], ys[k]) != 0
  {
    if xs == [] || ys == [] || Compare(xs[0], ys[0]) != 0 then 0
    else
      var k := EqualPrefix(xs[1..], ys[1..]);
      assert forall i :: 1 <= i < k + 1 ==> xs[1..][i - 1] == xs[i] && ys[1..][i - 1] == ys[i];
      k + 1
  }

  /** Lists compare lexicographically: by the first entries that do not compare equal,
      and when there are none, by length. */
  lemma {:induction false} CompareSeqLexicographic(xs: seq<Value>, ys: seq<Value>)
    ensures var k := EqualPrefix(xs, ys);
            CompareSeq(xs, ys) == if k < |xs| && k < |ys| then Compare(xs[k], ys[k]) else CompareInt(|xs|, |ys|)
  {
    if xs != [] && ys != [] && Compare(xs[0], ys[0]) == 0 {
      CompareSeqLexicographic(xs[1..], ys[1..]);
    }
  }

  // ---------------------------------------------------------------- transitivity

  lemma {:induction false} CompareStrTrans(a: string, b: string, c: string)
    ensures CompareStr(a, b) <= 0 && CompareStr(b, c) <= 0 ==> CompareStr(a, c) <= 0
  {
    if a != [] && b != [] && c != [] && a[0] == b[0] == c[0] {
      CompareStrTrans(a[1..], b[1..], c[1..]);
    }
  }

  lemma {:induction false} CompareIntsTrans(a: seq<int>, b: seq<int>, c: seq<int>)
    requires |a| == |b| == |c|
    ensures CompareInts(a, b) <= 0 && CompareInts(b, c) <= 0 ==> CompareInts(a, c) <= 0
  {
    if a != [] && a[0] == b[0] == c[0] {
      CompareIntsTrans(a[1..], b[1..], c[1..]);
    }
  }

  /** From `<= 0` transitivity and antisymmetry, for an order whose ties are equalities:
      the six ways of chaining two comparisons. */
  predicate Chains(ab: int, bc: int, ac: int) {
    && (ab <= 0 && bc <= 0 ==> ac <= 0)
    && (ab >= 0 && bc >= 0 ==> ac >= 0)
    && (ab < 0 && bc <= 0 ==> ac < 0)
    && (ab <= 0 && bc < 0 ==> ac < 0)
    && (ab > 0 && bc >= 0 ==> ac > 0)
    && (ab >= 0 && bc > 0 ==> ac > 0)
  }

  lemma CompareStrChains(a: string, b: string, c: string)
    ensures Chains(CompareStr(a, b), CompareStr(b, c), CompareStr(a, c))
  {
    CompareStrTrans(a, b, c);
    CompareStrTrans(c, b, a);
    CompareStrFlip(a, b);
    CompareStrFlip(b, c);
    CompareStrFlip(a, c);
  }

  lemma CompareDateChains(a: DateTime, b: DateTime, c: DateTime)
    ensures Chains(CompareDate(a, b), CompareDate(b, c), CompareDate(a, c))
  {
    var fa, fb, fc := DateFields(a), DateFields(b), DateFields(c);
    CompareIntsTrans(fa, fb, fc);
    CompareIntsTrans(fc, fb, fa);
    CompareIntsFlip(fa, fb);
    CompareIntsFlip(fb, fc);
    CompareIntsFlip(fa, fc);
  }

  /** cmp on values is transitive, for strict and non-strict comparisons alike. */
  lemma {:induction false} CompareTrans(a: Value, b: Value, c: Value)
    ensures Chains(Compare(a, b), Compare(b, c), Compare(a, c))
    decreases a, 1
  {
    if Rank(a) == Rank(b) == Rank(c) {
      match a
      case Date(d) => CompareDateChains(d, b.dt, c.dt);
      case List(xs) => CompareSeqTrans(xs, b.items, c.items);
      case Str(s) => CompareStrChains(s, b.s, c.s);
      case _ =>
    }
  }

  /** Lists compare transitively, for strict and non-strict comparisons alike. */
  lemma {:induction false} CompareSeqTrans(xs: seq<Value>, ys: seq<Value>, zs: seq<Value>)
    ensures Chains(CompareSeq(xs, ys), CompareSeq(ys, zs), CompareSeq(xs, zs))
    decreases xs, 0
  {
    if xs != [] && ys != [] && zs != [] {
      CompareTrans(xs[0], ys[0], zs[0]);
      CompareSeqTrans(xs[1..], ys[1..], zs[1..]);
    }
  }

  /** Key order is transitive. */
  lemma KeyLeTrans(k1: seq<Value>, k2: seq<Value>, k3: seq<Value>)
    requires KeyLe(k1, k2) && KeyLe(k2, k3)
    ensures KeyLe(k1, k3)
  {
    CompareSeqTrans(k1, k2, k3);
  }

  /** Key k1 sorts no later than key k2. */
  predicate KeyLe(k1: seq<Value>, k2: seq<Value>) {
    CompareSeq(k1, k2) <= 0
  }

  /** Any two keys are ordered one way or the other. */
  lemma {:induction false} KeyLeTotal(k1: seq<Value>, k2: seq<Value>)
    ensures KeyLe(k1, k2) || KeyLe(k2, k1)
  {
    CompareSeqFlip(k1, k2);
  }

  /** Every item's key is no later than the next item's. */
  predicate Sorted<T>(xs: seq<(seq<Value>, T)>) {
    forall i :: 0 <= i < |xs| - 1 ==> KeyLe(xs[i].0, xs[i + 1].0)
  }

  /** Insert x before the first item whose key is not smaller. */
  function Insert<T(==)>(x: (seq<Value>, T), xs: seq<(seq<Value>, T)>): (r: seq<(seq<Value>, T)>)
    ensures multiset(r) == multiset(xs) + multiset{x}
    ensures |r| == |xs| + 1
  {
    if xs == [] then [x]
    else if KeyLe(x.0, xs[0].0) then [x] + xs
    else
      var r := [xs[0]] + Insert(x, xs[1..]);
      assert xs == [xs[0]] + xs[1..];
      r
  }

  /** `sorted(items, key=...)`, on items already paired with their keys; an item sorts
      before later items with an equal key, so the sort is stable. */
  function SortByKey<T(==)>(xs: seq<(seq<Value>, T)>): (r: seq<(seq<Value>, T)>)
    ensures multiset(r) == multiset(xs)
  {
    if xs == [] then []
    else
      var r := Insert(xs[0], SortByKey(xs[1..]));
      assert xs == [xs[0]] + xs[1..];
      r
  }

  lemma {:induction false} InsertSorted<T>(x: (seq<Value>, T), xs: seq<(seq<Value>, T)>)
    requires Sorted(xs)
    ensures Sorted(Insert(x, xs))
  {
    if xs != [] && !KeyLe(x.0, xs[0].0) {
      KeyLeTotal(x.0, xs[0].0);
      InsertSorted(x, xs[1..]);
      var rest := Insert(x, xs[1..]);
      assert rest[0] == x || rest[0] == xs[1];
    }
  }

  /** An adjacent-pair ordering orders every pair. */
  lemma {:induction false} SortedPairwise<T>(xs: seq<(seq<Value>, T)>, i: nat, j: nat)
    requires Sorted(xs) && i <= j < |xs|
    ensures KeyLe(xs[i].0, xs[j].0)
    decreases j - i
  {
    if i == j {
      CompareSeqFlip(xs[i].0, xs[i].0);
    } else {
      SortedPairwise(xs, i + 1, j);
      KeyLeTrans(xs[i].0, xs[i + 1].0, xs[j].0);
    }
  }

  /** sorted returns its input in key order. */
  lemma {:induction false} SortByKeySorted<T>(xs: seq<(seq<Value>, T)>)
    ensures Sorted(SortByKey(xs))
  {
    if xs != [] {
      SortByKeySorted(xs[1..]);
      InsertSorted(xs[0], SortByKey(xs[1..]));
    }
  }
}
