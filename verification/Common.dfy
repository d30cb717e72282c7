/** Datatypes and sequence facts shared by the models. */
module Common {
  datatype Option<+T> = None | Some(value: T)

  function Gap(a: int, b: int): int { if a < b then b - a else a - b }

  /** Concatenation of a sequence of sequences. */
  function Flatten<T>(rows: seq<seq<T>>): seq<T> {
    if rows == [] then [] else Flatten(rows[..|rows| - 1]) + rows[|rows| - 1]
  }

  lemma {:induction false} FlattenAppend<T>(rows: seq<seq<T>>, row: seq<T>)
    ensures Flatten(rows + [row]) == Flatten(rows) + row
  {
    assert (rows + [row])[..|rows|] == rows;
  }

  function Images<T, U>(s: seq<T>, f: T -> U): (r: seq<U>) {
    seq(|s|, i requires 0 <= i < |s| => f(s[i]))
  }

  lemma ImagesSplit<T, U>(a: seq<T>, b: seq<T>, f: T -> U)
    ensures Images(a + b, f) == Images(a, f) + Images(b, f)
  {}

  /** The values of a function over a sequence do not depend, as a multiset, on the sequence's order. */
  lemma {:induction false} ImagesIgnoreOrder<T, U>(a: seq<T>, b: seq<T>, f: T -> U)
    requires multiset(a) == multiset(b)
    ensures multiset(Images(a, f)) == multiset(Images(b, f))
    decreases |a|
  {
    if a == [] {
      assert |b| == |multiset(b)| == 0;
    } else {
      assert a[0] in multiset(b);
      var i :| 0 <= i < |b| && b[i] == a[0];
      var rest := b[..i] + b[i + 1..];
      assert a == [a[0]] + a[1..];
      assert b == b[..i] + ([b[i]] + b[i + 1..]);
      assert multiset(a[1..]) == multiset(a) - multiset{a[0]};
      assert multiset(rest) == multiset(b) - multiset{b[i]};
      ImagesIgnoreOrder(a[1..], rest, f);
      ImagesSplit([a[0]], a[1..], f);
      ImagesSplit(b[..i], [b[i]] + b[i + 1..], f);
      ImagesSplit([b[i]], b[i + 1..], f);
      ImagesSplit(b[..i], b[i + 1..], f);
    }
  }
}

/** Values that several models share. */
module Values {
  /** Whether a screenshot row takes money out of the account or puts it in. */
  datatype Direction = Debit | Credit | Unknown

  /** An amount in minor units of a currency. */
  datatype Money = Money(minor: int, currency: string)
}

/** Code-point order on strings. */
module Text {
  predicate TextAtMost(a: string, b: string) {
    a == "" || (b != "" && (a[0] < b[0] || (a[0] == b[0] && TextAtMost(a[1..], b[1..]))))
  }

  lemma {:induction false} TextOrderTotal(a: string, b: string)
    ensures TextAtMost(a, b) || TextAtMost(b, a)
  {
    if a != "" && b != "" && a[0] == b[0] {
      TextOrderTotal(a[1..], b[1..]);
    }
  }

  lemma {:induction false} TextOrderTransitive(a: string, b: string, c: string)
    requires TextAtMost(a, b) && TextAtMost(b, c)
    ensures TextAtMost(a, c)
  {
    if a != "" && a[0] == b[0] == c[0] {
      TextOrderTransitive(a[1..], b[1..], c[1..]);
    }
  }
}

/** Screen coordinates in pixels. */
module Geometry {
  datatype Box = Box(left: nat, top: nat, right: nat, bottom: nat)

  function Distance(a: real, b: real): real { if a < b then b - a else a - b }
}

/** Python's stable `sorted`, and when its result does not depend on the input order. */
module Sorting {
  ghost predicate TotalPreorder<T(!new)>(leq: (T, T) -> bool) {
    && (forall x, y :: leq(x, y) || leq(y, x))
    && (forall x, y, z :: leq(x, y) && leq(y, z) ==> leq(x, z))
  }

  predicate AtMost(a: int, b: int) { a <= b }

  ghost predicate Sorted<T(!new)>(s: seq<T>, leq: (T, T) -> bool) {
    forall i, j :: 0 <= i < j < |s| ==> leq(s[i], s[j])
  }

  function Insert<T>(x: T, s: seq<T>, leq: (T, T) -> bool): seq<T> {
    if s == [] || leq(x, s[0]) then [x] + s else [s[0]] + Insert(x, s[1..], leq)
  }

  function Sort<T>(s: seq<T>, leq: (T, T) -> bool): seq<T> {
    if s == [] then [] else Insert(s[0], Sort(s[1..], leq), leq)
  }

  lemma {:induction false} InsertPermutes<T>(x: T, s: seq<T>, leq: (T, T) -> bool)
    ensures multiset(Insert(x, s, leq)) == multiset{x} + multiset(s)
  {
    if s != [] && !leq(x, s[0]) {
      InsertPermutes(x, s[1..], leq);
      assert s == [s[0]] + s[1..];
    }
  }

  lemma {:induction false} InsertSorted<T(!new)>(x: T, s: seq<T>, leq: (T, T) -> bool)
    requires TotalPreorder(leq) && Sorted(s, leq)
    ensures Sorted(Insert(x, s, leq), leq)
  {
    if s != [] && !leq(x, s[0]) {
      var rest := Insert(x, s[1..], leq);
      InsertSorted(x, s[1..], leq);
      InsertPermutes(x, s[1..], leq);
      forall k | 0 <= k < |rest| ensures leq(s[0], rest[k]) {
        assert rest[k] in multiset(rest);
        assert rest[k] == x || rest[k] in s[1..];
      }
    } else if s != [] {
      forall k | 0 <= k < |s| ensures leq(x, s[k]) {}
    }
  }

  lemma {:induction false} SortPermutes<T>(s: seq<T>, leq: (T, T) -> bool)
    ensures multiset(Sort(s, leq)) == multiset(s)
    ensures |Sort(s, leq)| == |s|
  {
    if s != [] {
      SortPermutes(s[1..], leq);
      InsertPermutes(s[0], Sort(s[1..], leq), leq);
      assert s == [s[0]] + s[1..];
    }
    assert |multiset(Sort(s, leq))| == |Sort(s, leq)| && |multiset(s)| == |s|;
  }

  lemma SortKeepsMembers<T>(s: seq<T>, leq: (T, T) -> bool, x: T)
    requires x in Sort(s, leq)
    ensures x in s
  {
    SortPermutes(s, leq);
    assert x in multiset(s);
  }

  lemma {:induction false} SortSorted<T(!new)>(s: seq<T>, leq: (T, T) -> bool)
    requires TotalPreorder(leq)
    ensures Sorted(Sort(s, leq), leq)
  {
    if s != [] {
      SortSorted(s[1..], leq);
      InsertSorted(s[0], Sort(s[1..], leq), leq);
    }
  }

  /** Ties are identities: two elements that compare both ways are one element. */
  ghost predicate TiesAreEqual<T(!new)>(s: seq<T>, leq: (T, T) -> bool) {
    forall i, j :: 0 <= i < |s| && 0 <= j < |s| && leq(s[i], s[j]) && leq(s[j], s[i]) ==> s[i] == s[j]
  }

  lemma SameHead<T(!new)>(a: seq<T>, b: seq<T>, leq: (T, T) -> bool)
    requires a != [] && b != [] && Sorted(a, leq) && Sorted(b, leq)
    requires TiesAreEqual(a, leq) && multiset(a) == multiset(b)
    ensures a[0] == b[0]
  {
    assert a[0] in multiset(b) && b[0] in multiset(a);
    var i :| 0 <= i < |b| && b[i] == a[0];
    var j :| 0 <= j < |a| && a[j] == b[0];
    if i > 0 && j > 0 {
      assert leq(b[0], b[i]) && leq(a[0], a[j]);
    }
  }

  /** A sorted sequence without ties is determined by its multiset. */
  lemma {:induction false} SortedUnique<T(!new)>(a: seq<T>, b: seq<T>, leq: (T, T) -> bool)
    requires Sorted(a, leq) && Sorted(b, leq)
    requires TiesAreEqual(a, leq) && multiset(a) == multiset(b)
    ensures a == b
  {
    assert |a| == |multiset(a)| == |multiset(b)| == |b|;
    if a != [] {
      SameHead(a, b, leq);
      assert a == [a[0]] + a[1..] && b == [b[0]] + b[1..];
      assert multiset(a[1..]) == multiset(a) - multiset{a[0]} == multiset(b[1..]);
      SortedUnique(a[1..], b[1..], leq);
    }
  }

  /** Sorting forgets the input order as soon as ties are identities. */
  lemma SortIgnoresOrder<T(!new)>(a: seq<T>, b: seq<T>, leq: (T, T) -> bool)
    requires TotalPreorder(leq) && TiesAreEqual(a, leq)
    requires multiset(a) == multiset(b)
    ensures Sort(a, leq) == Sort(b, leq)
  {
    var sa := Sort(a, leq);
    SortPermutes(a, leq);
    SortPermutes(b, leq);
    SortSorted(a, leq);
    SortSorted(b, leq);
    forall i, j | 0 <= i < |sa| && 0 <= j < |sa| && leq(sa[i], sa[j]) && leq(sa[j], sa[i])
      ensures sa[i] == sa[j]
    {
      assert sa[i] in multiset(a) && sa[j] in multiset(a);
      var k :| 0 <= k < |a| && a[k] == sa[i];
      var l :| 0 <= l < |a| && a[l] == sa[j];
    }
    SortedUnique(sa, Sort(b, leq), leq);
  }
}
