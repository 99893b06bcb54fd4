/**
 * The stable, case-insensitive sort of a listing, as Python's
 * `sorted(posts, key=..., reverse=...)` computes it, and its properties:
 * the result is a permutation of the input, ordered by the key in the
 * chosen direction, and records with equal keys keep their input order in
 * both directions.
 */
module Sorting {
  import opened Text
  import opened Posts

  datatype Direction = Asc | Desc

  /** In direction `d`, `a` may be placed before `b`. */
  predicate InOrder(f: Field, d: Direction, a: Post, b: Post) {
    match d
    case Asc => StrLe(Key(f, a), Key(f, b))
    case Desc => StrLe(Key(f, b), Key(f, a))
  }

  /** Every pair of records of `s` is in order, so `s` is sorted by field `f` in direction `d`. */
  predicate Ordered(s: seq<Post>, f: Field, d: Direction) {
    forall i, j :: 0 <= i < j < |s| ==> InOrder(f, d, s[i], s[j])
  }

  /** The records of `s`, in their order in `s`, whose key on field `f` is `k`. */
  function WithKey(s: seq<Post>, f: Field, k: string): (r: seq<Post>)
    ensures |r| <= |s|
  {
    if s == [] then []
    else Pick(s[0], f, k) + WithKey(s[1..], f, k)
  }

  /** Stability of `r` with respect to `s`: for every key, the records with that key appear in the same order. */
  ghost predicate SameTies(r: seq<Post>, s: seq<Post>, f: Field) {
    forall k :: WithKey(r, f, k) == WithKey(s, f, k)
  }

  /** Inserts `x` into the sorted `t` in front of every record it does not have to follow. */
  function Insert(f: Field, d: Direction, x: Post, t: seq<Post>): (r: seq<Post>)
    ensures |r| == |t| + 1
  {
    if t == [] then [x]
    else if !InOrder(f, d, x, t[0]) then [t[0]] + Insert(f, d, x, t[1..])
    else [x] + t
  }

  /** Insertion sort of `s` on field `f` in direction `d`. */
  function SortBy(s: seq<Post>, f: Field, d: Direction): (r: seq<Post>)
    ensures |r| == |s|
  {
    if s == [] then [] else Insert(f, d, s[0], SortBy(s[1..], f, d))
  }

  // Order facts

  lemma InOrderReflexive(f: Field, d: Direction, a: Post)
    ensures InOrder(f, d, a, a)
  {
    StrLeReflexive(Key(f, a));
  }

  lemma InOrderTotal(f: Field, d: Direction, a: Post, b: Post)
    ensures InOrder(f, d, a, b) || InOrder(f, d, b, a)
  {
    StrLeTotal(Key(f, a), Key(f, b));
  }

  lemma InOrderTransitive(f: Field, d: Direction, a: Post, b: Post, c: Post)
    requires InOrder(f, d, a, b) && InOrder(f, d, b, c)
    ensures InOrder(f, d, a, c)
  {
    match d
    case Asc => StrLeTransitive(Key(f, a), Key(f, b), Key(f, c));
    case Desc => StrLeTransitive(Key(f, c), Key(f, b), Key(f, a));
  }

  /** Two records in order both ways have equal keys: they are a tie. */
  lemma InOrderBothWays(f: Field, d: Direction, a: Post, b: Post)
    requires InOrder(f, d, a, b) && InOrder(f, d, b, a)
    ensures Key(f, a) == Key(f, b)
  {
    StrLeAntisymmetric(Key(f, a), Key(f, b));
  }

  // Insertion

  lemma {:induction false} InsertPermutes(f: Field, d: Direction, x: Post, t: seq<Post>)
    ensures multiset(Insert(f, d, x, t)) == multiset(t) + multiset{x}
  {
    if t != [] && !InOrder(f, d, x, t[0]) {
      var t0, tail := t[0], t[1..];
      var rest := Insert(f, d, x, tail);
      assert Insert(f, d, x, t) == [t0] + rest;
      InsertPermutes(f, d, x, tail);
      assert t == [t0] + tail;
      calc {
        multiset(Insert(f, d, x, t));
        multiset([t0]) + multiset(rest);
        multiset([t0]) + multiset(tail) + multiset{x};
        multiset(t) + multiset{x};
      }
    }
  }

  /** Putting `x` in front of the sorted `t` keeps it sorted when `x` may precede all of `t`. */
  lemma ConsOrdered(f: Field, d: Direction, x: Post, t: seq<Post>)
    requires Ordered(t, f, d)
    requires forall e | e in t :: InOrder(f, d, x, e)
    ensures Ordered([x] + t, f, d)
  {
  }

  /** The head of a sorted sequence may precede all of it. */
  lemma HeadFirst(f: Field, d: Direction, t: seq<Post>)
    requires Ordered(t, f, d) && t != []
    ensures forall e | e in t :: InOrder(f, d, t[0], e)
  {
    forall e | e in t ensures InOrder(f, d, t[0], e) {
      var j :| 0 <= j < |t| && t[j] == e;
      if j == 0 { InOrderReflexive(f, d, e); }
    }
  }

  lemma {:induction false} InsertOrdered(f: Field, d: Direction, x: Post, t: seq<Post>)
    requires Ordered(t, f, d)
    ensures Ordered(Insert(f, d, x, t), f, d)
  {
    if t == [] {
    } else if !InOrder(f, d, x, t[0]) {
      var t0, tail := t[0], t[1..];
      var rest := Insert(f, d, x, tail);
      assert Ordered(tail, f, d);
      InsertOrdered(f, d, x, tail);
      InsertPermutes(f, d, x, tail);
      InOrderTotal(f, d, x, t0);
      HeadFirst(f, d, t);
      forall e | e in rest ensures InOrder(f, d, t0, e) {
        assert e in multiset(rest);
        if e != x {
          assert e in multiset(tail);
          assert e in t;
        }
      }
      ConsOrdered(f, d, t0, rest);
    } else {
      HeadFirst(f, d, t);
      forall e | e in t ensures InOrder(f, d, x, e) {
        InOrderTransitive(f, d, x, t[0], e);
      }
      ConsOrdered(f, d, x, t);
    }
  }

  /** The one-record part of `WithKey`: `[x]` when `x` has key `k`, else nothing. */
  function Pick(x: Post, f: Field, k: string): seq<Post> {
    if Key(f, x) == k then [x] else []
  }

  lemma WithKeyCons(x: Post, s: seq<Post>, f: Field, k: string)
    ensures WithKey([x] + s, f, k) == Pick(x, f, k) + WithKey(s, f, k)
  {
  }

  /** Records with equal keys are in order either way round. */
  lemma TieInOrder(f: Field, d: Direction, a: Post, b: Post)
    requires Key(f, a) == Key(f, b)
    ensures InOrder(f, d, a, b)
  {
    StrLeReflexive(Key(f, a));
  }

  /** A record that `x` is moved past does not tie with `x`, so at most one of them has key `k`. */
  lemma SkippedNotTied(f: Field, d: Direction, x: Post, y: Post, k: string)
    requires !InOrder(f, d, x, y)
    ensures Pick(x, f, k) == [] || Pick(y, f, k) == []
  {
    if Key(f, x) == Key(f, y) { TieInOrder(f, d, x, y); }
  }

  lemma PickSwap(x: Post, y: Post, f: Field, k: string, rest: seq<Post>)
    requires Pick(x, f, k) == [] || Pick(y, f, k) == []
    ensures Pick(x, f, k) + (Pick(y, f, k) + rest) == Pick(y, f, k) + (Pick(x, f, k) + rest)
  {
  }

  /** Inserting `x` keeps it ahead of every record with the same key. */
  lemma {:induction false} InsertWithKey(f: Field, d: Direction, x: Post, t: seq<Post>, k: string)
    ensures WithKey(Insert(f, d, x, t), f, k) == WithKey([x] + t, f, k)
  {
    if t != [] && !InOrder(f, d, x, t[0]) {
      var t0, tail := t[0], t[1..];
      assert t == [t0] + tail;
      assert Insert(f, d, x, t) == [t0] + Insert(f, d, x, tail);
      SkippedNotTied(f, d, x, t0, k);
      calc {
        WithKey(Insert(f, d, x, t), f, k);
        { WithKeyCons(t0, Insert(f, d, x, tail), f, k); }
        Pick(t0, f, k) + WithKey(Insert(f, d, x, tail), f, k);
        { InsertWithKey(f, d, x, tail, k); WithKeyCons(x, tail, f, k); }
        Pick(t0, f, k) + (Pick(x, f, k) + WithKey(tail, f, k));
        { PickSwap(t0, x, f, k, WithKey(tail, f, k)); }
        Pick(x, f, k) + (Pick(t0, f, k) + WithKey(tail, f, k));
        { WithKeyCons(t0, tail, f, k); }
        Pick(x, f, k) + WithKey(t, f, k);
        { WithKeyCons(x, t, f, k); }
        WithKey([x] + t, f, k);
      }
    }
  }

  // The sort

  lemma {:induction false} SortPermutes(s: seq<Post>, f: Field, d: Direction)
    ensures multiset(SortBy(s, f, d)) == multiset(s)
  {
    if s != [] {
      SortPermutes(s[1..], f, d);
      InsertPermutes(f, d, s[0], SortBy(s[1..], f, d));
      assert s == [s[0]] + s[1..];
    }
  }

  lemma {:induction false} SortOrdered(s: seq<Post>, f: Field, d: Direction)
    ensures Ordered(SortBy(s, f, d), f, d)
  {
    if s != [] {
      SortOrdered(s[1..], f, d);
      InsertOrdered(f, d, s[0], SortBy(s[1..], f, d));
    }
  }

  lemma {:induction false} SortKeepsTies(s: seq<Post>, f: Field, d: Direction, k: string)
    ensures WithKey(SortBy(s, f, d), f, k) == WithKey(s, f, k)
  {
    if s != [] {
      var t := SortBy(s[1..], f, d);
      SortKeepsTies(s[1..], f, d, k);
      InsertWithKey(f, d, s[0], t, k);
      WithKeyCons(s[0], t, f, k);
      WithKeyCons(s[0], s[1..], f, k);
      assert s == [s[0]] + s[1..];
    }
  }

  /** The sort is stable: for every key, the tied records keep their input order. */
  lemma SortStable(s: seq<Post>, f: Field, d: Direction)
    ensures SameTies(SortBy(s, f, d), s, f)
  {
    forall k ensures WithKey(SortBy(s, f, d), f, k) == WithKey(s, f, k) {
      SortKeepsTies(s, f, d, k);
    }
  }

  // Uniqueness: sortedness and stability pin the result down

  lemma {:induction false} WithKeyMember(s: seq<Post>, f: Field, k: string, e: Post)
    requires e in WithKey(s, f, k)
    ensures e in s && Key(f, e) == k
  {
    if s != [] && e !in Pick(s[0], f, k) {
      WithKeyMember(s[1..], f, k, e);
    }
  }

  lemma HeadHasTies(s: seq<Post>, f: Field)
    requires s != []
    ensures WithKey(s, f, Key(f, s[0])) != []
  {
  }

  /** Two non-empty sorted sequences with the same tied records start with the same record. */
  lemma SameHead(a: seq<Post>, b: seq<Post>, f: Field, d: Direction)
    requires Ordered(a, f, d) && Ordered(b, f, d)
    requires SameTies(a, b, f)
    requires a != [] && b != []
    ensures a[0] == b[0]
  {
    var x, y := a[0], b[0];
    assert WithKey(a, f, Key(f, x))[0] == x;
    WithKeyMember(b, f, Key(f, x), x);
    assert WithKey(b, f, Key(f, y))[0] == y;
    WithKeyMember(a, f, Key(f, y), y);
    HeadFirst(f, d, a);
    HeadFirst(f, d, b);
    InOrderBothWays(f, d, x, y);
    assert WithKey(a, f, Key(f, x))[0] == x && WithKey(b, f, Key(f, x))[0] == y;
  }

  /** Dropping an equal head keeps the tied records in the same order. */
  lemma TailTies(a: seq<Post>, b: seq<Post>, f: Field)
    requires SameTies(a, b, f)
    requires a != [] && b != [] && a[0] == b[0]
    ensures SameTies(a[1..], b[1..], f)
  {
    forall k ensures WithKey(a[1..], f, k) == WithKey(b[1..], f, k) {
      var n := |Pick(a[0], f, k)|;
      assert WithKey(a[1..], f, k) == WithKey(a, f, k)[n..];
      assert WithKey(b[1..], f, k) == WithKey(b, f, k)[n..];
    }
  }

  /** Two sorted sequences with the same tied records in the same order are equal. */
  lemma {:induction false} OrderedTiesDetermine(a: seq<Post>, b: seq<Post>, f: Field, d: Direction)
    requires Ordered(a, f, d) && Ordered(b, f, d)
    requires SameTies(a, b, f)
    ensures a == b
    decreases |a| + |b|
  {
    if a == [] || b == [] {
      if a != [] {
        HeadHasTies(a, f);
      } else if b != [] {
        HeadHasTies(b, f);
      }
    } else {
      var x, y := a[0], b[0];
      SameHead(a, b, f, d);
      TailTies(a, b, f);
      OrderedTiesDetermine(a[1..], b[1..], f, d);
      assert a == [x] + a[1..] && b == [y] + b[1..];
    }
  }

  /**
   * Any sequence that is sorted on the field and keeps every tie in input
   * order is the sort's result: `SortBy` is the only stable sort.
   */
  lemma SortUnique(r: seq<Post>, s: seq<Post>, f: Field, d: Direction)
    requires Ordered(r, f, d) && SameTies(r, s, f)
    ensures r == SortBy(s, f, d)
  {
    SortOrdered(s, f, d);
    SortStable(s, f, d);
    OrderedTiesDetermine(r, SortBy(s, f, d), f, d);
  }
}
