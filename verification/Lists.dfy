/** Lists: collecting what each element contributes, splitting at a separator, counting. */
module Lists {
  function Gather<S, T>(f: S -> seq<T>, xs: seq<S>): seq<T>
    decreases |xs|
  {
    if xs == [] then [] else Gather(f, xs[..|xs| - 1]) + f(xs[|xs| - 1])
  }

  lemma GatherSnoc<S, T>(f: S -> seq<T>, xs: seq<S>, x: S)
    ensures Gather(f, xs + [x]) == Gather(f, xs) + f(x)
  {
    assert (xs + [x])[..|xs|] == xs;
  }

  lemma Regroup<T>(a: seq<T>, b: seq<T>, c: seq<T>)
    ensures a + (b + c) == (a + b) + c
  {
  }

  lemma {:induction false} GatherConcat<S, T>(f: S -> seq<T>, a: seq<S>, b: seq<S>)
    ensures Gather(f, a + b) == Gather(f, a) + Gather(f, b)
    decreases |b|
  {
    if b == [] {
      assert a + b == a;
    } else {
      var n := |b| - 1;
      var front, x := b[..n], b[n];
      assert b == front + [x];
      GatherConcat(f, a, front);
      GatherSnoc(f, a + front, x);
      GatherSnoc(f, front, x);
      Regroup(a, front, [x]);
      Regroup(Gather(f, a), Gather(f, front), f(x));
    }
  }

  lemma GatherBoth<S, T>(f: S -> seq<T>, a: seq<S>, b: seq<S>, x: S)
    requires Gather(f, a) == Gather(f, b)
    ensures Gather(f, a + [x]) == Gather(f, b + [x])
  {
    GatherSnoc(f, a, x);
    GatherSnoc(f, b, x);
  }

  lemma GatherNothing<S, T>(f: S -> seq<T>, a: seq<S>, x: S)
    requires f(x) == []
    ensures Gather(f, a + [x]) == Gather(f, a)
  {
    GatherSnoc(f, a, x);
    assert Gather(f, a) + [] == Gather(f, a);
  }

  /** Elements that contribute nothing can be passed over. */
  lemma {:induction false} GatherGap<S, T>(f: S -> seq<T>, xs: seq<S>, m: nat, n: nat)
    requires m <= n <= |xs| && forall j :: m <= j < n ==> f(xs[j]) == []
    ensures Gather(f, xs[..n]) == Gather(f, xs[..m])
    decreases n
  {
    if m < n {
      GatherGap(f, xs, m, n - 1);
      GatherNothing(f, xs[..n - 1], xs[n - 1]);
      assert xs[..n] == xs[..n - 1] + [xs[n - 1]];
    }
  }

  /** If ys contributes what xs does up to m, and nothing more comes before n, then adding element n keeps them
      together. */
  lemma GatherNext<S, T>(f: S -> seq<T>, xs: seq<S>, ys: seq<S>, m: nat, n: nat)
    requires m <= n < |xs| && forall j :: m <= j < n ==> f(xs[j]) == []
    requires Gather(f, ys) == Gather(f, xs[..m])
    ensures Gather(f, ys + [xs[n]]) == Gather(f, xs[..n + 1])
  {
    GatherGap(f, xs, m, n);
    GatherBoth(f, ys, xs[..n], xs[n]);
    assert xs[..n + 1] == xs[..n] + [xs[n]];
  }

  /** What a prefix contributes is a prefix of what the whole contributes. */
  lemma GatherPrefix<S, T>(f: S -> seq<T>, a: seq<S>, b: seq<S>)
    requires a <= b
    ensures Gather(f, a) <= Gather(f, b)
  {
    GatherConcat(f, a, b[|a|..]);
    assert b == a + b[|a|..];
  }

  ghost predicate NoDup<T>(s: seq<T>) {
    forall i, j :: 0 <= i < j < |s| ==> s[i] != s[j]
  }

  // ------------------------------------------------------------------ splitting at a separator

  function Join<T>(parts: seq<seq<T>>, sep: T): seq<T>
    requires parts != []
  {
    if |parts| == 1 then parts[0] else parts[0] + [sep] + Join(parts[1..], sep)
  }

  function Split<T(==)>(s: seq<T>, sep: T): (parts: seq<seq<T>>)
    ensures parts != []
  {
    if s == [] then [[]]
    else
      var rest := Split(s[1..], sep);
      if s[0] == sep then [[]] + rest else [[s[0]] + rest[0]] + rest[1..]
  }

  lemma {:induction false} SplitOfConcat<T>(a: seq<T>, b: seq<T>, sep: T)
    requires sep !in a
    ensures Split(a + [sep] + b, sep) == [a] + Split(b, sep)
  {
    var s := a + [sep] + b;
    if a == [] {
      assert s[1..] == b;
    } else {
      assert s[1..] == a[1..] + [sep] + b;
      SplitOfConcat(a[1..], b, sep);
      assert [s[0]] + a[1..] == a;
    }
  }

  lemma {:induction false} SplitOfPlain<T>(a: seq<T>, sep: T)
    requires sep !in a
    ensures Split(a, sep) == [a]
  {
    if a != [] {
      SplitOfPlain(a[1..], sep);
      assert [a[0]] + a[1..] == a;
    }
  }

  lemma {:induction false} SplitOfJoin<T>(parts: seq<seq<T>>, sep: T)
    requires parts != [] && forall i :: 0 <= i < |parts| ==> sep !in parts[i]
    ensures Split(Join(parts, sep), sep) == parts
  {
    if |parts| == 1 {
      SplitOfPlain(parts[0], sep);
    } else {
      SplitOfJoin(parts[1..], sep);
      SplitOfConcat(parts[0], Join(parts[1..], sep), sep);
    }
  }

  lemma {:induction false} JoinOfSplit<T>(s: seq<T>, sep: T)
    ensures Join(Split(s, sep), sep) == s
  {
    if s != [] {
      JoinOfSplit(s[1..], sep);
      var rest := Split(s[1..], sep);
      if s[0] == sep {
        assert ([[]] + rest)[1..] == rest;
      } else {
        assert ([[s[0]] + rest[0]] + rest[1..])[1..] == rest[1..];
      }
    }
  }

  // ------------------------------------------------------------------ counting

  lemma {:induction false} SubsetSize<T>(a: set<T>, b: set<T>)
    requires a <= b
    ensures |a| <= |b|
  {
    if a != {} {
      var x :| x in a;
      SubsetSize(a - {x}, b - {x});
    }
  }

  /** A set larger than another has an element the other lacks. */
  lemma {:induction false} Spare<T>(a: set<T>, b: set<T>) returns (x: T)
    requires |a| > |b|
    ensures x in a && x !in b
  {
    x :| x in a;
    if x in b {
      x := Spare(a - {x}, b - {x});
    }
  }

  lemma SameSize<T>(a: set<T>, b: set<T>)
    requires a <= b && |a| == |b|
    ensures a == b
  {
    if x :| x in b && x !in a {
      SubsetSize(a + {x}, b);
    }
  }

  /** The numbers below n. */
  function Below(n: nat): (r: set<int>)
    ensures |r| == n && forall i :: i in r ==> i < n
  {
    if n == 0 then {} else Below(n - 1) + {n - 1}
  }

  lemma {:induction false} BelowIs(n: nat, i: int)
    ensures i in Below(n) <==> 0 <= i < n
  {
    if n > 0 {
      BelowIs(n - 1, i);
    }
  }
}
