/** Names in the order of std::string, and the list that std::sort and std::unique leave. */
module SortedNames {

  predicate Less(a: string, b: string) {
    b != [] && (a == [] || a[0] < b[0] || (a[0] == b[0] && Less(a[1..], b[1..])))
  }

  /** a and b agree up to position i, where a ends or has the smaller character. */
  predicate Precedes(a: string, b: string, i: nat) {
    i <= |a| && i < |b| && a[..i] == b[..i] && (i == |a| || a[i] < b[i])
  }

  lemma SameHead(a: string, b: string, i: nat)
    requires i > 0 && Precedes(a, b, i)
    ensures a != [] && b != [] && a[0] == b[0]
  {
    assert a[..i][0] == b[..i][0];
  }

  /** The order is the lexicographic one: a prefix comes first, and else the first difference decides. */
  lemma {:induction false} LessIsLexicographic(a: string, b: string)
    ensures Less(a, b) <==> exists i: nat :: Precedes(a, b, i)
  {
    if a == [] || b == [] {
      if b != [] {
        assert Precedes(a, b, 0);
      }
    } else if a[0] != b[0] {
      assert Precedes(a, b, 0) <==> a[0] < b[0];
      forall i: nat | Precedes(a, b, i)
        ensures i == 0
      {
        if i > 0 {
          SameHead(a, b, i);
        }
      }
    } else {
      LessIsLexicographic(a[1..], b[1..]);
      if i: nat :| Precedes(a[1..], b[1..], i) {
        TailPrecedes(a, b, i + 1);
      }
      if i: nat :| Precedes(a, b, i) {
        TailPrecedes(a, b, i);
      }
    }
  }

  lemma TailPrecedes(a: string, b: string, i: nat)
    requires a != [] && b != [] && a[0] == b[0]
    ensures i > 0 ==> (Precedes(a, b, i) <==> Precedes(a[1..], b[1..], i - 1))
    ensures i == 0 ==> !Precedes(a, b, i)
  {
    if 0 < i <= |a| && i <= |b| {
      assert a[..i] == [a[0]] + a[1..][..i - 1] && b[..i] == [b[0]] + b[1..][..i - 1];
    }
  }

  lemma {:induction false} LessIsTotal(a: string, b: string)
    ensures Less(a, b) || a == b || Less(b, a)
  {
    if a != [] && b != [] && a[0] == b[0] {
      LessIsTotal(a[1..], b[1..]);
      assert a == [a[0]] + a[1..] && b == [b[0]] + b[1..];
    }
  }

  lemma {:induction false} LessIsTransitive(a: string, b: string, c: string)
    requires Less(a, b) && Less(b, c)
    ensures Less(a, c)
  {
    if a != [] && a[0] == b[0] == c[0] {
      LessIsTransitive(a[1..], b[1..], c[1..]);
    }
  }

  lemma {:induction false} LessIsIrreflexive(a: string)
    ensures !Less(a, a)
  {
    if a != [] {
      LessIsIrreflexive(a[1..]);
    }
  }

  ghost predicate StrictlyIncreasing(xs: seq<string>) {
    forall i, j | 0 <= i < j < |xs| :: Less(xs[i], xs[j])
  }

  ghost predicate SameNames(xs: seq<string>, s: set<string>) {
    forall n :: n in xs <==> n in s
  }

  function Inserted(x: string, xs: seq<string>): (r: seq<string>)
    ensures forall n :: n in r <==> n == x || n in xs
  {
    if xs == [] then [x]
    else if x == xs[0] then xs
    else if Less(x, xs[0]) then [x] + xs
    else [xs[0]] + Inserted(x, xs[1..])
  }

  lemma {:induction false} InsertedIncreases(x: string, xs: seq<string>)
    requires StrictlyIncreasing(xs)
    ensures StrictlyIncreasing(Inserted(x, xs))
  {
    if xs == [] || x == xs[0] {
    } else if Less(x, xs[0]) {
      forall i | 0 <= i < |xs|
        ensures Less(x, xs[i])
      {
        if i > 0 {
          LessIsTransitive(x, xs[0], xs[i]);
        }
      }
    } else {
      LessIsTotal(x, xs[0]);
      var rest := Inserted(x, xs[1..]);
      InsertedIncreases(x, xs[1..]);
      forall i | 0 <= i < |rest|
        ensures Less(xs[0], rest[i])
      {
        assert rest[i] in rest;
        if rest[i] != x {
          var k :| 0 <= k < |xs[1..]| && xs[1..][k] == rest[i];
          assert xs[k + 1] == rest[i];
        }
      }
    }
  }

  /** The names in increasing order, each once. */
  function SortedUnique(xs: seq<string>): (r: seq<string>)
    ensures forall n :: n in r <==> n in xs
  {
    if xs == [] then [] else Inserted(xs[0], SortedUnique(xs[1..]))
  }

  lemma {:induction false} SortedUniqueIncreases(xs: seq<string>)
    ensures StrictlyIncreasing(SortedUnique(xs))
  {
    if xs != [] {
      SortedUniqueIncreases(xs[1..]);
      InsertedIncreases(xs[0], SortedUnique(xs[1..]));
    }
  }

  lemma FirstIsLeast(xs: seq<string>, n: string)
    requires StrictlyIncreasing(xs) && n in xs
    ensures n == xs[0] || Less(xs[0], n)
    ensures n in xs[1..] <==> n != xs[0]
  {
    var i :| 0 <= i < |xs| && xs[i] == n;
    LessIsIrreflexive(xs[0]);
    if i > 0 {
      assert xs[1..][i - 1] == n;
    }
    if n in xs[1..] {
      var k :| 0 <= k < |xs[1..]| && xs[1..][k] == n;
      assert Less(xs[0], xs[k + 1]);
    }
  }

  /** A set of names has one increasing list. */
  lemma {:induction false} IncreasingListIsUnique(xs: seq<string>, ys: seq<string>)
    requires StrictlyIncreasing(xs) && StrictlyIncreasing(ys)
    requires forall n :: n in xs <==> n in ys
    ensures xs == ys
  {
    SameEmptiness(xs, ys);
    if xs != [] {
      SameFirst(xs, ys);
      forall n
        ensures n in xs[1..] <==> n in ys[1..]
      {
        if n in xs { FirstIsLeast(xs, n); FirstIsLeast(ys, n); }
      }
      IncreasingListIsUnique(xs[1..], ys[1..]);
      assert xs == [xs[0]] + xs[1..] && ys == [ys[0]] + ys[1..];
    }
  }

  lemma SameEmptiness(xs: seq<string>, ys: seq<string>)
    requires forall n :: n in xs <==> n in ys
    ensures xs == [] <==> ys == []
  {
    if xs != [] { assert xs[0] in xs; }
    if ys != [] { assert ys[0] in ys; }
  }

  lemma SameFirst(xs: seq<string>, ys: seq<string>)
    requires StrictlyIncreasing(xs) && StrictlyIncreasing(ys) && xs != [] && ys != []
    requires forall n :: n in xs <==> n in ys
    ensures xs[0] == ys[0]
  {
    assert xs[0] in xs && ys[0] in ys;
    FirstIsLeast(xs, ys[0]);
    FirstIsLeast(ys, xs[0]);
    if xs[0] != ys[0] {
      LessIsTransitive(xs[0], ys[0], xs[0]);
      LessIsIrreflexive(xs[0]);
    }
  }
}
