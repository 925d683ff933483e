/** Options, and facts about sequences, sets and maps that several components share. */
module Collections {

  datatype Option<+T> = None | Some(value: T)

  lemma {:induction false} SplitLast<T>(xs: seq<T>)
    requires xs != []
    ensures xs == xs[..|xs| - 1] + [xs[|xs| - 1]]
  {
  }

  lemma {:induction false} TakeNext<T>(xs: seq<T>, k: nat)
    requires k < |xs|
    ensures xs[..k + 1] == xs[..k] + [xs[k]]
  {
  }

  lemma {:induction false} TakeAll<T>(xs: seq<T>)
    ensures xs[..|xs|] == xs
  {
  }

  lemma {:induction false} TakeNone<T>(xs: seq<T>)
    ensures xs[..0] == []
  {
  }

  lemma {:induction false} PrefixGrows<T>(xs: seq<T>, prefix: seq<T>)
    requires |prefix| < |xs| && prefix == xs[..|prefix|]
    ensures prefix + [xs[|prefix|]] == xs[..|prefix| + 1]
  {
  }

  lemma {:induction false} InsertedElements<T>(xs: seq<T>, i: nat, x: T)
    requires i <= |xs|
    ensures multiset(xs[..i] + [x] + xs[i..]) == multiset(xs) + multiset{x}
  {
    assert xs == xs[..i] + xs[i..];
  }

  lemma {:induction false} FrontElements<T>(xs: seq<T>)
    requires xs != []
    ensures multiset(xs[..|xs| - 1]) == multiset(xs) - multiset{xs[|xs| - 1]}
  {
    var front, last := xs[..|xs| - 1], xs[|xs| - 1];
    assert xs == front + [last];
    assert multiset(front + [last]) == multiset(front) + multiset{last};
  }

  lemma {:induction false} Associative<T>(a: seq<T>, b: seq<T>, c: seq<T>)
    ensures (a + b) + c == a + (b + c)
  {
  }

  /** Keys taken from a map one by one. */
  lemma {:induction false} EraseNext<K, V>(m: map<K, V>, keys: set<K>, k: K)
    ensures m - keys - {k} == m - (keys + {k})
  {
  }

  /** `names - todo` is what has been done of `names`. */
  lemma {:induction false} TodoBegins<T>(names: set<T>, todo: set<T>)
    requires names <= todo
    ensures names - todo == {}
  {
  }

  lemma {:induction false} TodoShrinks<T>(names: set<T>, todo: set<T>, x: T)
    requires x in todo
    ensures x !in names - todo
    ensures x !in names ==> names - (todo - {x}) == names - todo
    ensures x in names ==> names - (todo - {x}) == (names - todo) + {x}
  {
  }

  lemma {:induction false} TodoEnds<T>(names: set<T>)
    ensures names - {} == names
  {
  }
}
