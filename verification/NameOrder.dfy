/** Lists of names in ascending order, as the keys of an ordered map. */
module NameOrders {

  /** Lexicographic order. */
  predicate Less(a: string, b: string) {
    b != "" && (a == "" || a[0] < b[0] || (a[0] == b[0] && Less(a[1..], b[1..])))
  }

  /** After a common prefix of `k` characters, `a` ends or has the smaller character. */
  ghost predicate SplitsAt(a: string, b: string, k: nat) {
    k <= |a| && k < |b| && a[..k] == b[..k] && (k == |a| || a[k] < b[k])
  }

  ghost predicate ComesBefore(a: string, b: string) {
    exists k: nat :: SplitsAt(a, b, k)
  }

  lemma {:induction false} LessMeaning(a: string, b: string)
    ensures Less(a, b) <==> ComesBefore(a, b)
  {
    if a == "" || b == "" || a[0] != b[0] {
      assert ComesBefore(a, b) ==> b != "" && (a == "" || a[0] < b[0]);
      if Less(a, b) {
        assert SplitsAt(a, b, 0);
      }
    } else {
      LessMeaning(a[1..], b[1..]);
      if k: nat :| SplitsAt(a[1..], b[1..], k) {
        SplitsBehind(a, b, k);
      }
      if k: nat :| SplitsAt(a, b, k) {
        SplitsBehind(a, b, k - 1);
      }
    }
  }

  lemma {:induction false} SplitsBehind(a: string, b: string, k: nat)
    requires a != "" && b != "" && a[0] == b[0]
    ensures SplitsAt(a, b, k + 1) <==> SplitsAt(a[1..], b[1..], k)
  {
    if k + 1 <= |a| && k + 1 <= |b| {
      assert a[..k + 1] == [a[0]] + a[1..][..k];
      assert b[..k + 1] == [b[0]] + b[1..][..k];
      if a[..k + 1] == b[..k + 1] {
        assert a[1..][..k] == a[..k + 1][1..];
        assert b[1..][..k] == b[..k + 1][1..];
      }
    }
  }

  lemma {:induction false} LessIrreflexive(a: string)
    ensures !Less(a, a)
  {
    if a != "" {
      LessIrreflexive(a[1..]);
    }
  }

  lemma {:induction false} LessTotal(a: string, b: string)
    ensures Less(a, b) || a == b || Less(b, a)
  {
    if a != "" && b != "" && a[0] == b[0] {
      LessTotal(a[1..], b[1..]);
      if a[1..] == b[1..] {
        assert a == [a[0]] + a[1..] && b == [b[0]] + b[1..];
      }
    }
  }

  lemma {:induction false} LessTransitive(a: string, b: string, c: string)
    requires Less(a, b) && Less(b, c)
    ensures Less(a, c)
  {
    if a != "" && a[0] == b[0] == c[0] {
      LessTransitive(a[1..], b[1..], c[1..]);
    }
  }

  ghost predicate Ascending(names: seq<string>) {
    forall j, k :: 0 <= j < k < |names| ==> Less(names[j], names[k])
  }

  function InsertAt<T>(xs: seq<T>, p: nat, x: T): (r: seq<T>)
    requires p <= |xs|
    ensures |r| == |xs| + 1
    ensures forall k :: 0 <= k < p ==> r[k] == xs[k]
    ensures r[p] == x
    ensures forall k :: p < k < |r| ==> r[k] == xs[k - 1]
  {
    xs[..p] + [x] + xs[p..]
  }

  /** `x` belongs at position `p`. */
  ghost predicate BelongsAt(names: seq<string>, p: nat, x: string) {
    && p <= |names|
    && (forall k :: 0 <= k < p ==> Less(names[k], x))
    && (forall k :: p <= k < |names| ==> Less(x, names[k]))
  }

  method FindPlace(names: seq<string>, x: string) returns (p: nat)
    requires Ascending(names) && x !in names
    ensures BelongsAt(names, p, x)
  {
    p := 0;
    while p < |names| && Less(names[p], x)
      invariant p <= |names| && forall k :: 0 <= k < p ==> Less(names[k], x)
    {
      p := p + 1;
    }
    forall k | p <= k < |names|
      ensures Less(x, names[k])
    {
      LessTotal(names[p], x);
      assert names[p] in names;
      if p < k {
        LessTransitive(x, names[p], names[k]);
      }
    }
  }

  lemma {:induction false} InsertAscending(names: seq<string>, p: nat, x: string)
    requires Ascending(names) && BelongsAt(names, p, x)
    ensures Ascending(InsertAt(names, p, x))
  {
    var all := InsertAt(names, p, x);
    forall j, k | 0 <= j < k < |all|
      ensures Less(all[j], all[k])
    {
      if j != p && k != p {
        assert all[j] == names[if j < p then j else j - 1] && all[k] == names[if k < p then k else k - 1];
      }
    }
  }

  /** Ascending names are distinct. */
  lemma {:induction false} AscendingIsDistinct(names: seq<string>, j: nat, k: nat)
    requires Ascending(names) && j < |names| && k < |names| && names[j] == names[k]
    ensures j == k
  {
    LessIrreflexive(names[j]);
  }
}
