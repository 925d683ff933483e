/** Lists of distinct names, with the position of every name. */
module NameTables {

  ghost predicate Distinct(names: seq<string>) {
    forall j, k :: 0 <= j < k < |names| ==> names[j] != names[k]
  }

  ghost predicate Indexes(index: map<string, nat>, names: seq<string>) {
    && (forall name :: name in index <==> name in names)
    && (forall k :: 0 <= k < |names| ==> names[k] in index && index[names[k]] == k)
  }

  /** An indexed list has no duplicates. */
  lemma {:induction false} IndexedAreDistinct(index: map<string, nat>, names: seq<string>)
    requires Indexes(index, names)
    ensures Distinct(names)
  {
    forall j, k | 0 <= j < k < |names|
      ensures names[j] != names[k]
    {
      assert index[names[j]] == j && index[names[k]] == k;
    }
  }

  /** The position of a name, which is appended when it is met first. */
  method Intern(name: string, names: seq<string>, index: map<string, nat>)
    returns (id: nat, moreNames: seq<string>, moreIndex: map<string, nat>)
    requires Indexes(index, names)
    ensures Indexes(moreIndex, moreNames) && id < |moreNames| && moreNames[id] == name
    ensures moreNames == if name in names then names else names + [name]
  {
    if name in index {
      id, moreNames, moreIndex := index[name], names, index;
    } else {
      id := |names|;
      moreNames, moreIndex := names + [name], index[name := |names|];
    }
  }
}
