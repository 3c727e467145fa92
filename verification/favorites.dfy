/** The favorites list operations: appending a fetched entry and removing
    every entry that carries a given display name. */
module Favorites {
  import opened Catalog

  /** `sub` can be obtained from `full` by deleting elements, keeping the
      rest in their original relative order. */
  predicate IsSubsequence<T(==)>(sub: seq<T>, full: seq<T>)
    decreases |full|
  {
    if sub == [] then true
    else if full == [] then false
    else (sub[0] == full[0] && IsSubsequence(sub[1..], full[1..]))
         || IsSubsequence(sub, full[1..])
  }

  /** No entry of `favs` is named `name`. */
  predicate NoneNamed(favs: seq<Entry>, name: string)
  {
    forall i :: 0 <= i < |favs| ==> favs[i].name != name
  }

  /** The favorites list with every entry named `name` dropped, in the
      order of a left-to-right filter. No entry named `name` survives. */
  function RemoveNamed(favs: seq<Entry>, name: string): (r: seq<Entry>)
    ensures NoneNamed(r, name)
    ensures |r| <= |favs|
    decreases |favs|
  {
    if favs == [] then []
    else
      var rest := RemoveNamed(favs[1..], name);
      if favs[0].name == name then rest else [favs[0]] + rest
  }

  /** Entries with another name keep their multiplicity; entries named
      `name` are all gone. */
  lemma {:induction false} RemoveKeepsOthers(favs: seq<Entry>, name: string)
    ensures forall e :: multiset(RemoveNamed(favs, name))[e]
                     == if e.name == name then 0 else multiset(favs)[e]
    decreases |favs|
  {
    if favs != [] {
      assert favs == [favs[0]] + favs[1..];
      RemoveKeepsOthers(favs[1..], name);
    }
  }

  /** The filter keeps the survivors in their original relative order. */
  lemma {:induction false} RemoveIsSubsequence(favs: seq<Entry>, name: string)
    ensures IsSubsequence(RemoveNamed(favs, name), favs)
    decreases |favs|
  {
    if favs != [] {
      RemoveIsSubsequence(favs[1..], name);
      var rest := RemoveNamed(favs[1..], name);
      if favs[0].name != name {
        assert ([favs[0]] + rest)[1..] == rest;
      } else {
        SubsequenceOfTail(rest, favs);
      }
    }
  }

  /** A subsequence of the tail is a subsequence of the whole. */
  lemma SubsequenceOfTail<T>(sub: seq<T>, full: seq<T>)
    requires full != []
    requires IsSubsequence(sub, full[1..])
    ensures IsSubsequence(sub, full)
  {
  }

  /** Removing by name distributes over concatenation: the filter is
      decided element by element, independently of neighbours. */
  lemma {:induction false} RemoveDistributes(a: seq<Entry>, b: seq<Entry>, name: string)
    ensures RemoveNamed(a + b, name) == RemoveNamed(a, name) + RemoveNamed(b, name)
    decreases |a|
  {
    if a == [] {
      assert a + b == b;
    } else {
      assert (a + b)[1..] == a[1..] + b;
      RemoveDistributes(a[1..], b, name);
    }
  }

  /** Removing a name that no entry carries changes nothing, and only then. */
  lemma {:induction false} RemoveAbsentIsIdentity(favs: seq<Entry>, name: string)
    ensures RemoveNamed(favs, name) == favs <==> NoneNamed(favs, name)
    decreases |favs|
  {
    if favs != [] && NoneNamed(favs, name) {
      assert NoneNamed(favs[1..], name);
      RemoveAbsentIsIdentity(favs[1..], name);
    }
  }

  /** Removing the same name twice is the same as removing it once. */
  lemma {:induction false} RemoveIdempotent(favs: seq<Entry>, name: string)
    ensures RemoveNamed(RemoveNamed(favs, name), name) == RemoveNamed(favs, name)
  {
    RemoveAbsentIsIdentity(RemoveNamed(favs, name), name);
  }

  /** Removing the name of an appended entry undoes the append, together
      with every earlier entry of that name. */
  lemma {:induction false} RemoveUndoesAppend(favs: seq<Entry>, d: Entry)
    ensures RemoveNamed(favs + [d], d.name) == RemoveNamed(favs, d.name)
  {
    RemoveDistributes(favs, [d], d.name);
    assert RemoveNamed([d], d.name) == [];
  }
}
