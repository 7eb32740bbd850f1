/** When a group that listed the first hosts lists the first hosts again after a run, in terms of the lists of names. */
module GroupPrefixes {
  import opened Ordered
  import Sequences

  /** The order of `all.hosts` after a run that loaded `before` and built `names`: survivors keep their places. */
  function Listed(before: seq<string>, names: seq<string>): seq<string> {
    var survivors := Filter(before, Elements(names));
    survivors + Filter(names, Elements(names) - Elements(survivors))
  }

  /** The members of a group after the run: the survivors, and then those of `first` that were not among them. */
  function Regrouped(group: seq<string>, names: seq<string>, first: seq<string>): seq<string> {
    var kept := Filter(group, Elements(names));
    kept + Filter(first, Elements(first) - Elements(kept))
  }

  /** Every surviving member is one of the first. */
  ghost predicate SurvivorsAmong(group: seq<string>, names: seq<string>, first: seq<string>) {
    forall x | x in group && x in names :: x in first
  }

  lemma {:induction false} DistinctSize(s: seq<string>)
    requires Distinct(s)
    ensures |Elements(s)| == |s|
  {
    if s != [] {
      DistinctSize(s[1..]);
      assert s[0] !in s[1..];
      assert Elements(s) == {s[0]} + Elements(s[1..]);
    }
  }

  lemma {:induction false} SubsetSize(a: set<string>, b: set<string>)
    requires a <= b
    ensures |a| <= |b| && (|a| == |b| <==> a == b)
  {
    assert b == a + (b - a);
  }

  lemma {:induction false} AppendDistinct(a: seq<string>, b: seq<string>)
    requires Distinct(a) && Distinct(b)
    ensures Distinct(a + Filter(b, Elements(b) - Elements(a)))
    ensures Elements(a + Filter(b, Elements(b) - Elements(a))) == Elements(a) + Elements(b)
  {
    var added := Filter(b, Elements(b) - Elements(a));
    FilterDistinct(b, Elements(b) - Elements(a));
    assert forall x | x in b :: x in a || x in added;
    ConcatDistinct(a, added);
  }

  lemma {:induction false} ConcatDistinct(a: seq<string>, b: seq<string>)
    requires Distinct(a) && Distinct(b) && forall x | x in b :: x !in a
    ensures Distinct(a + b)
  {
    forall i, j | 0 <= i < j < |a + b|
      ensures (a + b)[i] != (a + b)[j]
    {
      if i < |a| <= j {
        assert (a + b)[j] == b[j - |a|] && b[j - |a|] in b;
      }
    }
  }

  /** `all.hosts` lists the built hosts, each once. */
  lemma {:induction false} ListedIsNames(before: seq<string>, names: seq<string>)
    requires Distinct(before) && Distinct(names)
    ensures Distinct(Listed(before, names)) && Elements(Listed(before, names)) == Elements(names)
    ensures |Listed(before, names)| == |names|
  {
    var survivors := Filter(before, Elements(names));
    FilterDistinct(before, Elements(names));
    AppendDistinct(survivors, names);
    DistinctSize(names);
    DistinctSize(Listed(before, names));
  }

  lemma {:induction false} ListedInOrder(before: seq<string>, names: seq<string>)
    requires Distinct(names) && OrderKept(before, names)
    ensures Listed(before, names) == names
  {
    var survivors := Filter(before, Elements(names));
    var rest := names[|survivors|..];
    var keep := Elements(names) - Elements(survivors);
    assert names == survivors + rest;
    FilterConcat(survivors, rest, keep);
    FilterNone(survivors, keep);
    assert forall x | x in survivors :: x in before;
    FilterAll(rest, keep);
    Sequences.EmptyUnit(rest);
  }

  lemma {:induction false} RegroupedIsGroup(group: seq<string>, names: seq<string>, first: seq<string>)
    requires Distinct(group) && Distinct(first)
    ensures Distinct(Regrouped(group, names, first))
    ensures Elements(Regrouped(group, names, first)) == Elements(group) * Elements(names) + Elements(first)
  {
    FilterDistinct(group, Elements(names));
    AppendDistinct(Filter(group, Elements(names)), first);
  }

  /** The group has as many members as `first`, if and only if every surviving member is one of those. */
  lemma {:induction false} RegroupedSize(group: seq<string>, names: seq<string>, first: seq<string>)
    requires Distinct(group) && Distinct(first)
    ensures |Regrouped(group, names, first)| >= |first|
    ensures |Regrouped(group, names, first)| == |first| <==> SurvivorsAmong(group, names, first)
  {
    var all := Elements(Regrouped(group, names, first));
    RegroupedIsGroup(group, names, first);
    DistinctSize(first);
    DistinctSize(Regrouped(group, names, first));
    SubsetSize(Elements(first), all);
    if all == Elements(first) {
      forall x | x in group && x in names
        ensures x in first
      {
        assert x in all;
      }
    }
  }

  lemma {:induction false} TakeDistinct(s: seq<string>, k: nat)
    requires Distinct(s)
    ensures Distinct(Take(s, k)) && |Take(s, k)| == if k < |s| then k else |s|
  {
  }

  lemma {:induction false} PrefixDistinct(s: seq<string>, t: seq<string>)
    requires s <= t && Distinct(t)
    ensures Distinct(s)
  {
    assert s == t[..|s|];
  }

  /** What was the first k names and is given the first k names again is the first k listed names, if and only if every
      survivor is among the first k built and the group follows the listed order. */
  lemma {:induction false} FirstAgain(before: seq<string>, names: seq<string>, k: nat)
    requires Distinct(before) && Distinct(names)
    ensures Regrouped(Take(before, k), names, Take(names, k)) == Take(Listed(before, names), k) <==>
            && SurvivorsAmong(Take(before, k), names, Take(names, k))
            && Regrouped(Take(before, k), names, Take(names, k)) <= Listed(before, names)
  {
    TakeDistinct(before, k);
    TakeDistinct(names, k);
    RegroupedSize(Take(before, k), names, Take(names, k));
    ListedIsNames(before, names);
    PrefixOrTake(Regrouped(Take(before, k), names, Take(names, k)), Listed(before, names), k);
  }

  lemma {:induction false} PrefixOrTake(s: seq<string>, t: seq<string>, k: nat)
    ensures s == Take(t, k) <==> s <= t && |s| == if k < |t| then k else |t|
  {
  }
}
