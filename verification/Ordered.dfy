/** Insertion-ordered name sets: the keys of the dictionaries the inventory is made of. */
module Ordered {
  import Sequences

  ghost predicate Distinct(s: seq<string>) {
    forall i, j | 0 <= i < j < |s| :: s[i] != s[j]
  }

  function Elements(s: seq<string>): set<string> {
    set x | x in s
  }

  function Take(s: seq<string>, k: nat): seq<string> {
    if k <= |s| then s[..k] else s
  }

  /** The Python slice `s[lo:hi]` for `0 <= lo <= hi`, clamped at the end of `s`. */
  function Slice(s: seq<string>, lo: nat, hi: nat): seq<string>
    requires lo <= hi
  {
    if lo >= |s| then [] else Take(s, hi)[lo..]
  }

  /** The members of `s` in `keep`, in the order of `s`. */
  function Filter(s: seq<string>, keep: set<string>): (r: seq<string>)
    ensures |r| <= |s|
    ensures forall x :: x in r <==> x in s && x in keep
  {
    if s == [] then []
    else if s[0] in keep then [s[0]] + Filter(s[1..], keep)
    else Filter(s[1..], keep)
  }

  /** `d[name] = None` on a dictionary used as an ordered set. */
  function AddName(group: seq<string>, name: string): seq<string> {
    if name in group then group else group + [name]
  }

  function AddAll(group: seq<string>, names: seq<string>): seq<string>
    decreases |names|
  {
    if names == [] then group else AddAll(AddName(group, names[0]), names[1..])
  }

  lemma {:induction false} FilterConcat(a: seq<string>, b: seq<string>, keep: set<string>)
    ensures Filter(a + b, keep) == Filter(a, keep) + Filter(b, keep)
  {
    if a == [] {
      Sequences.EmptyUnit(b);
    } else {
      FilterConcat(a[1..], b, keep);
      Sequences.AppendTail(a, b);
      Sequences.Assoc([a[0]], Filter(a[1..], keep), Filter(b, keep));
    }
  }

  lemma {:induction false} FilterAll(s: seq<string>, keep: set<string>)
    requires Elements(s) <= keep
    ensures Filter(s, keep) == s
  {
    if s != [] {
      assert s[0] in Elements(s);
      assert Elements(s[1..]) <= Elements(s);
      FilterAll(s[1..], keep);
    }
  }

  lemma {:induction false} FilterNone(s: seq<string>, keep: set<string>)
    requires Elements(s) !! keep
    ensures Filter(s, keep) == []
  {
    if s != [] {
      assert s[0] in Elements(s);
      assert Elements(s[1..]) <= Elements(s);
      FilterNone(s[1..], keep);
    }
  }

  lemma {:induction false} FilterDistinct(s: seq<string>, keep: set<string>)
    requires Distinct(s)
    ensures Distinct(Filter(s, keep))
  {
    if s != [] {
      FilterDistinct(s[1..], keep);
      assert s[0] !in s[1..];
    }
  }

  lemma {:induction false} FilterCong(s: seq<string>, keep: set<string>, keep': set<string>)
    requires forall x | x in s :: x in keep <==> x in keep'
    ensures Filter(s, keep) == Filter(s, keep')
  {
    if s != [] {
      FilterCong(s[1..], keep, keep');
    }
  }

  lemma {:induction false} FilterTwice(s: seq<string>, keep: set<string>, keep': set<string>)
    ensures Filter(Filter(s, keep), keep') == Filter(s, keep * keep')
  {
    if s != [] {
      FilterTwice(s[1..], keep, keep');
      if s[0] in keep {
        assert Filter(s, keep)[1..] == Filter(s[1..], keep);
      }
    }
  }

  /** What filtering leaves of a prefix is a prefix of what it leaves of the whole. */
  lemma {:induction false} FilterPrefix(s: seq<string>, k: nat, keep: set<string>)
    requires k <= |s|
    ensures var j := |Filter(s[..k], keep)|;
            j <= k && j <= |Filter(s, keep)| && Filter(s[..k], keep) == Filter(s, keep)[..j]
  {
    assert s == s[..k] + s[k..];
    FilterConcat(s[..k], s[k..], keep);
  }

  lemma {:induction false} AddAllMembers(group: seq<string>, names: seq<string>)
    ensures Elements(AddAll(group, names)) == Elements(group) + Elements(names)
    decreases |names|
  {
    if names != [] {
      AddAllMembers(AddName(group, names[0]), names[1..]);
      assert names == [names[0]] + names[1..];
    }
  }

  lemma {:induction false} FilterNext(first: string, rest: seq<string>, group: seq<string>)
    requires first !in rest
    ensures var group', names := AddName(group, first), [first] + rest;
            group' + Filter(rest, Elements(rest) - Elements(group')) == group + Filter(names, Elements(names) - Elements(group))
  {
    var group', names := AddName(group, first), [first] + rest;
    var added, added' := Elements(names) - Elements(group), Elements(rest) - Elements(group');
    forall x | x in rest
      ensures x in added' <==> x in added
    {
      assert x in names && (x in group' <==> x in group);
    }
    FilterCong(rest, added', added);
    assert first in names;
    if first !in group {
      Sequences.Assoc(group, [first], Filter(rest, added));
    }
  }

  /** Adding names appends the new ones, once each and in order. */
  lemma {:induction false} AddAllAppends(group: seq<string>, names: seq<string>)
    requires Distinct(names)
    ensures AddAll(group, names) == group + Filter(names, Elements(names) - Elements(group))
    decreases |names|
  {
    if names == [] {
      Sequences.EmptyUnit(group);
    } else {
      var first, rest := names[0], names[1..];
      assert first !in rest;
      AddAllAppends(AddName(group, first), rest);
      Sequences.HeadTail(names);
      FilterNext(first, rest, group);
    }
  }

  lemma {:induction false} AddAllConcat(group: seq<string>, a: seq<string>, b: seq<string>)
    ensures AddAll(group, a + b) == AddAll(AddAll(group, a), b)
    decreases |a|
  {
    if a == [] {
      assert a + b == b;
    } else {
      assert (a + b)[1..] == a[1..] + b;
      AddAllConcat(AddName(group, a[0]), a[1..], b);
    }
  }

  lemma {:induction false} AddAllPresent(group: seq<string>, names: seq<string>)
    requires Elements(names) <= Elements(group)
    ensures AddAll(group, names) == group
  {
    if names != [] {
      assert names[0] in Elements(names);
      assert Elements(names[1..]) <= Elements(names);
      AddAllPresent(group, names[1..]);
    }
  }

  lemma {:induction false} SplitPrefix(names: seq<string>, j: nat, k: nat)
    requires Distinct(names) && j <= k <= |names|
    ensures names[..k] == names[..j] + names[j..k]
    ensures Elements(names[j..k]) == Elements(names[..k]) - Elements(names[..j])
  {
    var head, middle := names[..j], names[j..k];
    assert names[..k] == head + middle;
    assert forall x | x in middle :: x !in head;
  }

  /** Adding a prefix of a list to a prefix of it gives the longer of the two. */
  lemma {:induction false} AddAllPrefix(names: seq<string>, j: nat, k: nat)
    requires Distinct(names) && j <= |names| && k <= |names|
    ensures AddAll(names[..j], names[..k]) == names[..if j < k then k else j]
  {
    var group, added := names[..j], names[..k];
    if k <= j {
      AddAllPresent(group, added);
    } else {
      var middle := names[j..k];
      AddAllAppends(group, added);
      SplitPrefix(names, j, k);
      FilterConcat(group, middle, Elements(middle));
      FilterNone(group, Elements(middle));
      FilterAll(middle, Elements(middle));
      Sequences.EmptyUnit(middle);
    }
  }

  /** `names` lists first, in their old order, the old names it still has, and then only new ones. */
  ghost predicate OrderKept(before: seq<string>, names: seq<string>) {
    var kept := Filter(before, Elements(names));
    kept <= names && Elements(names[|kept|..]) !! Elements(before)
  }

  lemma {:induction false} OrderKeptSame(s: seq<string>)
    ensures OrderKept(s, s)
  {
    FilterAll(s, Elements(s));
  }

  lemma {:induction false} OrderKeptAppend(before: seq<string>, names: seq<string>, x: string)
    requires OrderKept(before, names) && x !in before
    ensures OrderKept(before, names + [x])
  {
    FilterCong(before, Elements(names), Elements(names + [x]));
    var k := |Filter(before, Elements(names))|;
    assert (names + [x])[k..] == names[k..] + [x];
  }

  lemma {:induction false} OrderKeptDrop(before: seq<string>, names: seq<string>, x: string)
    requires OrderKept(before, names)
    ensures OrderKept(before, Filter(names, Elements(names) - {x}))
  {
    var kept, keep := Filter(before, Elements(names)), Elements(names) - {x};
    var tail := names[|kept|..];
    assert names == kept + tail;
    FilterConcat(kept, tail, keep);
    FilterTwice(before, Elements(names), keep);
    assert Elements(Filter(names, keep)) == keep == Elements(names) * keep;
    assert Filter(names, keep)[|Filter(kept, keep)|..] == Filter(tail, keep);
    assert Elements(Filter(tail, keep)) <= Elements(tail);
  }
}
