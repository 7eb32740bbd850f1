/** Laws of the flat dictionaries the Terraform reader builds and reads. */
module FlatMaps {
  import opened Strings
  import opened Terraform
  import Sequences

  ghost function Keys(m: seq<Entry>): set<string> {
    if m == [] then {} else {m[0].key} + Keys(m[1..])
  }

  ghost predicate Distinct(m: seq<Entry>) {
    m == [] || (m[0].key !in Keys(m[1..]) && Distinct(m[1..]))
  }

  lemma {:induction false} KeysConcat(a: seq<Entry>, b: seq<Entry>)
    ensures Keys(a + b) == Keys(a) + Keys(b)
  {
    if a == [] {
      assert a + b == b;
    } else {
      KeysConcat(a[1..], b);
      assert (a + b)[1..] == a[1..] + b;
    }
  }

  lemma {:induction false} Singleton(e: Entry)
    ensures Keys([e]) == {e.key} && Distinct([e])
  {
    assert [e][1..] == [];
  }

  lemma {:induction false} PutKeys(m: seq<Entry>, key: string, cell: Cell)
    ensures Keys(PutEntry(m, key, cell)) == Keys(m) + {key}
    ensures Distinct(m) ==> Distinct(PutEntry(m, key, cell))
  {
    if m != [] {
      PutKeys(m[1..], key, cell);
    }
  }

  /** A new key goes to the end, past everything before it. */
  lemma {:induction false} PutPast(a: seq<Entry>, b: seq<Entry>, key: string, cell: Cell)
    requires key !in Keys(a)
    ensures PutEntry(a + b, key, cell) == a + PutEntry(b, key, cell)
  {
    if a == [] {
      assert a + b == b;
    } else {
      PutPast(a[1..], b, key, cell);
      assert (a + b)[1..] == a[1..] + b;
    }
  }

  lemma {:induction false} PutNewEntry(m: seq<Entry>, key: string, cell: Cell)
    requires key !in Keys(m)
    ensures PutEntry(m, key, cell) == m + [Entry(key, cell)]
  {
    PutPast(m, [], key, cell);
    assert m + [] == m;
  }

  lemma {:induction false} UpdateKeys(m: seq<Entry>, added: seq<Entry>)
    ensures Keys(Update(m, added)) == Keys(m) + Keys(added)
    ensures Distinct(m) ==> Distinct(Update(m, added))
    decreases |added|
  {
    if added != [] {
      PutKeys(m, added[0].key, added[0].cell);
      UpdateKeys(PutEntry(m, added[0].key, added[0].cell), added[1..]);
    }
  }

  lemma {:induction false} UpdatePast(a: seq<Entry>, b: seq<Entry>, added: seq<Entry>)
    requires Keys(a) !! Keys(added)
    ensures Update(a + b, added) == a + Update(b, added)
    decreases |added|
  {
    if added != [] {
      PutPast(a, b, added[0].key, added[0].cell);
      UpdatePast(a, PutEntry(b, added[0].key, added[0].cell), added[1..]);
    }
  }

  /** Merging a dictionary with other keys appends it. */
  lemma {:induction false} UpdateAppends(m: seq<Entry>, added: seq<Entry>)
    requires Distinct(added) && Keys(m) !! Keys(added)
    ensures Update(m, added) == m + added
    decreases |added|
  {
    if added != [] {
      var first, rest := added[0], added[1..];
      PutNewEntry(m, first.key, first.cell);
      KeysConcat(m, [first]);
      assert [first][1..] == [];
      UpdateAppends(m + [first], rest);
      assert m + [first] + rest == m + added;
    }
  }

  lemma {:induction false} PrePre(p: string, q: string, m: seq<Entry>)
    ensures Pre(p, Pre(q, m)) == Pre(p + q, m)
  {
    forall i | 0 <= i < |m|
      ensures Pre(p, Pre(q, m))[i] == Pre(p + q, m)[i]
    {
      assert p + (q + m[i].key) == (p + q) + m[i].key;
    }
  }

  lemma {:induction false} PreKeys(prefix: string, m: seq<Entry>)
    ensures Keys(Pre(prefix, m)) == set k | k in Keys(m) :: prefix + k
    ensures Distinct(m) ==> Distinct(Pre(prefix, m))
  {
    if m != [] {
      PreKeys(prefix, m[1..]);
      assert Pre(prefix, m)[1..] == Pre(prefix, m[1..]);
      if Distinct(m) {
        forall k | k in Keys(m[1..])
          ensures prefix + k != prefix + m[0].key
        {
          assert (prefix + k)[|prefix|..] == k && (prefix + m[0].key)[|prefix|..] == m[0].key;
        }
      }
    }
  }

  lemma {:induction false} PreMember(p: string, m: seq<Entry>, key: string, cell: Cell)
    ensures Entry(p + key, cell) in Pre(p, m) <==> Entry(key, cell) in m
  {
    if Entry(p + key, cell) in Pre(p, m) {
      var i :| 0 <= i < |m| && Pre(p, m)[i] == Entry(p + key, cell);
      assert (p + m[i].key)[|p|..] == m[i].key && (p + key)[|p|..] == key;
      assert m[i] == Entry(key, cell);
    }
    if Entry(key, cell) in m {
      var i :| 0 <= i < |m| && m[i] == Entry(key, cell);
      assert Pre(p, m)[i] == Entry(p + key, cell);
    }
  }

  lemma {:induction false} PrePut(prefix: string, m: seq<Entry>, key: string, cell: Cell)
    ensures PutEntry(Pre(prefix, m), prefix + key, cell) == Pre(prefix, PutEntry(m, key, cell))
  {
    if m != [] {
      PrePut(prefix, m[1..], key, cell);
      assert Pre(prefix, m)[1..] == Pre(prefix, m[1..]);
      assert (prefix + m[0].key)[|prefix|..] == m[0].key && (prefix + key)[|prefix|..] == key;
    }
  }

  lemma {:induction false} PreUpdate(prefix: string, m: seq<Entry>, added: seq<Entry>)
    ensures Update(Pre(prefix, m), Pre(prefix, added)) == Pre(prefix, Update(m, added))
    decreases |added|
  {
    if added != [] {
      PrePut(prefix, m, added[0].key, added[0].cell);
      PreUpdate(prefix, PutEntry(m, added[0].key, added[0].cell), added[1..]);
      assert Pre(prefix, added)[1..] == Pre(prefix, added[1..]);
    }
  }

  lemma {:induction false} PreInner(prefix: string, stem: string, inner: seq<Field>)
    ensures InnerEntries(inner, prefix + stem) == Pre(prefix, InnerEntries(inner, stem))
  {
    forall i | 0 <= i < |inner|
      ensures InnerEntries(inner, prefix + stem)[i] == Pre(prefix, InnerEntries(inner, stem))[i]
    {
      assert prefix + (stem + inner[i].key) == (prefix + stem) + inner[i].key;
    }
  }

  lemma {:induction false} ParseConcat(a: seq<Entry>, b: seq<Entry>, prefix: string, sep: char)
    ensures ParsePrefix(a + b, prefix, sep) == ParsePrefix(a, prefix, sep) + ParsePrefix(b, prefix, sep)
  {
    if a == [] {
      Sequences.EmptyUnit(b);
      Sequences.EmptyUnit(ParsePrefix(b, prefix, sep));
    } else {
      var rest, more := ParsePrefix(a[1..], prefix, sep), ParsePrefix(b, prefix, sep);
      ParseConcat(a[1..], b, prefix, sep);
      Sequences.AppendTail(a, b);
      if SplitOnce(a[0].key, sep).Some? {
        Sequences.Assoc([Entry(SplitOnce(a[0].key, sep).value.1, a[0].cell)], rest, more);
      }
    }
  }

  /** Reading back a prefix drops it, and the entry "#" with it. */
  lemma {:induction false} ParsePre(m: seq<Entry>, prefix: string, sep: char)
    requires sep !in prefix
    ensures ParsePrefix(Pre(prefix + [sep], m), prefix, sep) == WithoutCount(m)
  {
    if m != [] {
      ParsePre(m[1..], prefix, sep);
      assert Pre(prefix + [sep], m)[1..] == Pre(prefix + [sep], m[1..]);
      SplitOnceAt(prefix, sep, m[0].key);
    }
  }

  ghost function WithoutCount(m: seq<Entry>): seq<Entry> {
    if m == [] then [] else (if m[0].key == "#" then [] else [m[0]]) + WithoutCount(m[1..])
  }

  lemma {:induction false} NoCount(m: seq<Entry>)
    requires "#" !in Keys(m)
    ensures WithoutCount(m) == m
  {
    if m != [] {
      NoCount(m[1..]);
    }
  }

  lemma {:induction false} WithoutCountKeys(m: seq<Entry>)
    ensures Keys(WithoutCount(m)) == Keys(m) - {"#"}
    ensures Distinct(m) ==> Distinct(WithoutCount(m))
  {
    if m != [] {
      WithoutCountKeys(m[1..]);
      var rest := WithoutCount(m[1..]);
      assert [] + rest == rest && ([m[0]] + rest)[1..] == rest;
    }
  }

  // ---------- Which entries a dictionary holds ----------

  lemma {:induction false} KeyOf(m: seq<Entry>, e: Entry)
    requires e in m
    ensures e.key in Keys(m)
  {
    if e != m[0] {
      KeyOf(m[1..], e);
    }
  }

  lemma {:induction false} PutMember(m: seq<Entry>, key: string, cell: Cell, e: Entry)
    requires Distinct(m)
    ensures e in PutEntry(m, key, cell) <==> e == Entry(key, cell) || (e in m && e.key != key)
  {
    if m != [] {
      PutMember(m[1..], key, cell, e);
      Sequences.HeadTail(m);
      if m[0].key == key && e in m[1..] {
        KeyOf(m[1..], e);
      }
    }
  }

  /** A merge holds the new entries, and the old ones whose keys are not new. */
  lemma {:induction false} UpdateMember(m: seq<Entry>, added: seq<Entry>, e: Entry)
    requires Distinct(m) && Distinct(added)
    ensures e in Update(m, added) <==> e in added || (e in m && e.key !in Keys(added))
    decreases |added|
  {
    if added != [] {
      var first, rest := added[0], added[1..];
      PutKeys(m, first.key, first.cell);
      PutMember(m, first.key, first.cell, e);
      UpdateMember(PutEntry(m, first.key, first.cell), rest, e);
      Sequences.HeadTail(added);
    }
  }

  lemma {:induction false} WithoutCountMember(m: seq<Entry>, e: Entry)
    ensures e in WithoutCount(m) <==> e in m && e.key != "#"
  {
    if m != [] {
      WithoutCountMember(m[1..], e);
      Sequences.HeadTail(m);
    }
  }
}
