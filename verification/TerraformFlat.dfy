/** The readers on any flat state file and with any separator, as older state files and `sep='_'` need them. */
module TerraformFlat {
  import opened Wrappers
  import opened Strings
  import opened Terraform
  import opened FlatMaps
  import Sequences

  lemma {:induction false} KeyUnder(key: string, prefix: string, sep: char)
    requires sep !in prefix
    ensures prefix + [sep] <= key ==> SplitOnce(key, sep) == Some((prefix, key[|prefix| + 1..]))
    ensures !(prefix + [sep] <= key) ==> SplitOnce(key, sep).None? || SplitOnce(key, sep).value.0 != prefix
  {
    if prefix + [sep] <= key {
      assert key == prefix + [sep] + key[|prefix| + 1..];
      SplitOnceAt(prefix, sep, key[|prefix| + 1..]);
    }
  }

  /** The entries whose keys begin with a text, except one key. */
  function Under(source: seq<Entry>, stem: string, except: string): seq<Entry> {
    if source == [] then []
    else (if stem <= source[0].key && source[0].key != except then [source[0]] else []) + Under(source[1..], stem, except)
  }

  /** Reading a prefix gives, in order and without prefix and separator, exactly the entries under them but the size. */
  lemma {:induction false} PrefixIs(source: seq<Entry>, prefix: string, sep: char)
    requires sep !in prefix
    ensures Pre(prefix + [sep], ParsePrefix(source, prefix, sep)) == Under(source, prefix + [sep], prefix + [sep] + "#")
  {
    if source != [] {
      var e, stem := source[0], prefix + [sep];
      PrefixIs(source[1..], prefix, sep);
      KeyUnder(e.key, prefix, sep);
      if stem <= e.key {
        assert e.key == stem + e.key[|stem|..];
        assert e.key == stem + "#" <==> e.key[|stem|..] == "#";
      }
    }
  }

  /** A prefix that contains the separator is never found. */
  lemma {:induction false} SeparatedPrefixReadsNothing(source: seq<Entry>, prefix: string, sep: char)
    requires sep in prefix
    ensures ParsePrefix(source, prefix, sep) == []
  {
    if source != [] {
      SeparatedPrefixReadsNothing(source[1..], prefix, sep);
    }
  }

  lemma {:induction false} UnderMember(source: seq<Entry>, stem: string, except: string, e: Entry)
    ensures e in Under(source, stem, except) <==> e in source && stem <= e.key && e.key != except
  {
    if source != [] {
      UnderMember(source[1..], stem, except, e);
      Sequences.HeadTail(source);
    }
  }

  lemma {:induction false} UnderDistinct(source: seq<Entry>, stem: string, except: string)
    requires FlatMaps.Distinct(source)
    ensures FlatMaps.Distinct(Under(source, stem, except)) && Keys(Under(source, stem, except)) <= Keys(source)
  {
    if source != [] {
      var rest := Under(source[1..], stem, except);
      UnderDistinct(source[1..], stem, except);
      assert ([source[0]] + rest)[1..] == rest && [] + rest == rest;
    }
  }

  lemma {:induction false} PreDistinct(stem: string, m: seq<Entry>)
    requires FlatMaps.Distinct(Pre(stem, m))
    ensures FlatMaps.Distinct(m)
  {
    if m != [] {
      assert Pre(stem, m)[1..] == Pre(stem, m[1..]);
      PreDistinct(stem, m[1..]);
      PreKeys(stem, m[1..]);
    }
  }

  lemma {:induction false} PrefixMember(source: seq<Entry>, prefix: string, sep: char, key: string, cell: Cell)
    requires sep !in prefix
    ensures Entry(key, cell) in ParsePrefix(source, prefix, sep) <==> key != "#" && Entry(prefix + [sep] + key, cell) in source
  {
    var stem := prefix + [sep];
    PrefixIs(source, prefix, sep);
    PreMember(stem, ParsePrefix(source, prefix, sep), key, cell);
    UnderMember(source, stem, stem + "#", Entry(stem + key, cell));
    assert (stem + key)[|stem|..] == key && (stem + "#")[|stem|..] == "#";
  }

  lemma {:induction false} PrefixDistinct(source: seq<Entry>, prefix: string, sep: char)
    requires sep !in prefix && FlatMaps.Distinct(source)
    ensures FlatMaps.Distinct(ParsePrefix(source, prefix, sep))
  {
    PrefixIs(source, prefix, sep);
    UnderDistinct(source, prefix + [sep], prefix + [sep] + "#");
    PreDistinct(prefix + [sep], ParsePrefix(source, prefix, sep));
  }

  /** With any separator, `parse_dict` maps a name to what the state stores under prefix, separator and name, the size of a
      list excepted, and holds nothing else. */
  lemma {:induction false} DictReads(source: seq<Entry>, prefix: string, sep: char, key: string, cell: Cell)
    requires sep !in prefix && FlatMaps.Distinct(source)
    ensures Entry(key, cell) in ParseDict(source, prefix, sep) <==> key != "#" && Entry(prefix + [sep] + key, cell) in source
  {
    PrefixMember(source, prefix, sep, key, cell);
    PrefixDistinct(source, prefix, sep);
    UpdateAppends([], ParsePrefix(source, prefix, sep));
  }

  lemma {:induction false} PreCells(stem: string, m: seq<Entry>)
    ensures Cells(Pre(stem, m)) == Cells(m)
  {
    if m != [] {
      PreCells(stem, m[1..]);
      assert Pre(stem, m)[1..] == Pre(stem, m[1..]);
    }
  }

  /** With any separator, `parse_list` returns in order what the state stores under the prefix, the size excepted. */
  lemma {:induction false} ListReads(source: seq<Entry>, prefix: string, sep: char)
    requires sep !in prefix
    ensures ParseList(source, prefix, sep) == Cells(Under(source, prefix + [sep], prefix + [sep] + "#"))
  {
    PrefixIs(source, prefix, sep);
    PreCells(prefix + [sep], ParsePrefix(source, prefix, sep));
  }

  // ---------- Attribute lists ----------

  /** `parse_attr_list` raises if and only if a key under the prefix, other than the size, has no second separator. */
  lemma {:induction false} GroupRaisesIff(m: seq<Indexed>, pairs: seq<Entry>, sep: char)
    ensures GroupByIndex(m, pairs, sep).Success? <==> forall e | e in pairs :: sep in e.key
    ensures GroupByIndex(m, pairs, sep).Failure? ==> GroupByIndex(m, pairs, sep).error == ValueError
    decreases |pairs|
  {
    if pairs != [] {
      Sequences.HeadTail(pairs);
      match SplitOnce(pairs[0].key, sep) {
        case None =>
        case Some((idx, key)) => GroupRaisesIff(PutIndexed(m, idx, key, pairs[0].cell), pairs[1..], sep);
      }
    }
  }

  lemma {:induction false} AttrListRaisesIff(source: seq<Entry>, prefix: string, sep: char)
    requires sep !in prefix
    ensures ParseAttrList(source, prefix, sep).Failure? <==>
            exists key, cell :: key != "#" && sep !in key && Entry(prefix + [sep] + key, cell) in source
    ensures ParseAttrList(source, prefix, sep).Failure? ==> ParseAttrList(source, prefix, sep).error == ValueError
  {
    var pairs := ParsePrefix(source, prefix, sep);
    GroupRaisesIff([], pairs, sep);
    forall key, cell
      ensures Entry(key, cell) in pairs <==> key != "#" && Entry(prefix + [sep] + key, cell) in source
    {
      PrefixMember(source, prefix, sep, key, cell);
    }
    if e :| e in pairs && sep !in e.key {
      assert Entry(e.key, e.cell) in pairs;
    }
  }

  /** Each index once. */
  ghost predicate DistinctIndexes(m: seq<Indexed>) {
    forall i, j | 0 <= i < j < |m| :: m[i].idx != m[j].idx
  }

  /** The cell is stored in the group of an index under a key. */
  ghost predicate Holds(m: seq<Indexed>, idx: string, key: string, cell: Cell) {
    exists x :: x in m && x.idx == idx && Entry(key, cell) in x.attrs
  }

  lemma {:induction false} HoldsHead(m: seq<Indexed>, idx: string, key: string, cell: Cell)
    requires m != []
    ensures Holds(m, idx, key, cell) <==> (m[0].idx == idx && Entry(key, cell) in m[0].attrs) || Holds(m[1..], idx, key, cell)
  {
    Sequences.HeadTail(m);
    if Holds(m, idx, key, cell) {
      var x :| x in m && x.idx == idx && Entry(key, cell) in x.attrs;
      assert x == m[0] || x in m[1..];
    }
    if Holds(m[1..], idx, key, cell) {
      var x :| x in m[1..] && x.idx == idx && Entry(key, cell) in x.attrs;
      assert x in m;
    }
  }

  lemma {:induction false} PutHolds(m: seq<Indexed>, idx: string, key: string, cell: Cell, idx': string, key': string, cell': Cell)
    requires DistinctIndexes(m) && forall c :: !Holds(m, idx, key, c)
    ensures Holds(PutIndexed(m, idx, key, cell), idx', key', cell') <==>
            Holds(m, idx', key', cell') || (idx' == idx && key' == key && cell' == cell)
  {
    var r := PutIndexed(m, idx, key, cell);
    HoldsHead(r, idx', key', cell');
    if m == [] {
      assert !Holds(r[1..], idx', key', cell');
    } else {
      HoldsHead(m, idx', key', cell');
      forall c
        ensures !Holds(m[1..], idx, key, c) && (m[0].idx == idx ==> Entry(key, c) !in m[0].attrs)
      {
        HoldsHead(m, idx, key, c);
      }
      if m[0].idx == idx {
        NewKey(m[0].attrs, key);
        PutNewEntry(m[0].attrs, key, cell);
        assert r[1..] == m[1..];
      } else {
        assert r[1..] == PutIndexed(m[1..], idx, key, cell);
        PutHolds(m[1..], idx, key, cell, idx', key', cell');
      }
    }
  }

  lemma {:induction false} NewKey(m: seq<Entry>, key: string)
    requires forall c :: Entry(key, c) !in m
    ensures key !in Keys(m)
  {
    if m != [] {
      Sequences.HeadTail(m);
      assert Entry(m[0].key, m[0].cell) in m;
      NewKey(m[1..], key);
    }
  }

  lemma {:induction false} PutIndexes(m: seq<Indexed>, idx: string, key: string, cell: Cell)
    requires DistinctIndexes(m)
    ensures DistinctIndexes(PutIndexed(m, idx, key, cell))
    ensures forall x | x in PutIndexed(m, idx, key, cell) :: x.idx == idx || exists y :: y in m && y.idx == x.idx
  {
    if m != [] && m[0].idx != idx {
      var rest := PutIndexed(m[1..], idx, key, cell);
      PutIndexes(m[1..], idx, key, cell);
      Sequences.HeadTail(m);
      forall x | x in rest
        ensures x.idx != m[0].idx
      {
        if x.idx != idx {
          var y :| y in m[1..] && y.idx == x.idx;
        }
      }
      ConsIndexes(m[0], rest);
    }
  }

  lemma {:induction false} ConsIndexes(x: Indexed, m: seq<Indexed>)
    requires DistinctIndexes(m) && forall y | y in m :: y.idx != x.idx
    ensures DistinctIndexes([x] + m)
  {
  }

  /** The groups hold each pair under its index and key, and nothing that was not there before. */
  lemma {:induction false} GroupHolds(m: seq<Indexed>, pairs: seq<Entry>, sep: char, idx: string, key: string, cell: Cell)
    requires DistinctIndexes(m) && FlatMaps.Distinct(pairs) && GroupByIndex(m, pairs, sep).Success? && sep !in idx
    requires forall i, k, c | Holds(m, i, k, c) :: sep !in i && i + [sep] + k !in Keys(pairs)
    ensures Holds(GroupByIndex(m, pairs, sep).value, idx, key, cell) <==>
            Holds(m, idx, key, cell) || Entry(idx + [sep] + key, cell) in pairs
    ensures DistinctIndexes(GroupByIndex(m, pairs, sep).value)
    decreases |pairs|
  {
    if pairs != [] {
      var e, rest := pairs[0], pairs[1..];
      var (i, k) := SplitOnce(e.key, sep).value;
      var next := PutIndexed(m, i, k, e.cell);
      Sequences.HeadTail(pairs);
      assert e.key == i + [sep] + k;
      assert forall c :: !Holds(m, i, k, c);
      forall i', k', c'
        ensures Holds(next, i', k', c') <==> Holds(m, i', k', c') || (i' == i && k' == k && c' == e.cell)
      {
        PutHolds(m, i, k, e.cell, i', k', c');
      }
      PutIndexes(m, i, k, e.cell);
      GroupHolds(next, rest, sep, idx, key, cell);
      if idx + [sep] + key == e.key {
        FirstSeparator(idx, key, i, k, sep);
      }
    }
  }

  /** With any separator, `parse_attr_list` returns one dictionary for each index; the dictionary of an index holds a key
      exactly as the state stores it under prefix, index and key. */
  lemma {:induction false} AttrListReads(source: seq<Entry>, prefix: string, sep: char) returns (m: seq<Indexed>)
    requires sep !in prefix && sep != '#' && FlatMaps.Distinct(source) && ParseAttrList(source, prefix, sep).Success?
    ensures ParseAttrList(source, prefix, sep).value == Attributes(m) && DistinctIndexes(m)
    ensures forall idx, key, cell | sep !in idx ::
              Holds(m, idx, key, cell) <==> Entry(prefix + [sep] + (idx + [sep] + key), cell) in source
  {
    var pairs := ParsePrefix(source, prefix, sep);
    m := GroupByIndex([], pairs, sep).value;
    PrefixDistinct(source, prefix, sep);
    GroupHolds([], pairs, sep, "", "", Count(0));
    forall idx, key, cell | sep !in idx
      ensures Holds(m, idx, key, cell) <==> Entry(prefix + [sep] + (idx + [sep] + key), cell) in source
    {
      var rest := idx + [sep] + key;
      GroupHolds([], pairs, sep, idx, key, cell);
      PrefixMember(source, prefix, sep, rest, cell);
      assert rest[|idx|] == sep;
    }
  }
}
