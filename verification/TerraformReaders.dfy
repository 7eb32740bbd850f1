/** Round trips: what `parse_attr_list`, `parse_dict` and `parse_list` recover from a flattened resource. */
module TerraformReaders {
  import opened Wrappers
  import opened Strings
  import opened Terraform
  import opened FlatMaps
  import opened TerraformTheorems
  import Sequences

  // ---------- Lists of blocks ----------

  /** The elements that flatten to something, flattened. */
  function Flattened(items: seq<Tree>): seq<seq<Entry>> {
    if items == [] then []
    else
      var rest := Flattened(items[1..]);
      match Convert(items[0], "")
      case Success(m) => if m == [] then rest else [m] + rest
      case Failure(_) => rest
  }

  ghost predicate NoIndex(m: seq<Indexed>, idx: string) {
    forall x | x in m :: x.idx != idx
  }

  lemma {:induction false} PutNewIndex(m: seq<Indexed>, idx: string, key: string, cell: Cell)
    requires NoIndex(m, idx)
    ensures PutIndexed(m, idx, key, cell) == m + [Indexed(idx, [Entry(key, cell)])]
  {
    if m != [] {
      PutNewIndex(m[1..], idx, key, cell);
      assert m == [m[0]] + m[1..];
    }
  }

  lemma {:induction false} PutLastIndex(m: seq<Indexed>, idx: string, attrs: seq<Entry>, key: string, cell: Cell)
    requires NoIndex(m, idx)
    ensures PutIndexed(m + [Indexed(idx, attrs)], idx, key, cell) == m + [Indexed(idx, PutEntry(attrs, key, cell))]
  {
    if m != [] {
      PutLastIndex(m[1..], idx, attrs, key, cell);
      assert (m + [Indexed(idx, attrs)])[1..] == m[1..] + [Indexed(idx, attrs)];
    }
  }

  lemma {:induction false} GroupOne(m: seq<Indexed>, idx: string, e: Entry, pairs: seq<Entry>)
    requires '.' !in idx && pairs != [] && pairs[0] == Entry(idx + "." + e.key, e.cell)
    ensures GroupByIndex(m, pairs, '.') == GroupByIndex(PutIndexed(m, idx, e.key, e.cell), pairs[1..], '.')
  {
    SplitOnceAt(idx, '.', e.key);
  }

  lemma {:induction false} PreSplit(prefix: string, m: seq<Entry>, rest: seq<Entry>)
    requires m != []
    ensures var pairs := Pre(prefix, m) + rest;
            pairs != [] && pairs[0] == Entry(prefix + m[0].key, m[0].cell) && pairs[1..] == Pre(prefix, m[1..]) + rest
  {
  }

  lemma {:induction false} GroupNext(m: seq<Indexed>, idx: string, attrs: seq<Entry>, e: Entry, pairs: seq<Entry>)
    requires NoIndex(m, idx) && '.' !in idx && e.key !in Keys(attrs)
    requires pairs != [] && pairs[0] == Entry(idx + "." + e.key, e.cell)
    ensures GroupByIndex(m + [Indexed(idx, attrs)], pairs, '.') ==
            GroupByIndex(m + [Indexed(idx, attrs + [e])], pairs[1..], '.')
    ensures Keys(attrs + [e]) == Keys(attrs) + {e.key}
  {
    GroupOne(m + [Indexed(idx, attrs)], idx, e, pairs);
    PutLastIndex(m, idx, attrs, e.key, e.cell);
    PutNewEntry(attrs, e.key, e.cell);
    KeysConcat(attrs, [e]);
    Singleton(e);
  }

  lemma {:induction false} MoveHead<T>(a: seq<T>, b: seq<T>)
    requires b != []
    ensures a + [b[0]] + b[1..] == a + b
  {
    Sequences.HeadTail(b);
    Sequences.Assoc(a, [b[0]], b[1..]);
  }

  /** The entries of one element are gathered under its index, in order. */
  lemma {:induction false} GroupRest(m: seq<Indexed>, idx: string, attrs: seq<Entry>, added: seq<Entry>, rest: seq<Entry>)
    requires NoIndex(m, idx) && '.' !in idx && FlatMaps.Distinct(added) && Keys(attrs) !! Keys(added)
    ensures GroupByIndex(m + [Indexed(idx, attrs)], Pre(idx + ".", added) + rest, '.') ==
            GroupByIndex(m + [Indexed(idx, attrs + added)], rest, '.')
    decreases |added|
  {
    if added == [] {
      assert Pre(idx + ".", added) + rest == rest && attrs + added == attrs;
    } else {
      PreSplit(idx + ".", added, rest);
      GroupNext(m, idx, attrs, added[0], Pre(idx + ".", added) + rest);
      MoveHead(attrs, added);
      GroupRest(m, idx, attrs + [added[0]], added[1..], rest);
    }
  }

  lemma {:induction false} GroupBlock(m: seq<Indexed>, idx: string, block: seq<Entry>, rest: seq<Entry>)
    requires NoIndex(m, idx) && '.' !in idx && FlatMaps.Distinct(block) && block != []
    ensures GroupByIndex(m, Pre(idx + ".", block) + rest, '.') == GroupByIndex(m + [Indexed(idx, block)], rest, '.')
  {
    var first, more := block[0], block[1..];
    PreSplit(idx + ".", block, rest);
    GroupOne(m, idx, first, Pre(idx + ".", block) + rest);
    PutNewIndex(m, idx, first.key, first.cell);
    assert [first][1..] == [];
    GroupRest(m, idx, [first], more, rest);
    assert [first] + more == block;
  }

  lemma {:induction false} AttributesAppend(m: seq<Indexed>, x: Indexed)
    ensures Attributes(m + [x]) == Attributes(m) + [x.attrs]
  {
    if m != [] {
      AttributesAppend(m[1..], x);
      assert (m + [x])[1..] == m[1..] + [x];
    }
  }

  ghost predicate IndexedBelow(m: seq<Indexed>, i: nat) {
    forall x | x in m :: exists j: nat :: j < i && x.idx == Decimal(j)
  }

  lemma {:induction false} NewIndex(m: seq<Indexed>, i: nat, block: seq<Entry>)
    requires IndexedBelow(m, i)
    ensures NoIndex(m, Decimal(i)) && IndexedBelow(m + [Indexed(Decimal(i), block)], i + 1)
  {
    forall x | x in m
      ensures x.idx != Decimal(i)
    {
      var j: nat :| j < i && x.idx == Decimal(j);
      if Decimal(j) == Decimal(i) {
        DecimalInjective(j, i);
      }
    }
  }

  lemma {:induction false} GroupItem(item: Tree, i: nat, m: seq<Indexed>, rest: seq<Entry>)
    requires Convert(item, "").Success? && Convert(item, "").value != [] && IndexedBelow(m, i)
    ensures var m' := m + [Indexed(Decimal(i), Convert(item, "").value)];
            && GroupByIndex(m, Pre(ItemPrefix(i), Convert(item, "").value) + rest, '.') == GroupByIndex(m', rest, '.')
            && IndexedBelow(m', i + 1)
            && Attributes(m') == Attributes(m) + [Convert(item, "").value]
  {
    var block := Convert(item, "").value;
    DecimalHasNoDot(i);
    ConvertDistinct(item, "");
    NewIndex(m, i, block);
    GroupBlock(m, Decimal(i), block, rest);
    AttributesAppend(m, Indexed(Decimal(i), block));
  }

  lemma {:induction false} SkipEmpty(prefix: string, rest: seq<Entry>)
    ensures Pre(prefix, []) + rest == rest
  {
  }

  lemma {:induction false} GroupItems(items: seq<Tree>, i: nat, m: seq<Indexed>)
    requires ItemBlocks(items, i).Success? && IndexedBelow(m, i)
    ensures GroupByIndex(m, ItemBlocks(items, i).value, '.').Success?
    ensures Attributes(GroupByIndex(m, ItemBlocks(items, i).value, '.').value) == Attributes(m) + Flattened(items)
    decreases |items|
  {
    if items == [] {
      assert Attributes(m) + [] == Attributes(m);
    } else {
      var block, rest := Convert(items[0], "").value, ItemBlocks(items[1..], i + 1).value;
      assert ItemBlocks(items, i).value == Pre(ItemPrefix(i), block) + rest;
      if block == [] {
        SkipEmpty(ItemPrefix(i), rest);
        GroupItems(items[1..], i + 1, m);
      } else {
        GroupItem(items[0], i, m, rest);
        GroupItems(items[1..], i + 1, m + [Indexed(Decimal(i), block)]);
        Sequences.Assoc(Attributes(m), [block], Flattened(items[1..]));
      }
    }
  }

  /** `parse_attr_list` recovers, in order, the flattening of every element that is not empty once flattened,
      whatever is nested inside and whatever suffixes were drawn. */
  lemma {:induction false} AttrListRoundTrip(fields: seq<Field>, i: nat)
    requires WellNamed(fields) && i < |fields| && fields[i].value.List? && Convert(Dict(fields), "").Success?
    ensures ParseAttrList(Convert(Dict(fields), "").value, fields[i].key, '.') == Success(Flattened(fields[i].value.items))
  {
    var items := fields[i].value.items;
    ConvertTop(fields);
    ParseBlocks(fields, i);
    assert fields[i] in fields;
    ParseListBlock(fields[i]);
    GroupItems(items, 0, []);
    assert [] + Flattened(items) == Flattened(items);
  }

  // ---------- Lists of strings ----------

  function Leaves(items: seq<Tree>): seq<Cell> {
    if items == [] then [] else [Leaf(items[0])] + Leaves(items[1..])
  }

  lemma {:induction false} TextBlocks(items: seq<Tree>, i: nat)
    requires forall t | t in items :: t.Text?
    ensures ItemBlocks(items, i).Success? && Cells(ItemBlocks(items, i).value) == Leaves(items)
    decreases |items|
  {
    if items != [] {
      assert items[0] in items && forall t | t in items[1..] :: t in items;
      TextBlocks(items[1..], i + 1);
      var first, rest := Pre(ItemPrefix(i), Convert(items[0], "").value), ItemBlocks(items[1..], i + 1).value;
      assert |first| == 1 && (first + rest)[1..] == rest;
    }
  }

  /** `parse_list` recovers a list of strings in its order, for every choice of the random suffixes. */
  lemma {:induction false} ListRoundTrip(fields: seq<Field>, i: nat)
    requires WellNamed(fields) && i < |fields| && fields[i].value.List? && Convert(Dict(fields), "").Success?
    requires forall t | t in fields[i].value.items :: t.Text?
    ensures ParseList(Convert(Dict(fields), "").value, fields[i].key, '.') == Leaves(fields[i].value.items)
  {
    ConvertTop(fields);
    ParseBlocks(fields, i);
    assert fields[i] in fields;
    ParseListBlock(fields[i]);
    TextBlocks(fields[i].value.items, 0);
  }

  // ---------- Dictionaries ----------

  ghost predicate DistinctFields(fields: seq<Field>) {
    forall i, j | 0 <= i < j < |fields| :: fields[i].key != fields[j].key
  }

  ghost function FieldNames(fields: seq<Field>): set<string> {
    if fields == [] then {} else {fields[0].key} + FieldNames(fields[1..])
  }

  lemma {:induction false} FieldNameAt(fields: seq<Field>, x: string)
    ensures x in FieldNames(fields) <==> exists f :: f in fields && f.key == x
  {
    if fields != [] {
      FieldNameAt(fields[1..], x);
      assert fields == [fields[0]] + fields[1..];
    }
  }

  lemma {:induction false} RestDistinct(fields: seq<Field>)
    requires fields != [] && DistinctFields(fields)
    ensures DistinctFields(fields[1..]) && fields[0].key !in FieldNames(fields[1..])
  {
    FieldNameAt(fields[1..], fields[0].key);
    assert forall j | 0 <= j < |fields[1..]| :: fields[1..][j].key == fields[j + 1].key != fields[0].key;
  }

  lemma {:induction false} InnerKeys(inner: seq<Field>)
    ensures Keys(InnerEntries(inner, "")) == FieldNames(inner)
    ensures DistinctFields(inner) ==> FlatMaps.Distinct(InnerEntries(inner, ""))
  {
    if inner != [] {
      InnerKeys(inner[1..]);
      Sequences.EmptyUnit(inner[0].key);
      if DistinctFields(inner) {
        RestDistinct(inner);
      }
    }
  }

  /** The dictionary attribute as a reader should see it: its size under "%", then its entries. */
  function Expected(inner: seq<Field>): seq<Entry> {
    [Entry("%", Count(|inner|))] + InnerEntries(inner, "")
  }

  lemma {:induction false} ReadDict(name: string, m: seq<Entry>, e: Entry, entries: seq<Entry>)
    requires '.' !in name && m == Update([e], entries)
    ensures Update([], ParsePrefix(Pre(name + ".", m), name, '.')) == WithoutCount(m)
    ensures FlatMaps.Distinct(WithoutCount(m)) && "#" !in Keys(WithoutCount(m))
  {
    ParsePre(m, name, '.');
    Singleton(e);
    UpdateKeys([e], entries);
    WithoutCountKeys(m);
    UpdateAppends([], WithoutCount(m));
    assert [] + WithoutCount(m) == WithoutCount(m);
  }

  /** What `parse_dict` returns for a dictionary attribute, exactly. */
  lemma {:induction false} ParseDictIs(fields: seq<Field>, i: nat)
    requires WellNamed(fields) && i < |fields| && fields[i].value.Dict? && Convert(Dict(fields), "").Success?
    ensures var inner := fields[i].value.fields;
            ParseDict(Convert(Dict(fields), "").value, fields[i].key, '.') ==
            WithoutCount(Update([Entry("%", Count(|inner|))], InnerEntries(inner, "")))
  {
    var f, inner := fields[i], fields[i].value.fields;
    var head := Entry("%", Count(|inner|));
    ConvertTop(fields);
    ParseBlocks(fields, i);
    assert f in fields;
    ReadDict(f.key, Update([head], InnerEntries(inner, "")), head, InnerEntries(inner, ""));
  }

  /** The dictionary holds the entries of the attribute, its size under "%", and nothing else. */
  ghost predicate Recovers(m: seq<Entry>, inner: seq<Field>) {
    forall e :: e in m <==> e == Entry("%", Count(|inner|)) || e in InnerEntries(inner, "")
  }

  lemma {:induction false} InnerMember(inner: seq<Field>, e: Entry)
    ensures e in InnerEntries(inner, "") <==> exists f :: f in inner && f.key == e.key && Leaf(f.value) == e.cell
  {
    if inner != [] {
      InnerMember(inner[1..], e);
      Sequences.EmptyUnit(inner[0].key);
      Sequences.HeadTail(inner);
    }
  }

  lemma {:induction false} ReadMember(inner: seq<Field>, e: Entry)
    requires DistinctFields(inner)
    ensures var head := Entry("%", Count(|inner|));
            e in WithoutCount(Update([head], InnerEntries(inner, ""))) <==>
            e.key != "#" && (e in InnerEntries(inner, "") || (e == head && "%" !in FieldNames(inner)))
  {
    var head, entries := Entry("%", Count(|inner|)), InnerEntries(inner, "");
    InnerKeys(inner);
    Singleton(head);
    UpdateMember([head], entries, e);
    WithoutCountMember(Update([head], entries), e);
  }

  /** No inner name is "#", and one named "%" holds the number of entries. */
  ghost predicate Recoverable(inner: seq<Field>) {
    forall f | f in inner :: f.key != "#" && (f.key == "%" ==> Leaf(f.value) == Count(|inner|))
  }

  /** `parse_dict` recovers a dictionary attribute and its size, if and only if no inner name is "#" and an inner name "%"
      holds just that size; without an inner "%" the size comes first and the entries follow in their order. */
  lemma {:induction false} DictRoundTrip(fields: seq<Field>, i: nat)
    requires WellNamed(fields) && i < |fields| && fields[i].value.Dict? && Convert(Dict(fields), "").Success?
    requires DistinctFields(fields[i].value.fields)
    ensures var inner := fields[i].value.fields;
            Recovers(ParseDict(Convert(Dict(fields), "").value, fields[i].key, '.'), inner) <==> Recoverable(inner)
    ensures var inner := fields[i].value.fields;
            Recoverable(inner) && "%" !in FieldNames(inner) ==>
              ParseDict(Convert(Dict(fields), "").value, fields[i].key, '.') == Expected(inner)
  {
    var inner := fields[i].value.fields;
    ParseDictIs(fields, i);
    RecoveredIff(inner);
    RecoveredInOrder(inner);
  }

  lemma {:induction false} RecoveredIff(inner: seq<Field>)
    requires DistinctFields(inner)
    ensures Recovers(WithoutCount(Update([Entry("%", Count(|inner|))], InnerEntries(inner, ""))), inner) <==> Recoverable(inner)
  {
    var head, entries := Entry("%", Count(|inner|)), InnerEntries(inner, "");
    var m := WithoutCount(Update([head], entries));
    if Recoverable(inner) {
      forall e
        ensures e in m <==> e == head || e in entries
      {
        ReadMember(inner, e);
        InnerMember(inner, e);
        FieldNameAt(inner, "%");
      }
    }
    if Recovers(m, inner) {
      forall f | f in inner
        ensures f.key != "#" && (f.key == "%" ==> Leaf(f.value) == Count(|inner|))
      {
        RecoveredField(inner, m, f);
      }
    }
  }

  lemma {:induction false} RecoveredField(inner: seq<Field>, m: seq<Entry>, f: Field)
    requires DistinctFields(inner) && f in inner && Recovers(m, inner)
    requires m == WithoutCount(Update([Entry("%", Count(|inner|))], InnerEntries(inner, "")))
    ensures f.key != "#" && (f.key == "%" ==> Leaf(f.value) == Count(|inner|))
  {
    var head, own := Entry("%", Count(|inner|)), Entry(f.key, Leaf(f.value));
    InnerMember(inner, own);
    ReadMember(inner, own);
    if f.key == "%" {
      ReadMember(inner, head);
      FieldNameAt(inner, "%");
      InnerMember(inner, head);
    }
  }

  lemma {:induction false} RecoveredInOrder(inner: seq<Field>)
    requires DistinctFields(inner)
    ensures Recoverable(inner) && "%" !in FieldNames(inner) ==>
              WithoutCount(Update([Entry("%", Count(|inner|))], InnerEntries(inner, ""))) == Expected(inner)
  {
    var head, entries := [Entry("%", Count(|inner|))], InnerEntries(inner, "");
    InnerKeys(inner);
    Singleton(head[0]);
    FieldNameAt(inner, "#");
    if Recoverable(inner) && "%" !in FieldNames(inner) {
      UpdateAppends(head, entries);
      UpdateKeys(head, entries);
      NoCount(Update(head, entries));
    }
  }

  // ---------- Nothing is lost ----------

  /** Names are dot-free and distinct at every level that is flattened, and no dictionary attribute has a name "%". */
  ghost predicate Plain(t: Tree)
    decreases t, 0
  {
    match t
    case Text(_, _) => true
    case Scalar(_) => true
    case List(items) => forall x | x in items :: Plain(x)
    case Dict(fields) => WellNamed(fields) && forall f | f in fields :: PlainField(f)
  }

  ghost predicate PlainField(f: Field)
    decreases f, 0
  {
    match f.value
    case Text(_, _) => true
    case Scalar(_) => true
    case List(items) => forall x | x in items :: Plain(x)
    case Dict(inner) => DistinctFields(inner) && "%" !in FieldNames(inner)
  }

  /** Scalars, string elements, entries of dictionary attributes, and one count per dictionary or non-empty list. */
  function Size(t: Tree): nat
    decreases t, 0
  {
    match t
    case Text(_, _) => 1
    case Scalar(_) => 1
    case List(items) => (if items == [] then 0 else 1) + SizeItems(items)
    case Dict(fields) => SizeFields(fields)
  }

  function SizeItems(items: seq<Tree>): nat
    decreases items, 0
  {
    if items == [] then 0 else Size(items[0]) + SizeItems(items[1..])
  }

  function SizeFields(fields: seq<Field>): nat
    decreases fields, 0
  {
    if fields == [] then 0 else SizeField(fields[0]) + SizeFields(fields[1..])
  }

  function SizeField(f: Field): nat
    decreases f, 0
  {
    if f.value.Dict? then 1 + |f.value.fields| else Size(f.value)
  }

  lemma {:induction false} ItemsSize(items: seq<Tree>, i: nat)
    requires ItemBlocks(items, i).Success? && forall x | x in items :: Plain(x)
    ensures |ItemBlocks(items, i).value| == SizeItems(items)
    decreases items, 0
  {
    if items != [] {
      assert items[0] in items && forall x | x in items[1..] :: x in items;
      NothingLost(items[0]);
      ItemsSize(items[1..], i + 1);
    }
  }

  lemma {:induction false} FieldSize(f: Field)
    requires FieldBlock(f).Success? && PlainField(f)
    ensures |FieldBlock(f).value| == SizeField(f)
    decreases f, 0
  {
    match f.value
    case Text(_, _) =>
    case Scalar(_) =>
    case List(items) =>
      ItemsSize(items, 0);
    case Dict(inner) =>
      var head := [Entry("%", Count(|inner|))];
      InnerKeys(inner);
      assert head[1..] == [];
      UpdateAppends(head, InnerEntries(inner, ""));
  }

  lemma {:induction false} BlocksSize(fields: seq<Field>)
    requires Blocks(fields).Success? && forall f | f in fields :: PlainField(f)
    ensures |Blocks(fields).value| == SizeFields(fields)
    decreases fields, 0
  {
    if fields != [] {
      assert fields[0] in fields && forall f | f in fields[1..] :: f in fields;
      FieldSize(fields[0]);
      BlocksSize(fields[1..]);
    }
  }

  /** No two keys collide: every value of a plain tree has its own entry, for every choice of the random suffixes. */
  lemma {:induction false} NothingLost(t: Tree)
    requires Plain(t) && Convert(t, "").Success?
    ensures |Convert(t, "").value| == Size(t)
    decreases t, 0
  {
    if t.Dict? {
      ConvertTop(t.fields);
      BlocksSize(t.fields);
    }
  }
}
