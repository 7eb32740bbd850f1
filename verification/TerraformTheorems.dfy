/** Flattening loses nothing that its readers look for: prefixes, lists of blocks, dictionaries, lists and sizes. */
module TerraformTheorems {
  import opened Wrappers
  import opened Strings
  import opened Terraform
  import opened FlatMaps
  import Sequences

  // ---------- The prefix is only a prefix ----------

  function MapPre(prefix: string, r: Result<seq<Entry>>): Result<seq<Entry>> {
    match r
    case Success(m) => Success(Pre(prefix, m))
    case Failure(e) => Failure(e)
  }

  /** Flattening under a longer prefix prepends to every key. */
  lemma {:induction false} ConvertPrefix(t: Tree, p: string, q: string)
    ensures Convert(t, p + q) == MapPre(p, Convert(t, q))
    decreases t, 0
  {
    match t
    case Text(s, draw) =>
      var e := Entry(q + Decimal(draw), Leaf(t));
      assert (p + q) + Decimal(draw) == p + e.key;
      assert Pre(p, [e]) == [Entry(p + e.key, e.cell)];
    case Scalar(_) =>
    case List(_) =>
    case Dict(fields) =>
      FieldsPrefix(fields, p, q, []);
  }

  lemma {:induction false} FieldsPrefix(fields: seq<Field>, p: string, q: string, m: seq<Entry>)
    ensures ConvertFields(fields, p + q, Pre(p, m)) == MapPre(p, ConvertFields(fields, q, m))
    decreases fields, 0
  {
    if fields != [] {
      FieldPrefix(fields[0], p, q, m);
      if ConvertField(fields[0], q, m).Success? {
        FieldsPrefix(fields[1..], p, q, ConvertField(fields[0], q, m).value);
      }
    }
  }

  lemma {:induction false} FieldPrefix(f: Field, p: string, q: string, m: seq<Entry>)
    ensures ConvertField(f, p + q, Pre(p, m)) == MapPre(p, ConvertField(f, q, m))
    decreases f, 0
  {
    var stem := q + f.key;
    assert (p + q) + f.key == p + stem;
    assert (p + stem) + "." == p + (stem + ".") && (p + stem) + ".#" == p + (stem + ".#");
    assert (p + stem) + ".%" == p + (stem + ".%");
    match f.value
    case List(items) =>
      PrePut(p, m, stem + ".#", Count(|items|));
      ItemsPrefix(items, 0, p, stem + ".", if items == [] then m else PutEntry(m, stem + ".#", Count(|items|)));
    case Dict(inner) =>
      PrePut(p, m, stem + ".%", Count(|inner|));
      PreInner(p, stem + ".", inner);
      PreUpdate(p, PutEntry(m, stem + ".%", Count(|inner|)), InnerEntries(inner, stem + "."));
    case Text(_, _) => PrePut(p, m, stem, Leaf(f.value));
    case Scalar(_) => PrePut(p, m, stem, Leaf(f.value));
  }

  lemma {:induction false} ItemsPrefix(items: seq<Tree>, i: nat, p: string, stem: string, m: seq<Entry>)
    ensures ConvertItems(items, i, p + stem, Pre(p, m)) == MapPre(p, ConvertItems(items, i, stem, m))
    decreases items, 0
  {
    if items != [] {
      var q := stem + Decimal(i) + ".";
      assert (p + stem) + Decimal(i) + "." == p + q;
      ConvertPrefix(items[0], p, q);
      if Convert(items[0], q).Success? {
        PreUpdate(p, m, Convert(items[0], q).value);
        ItemsPrefix(items[1..], i + 1, p, stem, Update(m, Convert(items[0], q).value));
      }
    }
  }

  /** The form the readers rely on: convert(t, p) is convert(t, '') with p before every key. */
  lemma {:induction false} ConvertUnder(t: Tree, p: string)
    ensures Convert(t, p) == MapPre(p, Convert(t, ""))
  {
    assert p + "" == p;
    ConvertPrefix(t, p, "");
  }

  // ---------- Results are dictionaries ----------

  lemma {:induction false} ConvertDistinct(t: Tree, p: string)
    requires Convert(t, p).Success?
    ensures Distinct(Convert(t, p).value)
  {
    if t.Dict? {
      FieldsDistinct(t.fields, p, []);
    } else {
      var e := Convert(t, p).value;
      assert |e| == 1 && e[1..] == [];
    }
  }

  lemma {:induction false} FieldsDistinct(fields: seq<Field>, p: string, m: seq<Entry>)
    requires Distinct(m) && ConvertFields(fields, p, m).Success?
    ensures Distinct(ConvertFields(fields, p, m).value)
    decreases |fields|
  {
    if fields != [] {
      var f, stem := fields[0], p + fields[0].key;
      match f.value {
        case List(items) =>
          PutKeys(m, stem + ".#", Count(|items|));
          ItemsDistinct(items, 0, stem + ".", if items == [] then m else PutEntry(m, stem + ".#", Count(|items|)));
        case Dict(inner) =>
          PutKeys(m, stem + ".%", Count(|inner|));
          UpdateKeys(PutEntry(m, stem + ".%", Count(|inner|)), InnerEntries(inner, stem + "."));
        case Text(_, _) => PutKeys(m, stem, Leaf(f.value));
        case Scalar(_) => PutKeys(m, stem, Leaf(f.value));
      }
      FieldsDistinct(fields[1..], p, ConvertField(f, p, m).value);
    }
  }

  lemma {:induction false} ItemsDistinct(items: seq<Tree>, i: nat, stem: string, m: seq<Entry>)
    requires Distinct(m) && ConvertItems(items, i, stem, m).Success?
    ensures Distinct(ConvertItems(items, i, stem, m).value)
    decreases |items|
  {
    if items != [] {
      var nested := Convert(items[0], stem + Decimal(i) + ".").value;
      UpdateKeys(m, nested);
      ItemsDistinct(items[1..], i + 1, stem, Update(m, nested));
    }
  }

  // ---------- List elements do not collide ----------

  function ItemPrefix(i: nat): string {
    Decimal(i) + "."
  }

  lemma {:induction false} DecimalHasNoDot(i: nat)
    ensures '.' !in Decimal(i) && Decimal(i)[0] != '#' && Decimal(i)[0] != '%'
  {
    assert Decimal(i)[0] in Decimal(i);
  }

  /** A key lies under the index of at most one list element. */
  lemma {:induction false} OneIndex(stem: string, i: nat, j: nat, key: string)
    requires StartsWith(key, stem + ItemPrefix(i)) && StartsWith(key, stem + ItemPrefix(j))
    ensures i == j
  {
    var rest := key[|stem|..];
    DecimalHasNoDot(i);
    DecimalHasNoDot(j);
    var a, b := rest[|Decimal(i)| + 1..], rest[|Decimal(j)| + 1..];
    assert rest == Decimal(i) + ['.'] + a;
    assert rest == Decimal(j) + ['.'] + b;
    FirstSeparator(Decimal(i), a, Decimal(j), b, '.');
    DecimalInjective(i, j);
  }

  /** The flattenings of the elements, each under its index, one after the other. */
  function ItemBlocks(items: seq<Tree>, i: nat): Result<seq<Entry>>
    decreases |items|
  {
    if items == [] then Success([])
    else
      var first :- Convert(items[0], "");
      var rest :- ItemBlocks(items[1..], i + 1);
      Success(Pre(ItemPrefix(i), first) + rest)
  }

  ghost predicate NoneUnder(m: seq<Entry>, stem: string, from: nat) {
    forall key, j: nat | key in Keys(m) && j >= from :: !StartsWith(key, stem + ItemPrefix(j))
  }

  lemma {:induction false} ItemAppends(item: Tree, i: nat, stem: string, m: seq<Entry>)
    requires NoneUnder(m, stem, i) && Convert(item, "").Success?
    ensures var block := Pre(stem, Pre(ItemPrefix(i), Convert(item, "").value));
            && Convert(item, stem + ItemPrefix(i)) == Success(block)
            && Update(m, block) == m + block
            && NoneUnder(m + block, stem, i + 1)
  {
    var prefix, first := stem + ItemPrefix(i), Convert(item, "").value;
    ConvertUnder(item, prefix);
    PrePre(stem, ItemPrefix(i), first);
    ConvertDistinct(item, "");
    PreKeys(prefix, first);
    var block := Pre(prefix, first);
    assert forall key | key in Keys(block) :: StartsWith(key, prefix);
    UpdateAppends(m, block);
    KeysConcat(m, block);
    forall key, j: nat | key in Keys(block) && j >= i + 1
      ensures !StartsWith(key, stem + ItemPrefix(j))
    {
      if StartsWith(key, stem + ItemPrefix(j)) {
        OneIndex(stem, i, j, key);
      }
    }
  }

  lemma {:induction false} AppendTwice(m: seq<Entry>, stem: string, a: seq<Entry>, b: seq<Entry>)
    ensures m + Pre(stem, a) + Pre(stem, b) == m + Pre(stem, a + b)
  {
    Sequences.Assoc(m, Pre(stem, a), Pre(stem, b));
  }

  /** Elements are appended whole: their keys collide with nothing before them. */
  lemma {:induction false} ItemsAppend(items: seq<Tree>, i: nat, stem: string, m: seq<Entry>)
    requires NoneUnder(m, stem, i)
    ensures ConvertItems(items, i, stem, m) ==
            match ItemBlocks(items, i)
            case Success(blocks) => Success(m + Pre(stem, blocks))
            case Failure(e) => Failure(e)
    decreases |items|
  {
    if items == [] {
      assert m + Pre(stem, []) == m;
    } else {
      assert stem + Decimal(i) + "." == stem + ItemPrefix(i);
      if Convert(items[0], "").Success? {
        var first := Pre(ItemPrefix(i), Convert(items[0], "").value);
        ItemAppends(items[0], i, stem, m);
        ItemsAppend(items[1..], i + 1, stem, m + Pre(stem, first));
        if ItemBlocks(items[1..], i + 1).Success? {
          AppendTwice(m, stem, first, ItemBlocks(items[1..], i + 1).value);
        }
      } else {
        ConvertUnder(items[0], stem + ItemPrefix(i));
      }
    }
  }

  lemma {:induction false} BlocksAreIndexed(items: seq<Tree>, i: nat)
    requires ItemBlocks(items, i).Success?
    ensures forall key | key in Keys(ItemBlocks(items, i).value) :: exists j: nat :: j >= i && StartsWith(key, ItemPrefix(j))
    decreases |items|
  {
    if items != [] {
      var first, rest := Convert(items[0], "").value, ItemBlocks(items[1..], i + 1).value;
      BlocksAreIndexed(items[1..], i + 1);
      KeysConcat(Pre(ItemPrefix(i), first), rest);
      PreKeys(ItemPrefix(i), first);
    }
  }

  // ---------- Attributes do not collide ----------

  /** The flattening of one attribute. */
  function FieldBlock(f: Field): Result<seq<Entry>> {
    match f.value
    case List(items) =>
      var blocks :- ItemBlocks(items, 0);
      Success(Pre(f.key + ".", (if items == [] then [] else [Entry("#", Count(|items|))]) + blocks))
    case Dict(inner) => Success(Pre(f.key + ".", Update([Entry("%", Count(|inner|))], InnerEntries(inner, ""))))
    case Text(_, _) => Success([Entry(f.key, Leaf(f.value))])
    case Scalar(_) => Success([Entry(f.key, Leaf(f.value))])
  }

  function Blocks(fields: seq<Field>): Result<seq<Entry>> {
    if fields == [] then Success([])
    else
      var first :- FieldBlock(fields[0]);
      var rest :- Blocks(fields[1..]);
      Success(first + rest)
  }

  ghost predicate Belongs(key: string, name: string) {
    key == name || StartsWith(key, name + ".")
  }

  /** Attribute names without dots, each used once. */
  ghost predicate WellNamed(fields: seq<Field>) {
    && (forall f | f in fields :: '.' !in f.key)
    && forall i, j | 0 <= i < j < |fields| :: fields[i].key != fields[j].key
  }

  /** A key belongs to at most one dot-free name. */
  lemma {:induction false} OneName(key: string, a: string, b: string)
    requires '.' !in a && '.' !in b && Belongs(key, a) && Belongs(key, b)
    ensures a == b
  {
    if StartsWith(key, a + ".") {
      assert key[|a|] == '.';
    }
    if StartsWith(key, b + ".") {
      assert key[|b|] == '.';
    }
    if key != a && key != b {
      var ra, rb := key[|a| + 1..], key[|b| + 1..];
      assert key == a + ['.'] + ra && key == b + ['.'] + rb;
      FirstSeparator(a, ra, b, rb, '.');
    }
  }

  lemma {:induction false} BlockBelongs(f: Field)
    requires FieldBlock(f).Success?
    ensures forall key | key in Keys(FieldBlock(f).value) :: Belongs(key, f.key)
  {
    match f.value
    case List(items) =>
      PreKeys(f.key + ".", (if items == [] then [] else [Entry("#", Count(|items|))]) + ItemBlocks(items, 0).value);
    case Dict(inner) =>
      PreKeys(f.key + ".", Update([Entry("%", Count(|inner|))], InnerEntries(inner, "")));
    case Text(_, _) => assert [Entry(f.key, Leaf(f.value))][1..] == [];
    case Scalar(_) => assert [Entry(f.key, Leaf(f.value))][1..] == [];
  }

  lemma {:induction false} NotAnItem(key: string, stem: string, j: nat)
    requires !StartsWith(key, stem) || key == stem + "#"
    ensures !StartsWith(key, stem + ItemPrefix(j))
  {
    var item := stem + ItemPrefix(j);
    DecimalHasNoDot(j);
    assert item[|stem|] == Decimal(j)[0];
    StartsShorter(key, item, stem);
  }

  lemma {:induction false} StartsShorter(key: string, item: string, stem: string)
    requires stem <= item && |stem| < |item|
    ensures StartsWith(key, item) ==> StartsWith(key, stem) && |key| > |stem| && key[|stem|] == item[|stem|]
  {
  }

  lemma {:induction false} ListAppends(f: Field, m: seq<Entry>)
    requires f.value.List? && forall key | key in Keys(m) :: !Belongs(key, f.key)
    ensures ConvertField(f, "", m) ==
            match FieldBlock(f) case Success(block) => Success(m + block) case Failure(e) => Failure(e)
  {
    var items, stem := f.value.items, f.key + ".";
    assert "" + f.key == f.key;
    var head: seq<Entry> := if items == [] then [] else [Entry("#", Count(|items|))];
    assert f.key + ".#" == stem + "#";
    if items != [] {
      assert StartsWith(stem + "#", stem);
      PutNewEntry(m, stem + "#", Count(|items|));
    }
    assert Pre(stem, head) == if items == [] then [] else [Entry(stem + "#", Count(|items|))];
    var start := m + Pre(stem, head);
    KeysConcat(m, Pre(stem, head));
    forall key, j: nat | key in Keys(start)
      ensures !StartsWith(key, stem + ItemPrefix(j))
    {
      assert [Entry(stem + "#", Count(|items|))][1..] == [];
      NotAnItem(key, stem, j);
    }
    assert m + [] == m;
    ItemsAppend(items, 0, stem, start);
    if ItemBlocks(items, 0).Success? {
      AppendTwice(m, stem, head, ItemBlocks(items, 0).value);
    }
  }

  lemma {:induction false} DictAppends(f: Field, m: seq<Entry>)
    requires f.value.Dict? && forall key | key in Keys(m) :: !Belongs(key, f.key)
    ensures ConvertField(f, "", m) == Success(m + FieldBlock(f).value)
  {
    var inner, stem := f.value.fields, f.key + ".";
    var head := [Entry("%", Count(|inner|))];
    assert "" + f.key == f.key && f.key + ".%" == stem + "%" && stem + "" == stem;
    assert StartsWith(stem + "%", stem);
    PutNewEntry(m, stem + "%", Count(|inner|));
    assert Pre(stem, head) == [Entry(stem + "%", Count(|inner|))];
    PreInner(stem, "", inner);
    PreKeys(stem, InnerEntries(inner, ""));
    assert forall key | key in Keys(InnerEntries(inner, stem)) :: StartsWith(key, stem);
    UpdatePast(m, Pre(stem, head), InnerEntries(inner, stem));
    PreUpdate(stem, head, InnerEntries(inner, ""));
  }

  lemma {:induction false} FieldAppends(f: Field, m: seq<Entry>)
    requires forall key | key in Keys(m) :: !Belongs(key, f.key)
    ensures ConvertField(f, "", m) ==
            match FieldBlock(f) case Success(block) => Success(m + block) case Failure(e) => Failure(e)
  {
    match f.value
    case List(_) => ListAppends(f, m);
    case Dict(_) => DictAppends(f, m);
    case Text(_, _) =>
      assert "" + f.key == f.key;
      PutNewEntry(m, f.key, Leaf(f.value));
    case Scalar(_) =>
      assert "" + f.key == f.key;
      PutNewEntry(m, f.key, Leaf(f.value));
  }

  ghost predicate NoneBelongs(m: seq<Entry>, fields: seq<Field>) {
    forall key, f | key in Keys(m) && f in fields :: !Belongs(key, f.key)
  }

  /** What one attribute adds belongs to none of the later ones. */
  lemma {:induction false} BlockSeparates(fields: seq<Field>, m: seq<Entry>)
    requires fields != [] && WellNamed(fields) && NoneBelongs(m, fields) && FieldBlock(fields[0]).Success?
    ensures NoneBelongs(m + FieldBlock(fields[0]).value, fields[1..]) && WellNamed(fields[1..])
  {
    var f, block := fields[0], FieldBlock(fields[0]).value;
    assert f in fields && forall g | g in fields[1..] :: g in fields;
    BlockBelongs(f);
    KeysConcat(m, block);
    forall key, g | key in Keys(block) && g in fields[1..]
      ensures !Belongs(key, g.key)
    {
      var i :| 0 <= i < |fields[1..]| && fields[1..][i] == g;
      assert fields[0].key != fields[i + 1].key;
      if Belongs(key, g.key) {
        OneName(key, f.key, g.key);
      }
    }
  }

  lemma {:induction false} FieldsAppend(fields: seq<Field>, m: seq<Entry>)
    requires WellNamed(fields) && NoneBelongs(m, fields)
    ensures ConvertFields(fields, "", m) ==
            match Blocks(fields) case Success(blocks) => Success(m + blocks) case Failure(e) => Failure(e)
    decreases |fields|
  {
    if fields == [] {
      Sequences.EmptyUnit(m);
    } else {
      assert fields[0] in fields;
      FieldAppends(fields[0], m);
      if FieldBlock(fields[0]).Success? {
        var block := FieldBlock(fields[0]).value;
        BlockSeparates(fields, m);
        FieldsAppend(fields[1..], m + block);
        if Blocks(fields[1..]).Success? {
          Sequences.Assoc(m, block, Blocks(fields[1..]).value);
        }
      }
    }
  }

  /** With well-formed names at the top, a resource flattens attribute by attribute, whatever is inside them. */
  lemma {:induction false} ConvertTop(fields: seq<Field>)
    requires WellNamed(fields)
    ensures Convert(Dict(fields), "") == Blocks(fields)
  {
    FieldsAppend(fields, []);
    if Blocks(fields).Success? {
      assert [] + Blocks(fields).value == Blocks(fields).value;
    }
  }

  // ---------- Reading one attribute back ----------

  lemma {:induction false} ParseOther(m: seq<Entry>, name: string, prefix: string)
    requires '.' !in name && name != prefix
    requires forall key | key in Keys(m) :: Belongs(key, name)
    ensures ParsePrefix(m, prefix, '.') == []
  {
    if m != [] {
      var key := m[0].key;
      ParseOther(m[1..], name, prefix);
      assert key in Keys(m);
      if key != name {
        var rest := key[|name| + 1..];
        assert key == name + ['.'] + rest;
        SplitOnceAt(name, '.', rest);
      }
    }
  }

  /** Reading a prefix finds the entries of the attribute of that name and of no other. */
  lemma {:induction false} ParseBlocks(fields: seq<Field>, i: nat)
    requires WellNamed(fields) && i < |fields| && Blocks(fields).Success?
    ensures FieldBlock(fields[i]).Success?
    ensures ParsePrefix(Blocks(fields).value, fields[i].key, '.') ==
            ParsePrefix(FieldBlock(fields[i]).value, fields[i].key, '.')
    decreases |fields|
  {
    var name, rest := fields[i].key, fields[1..];
    var first, more := FieldBlock(fields[0]).value, Blocks(rest).value;
    RestWellNamed(fields);
    ParseConcat(first, more, name, '.');
    if i > 0 {
      BlockBelongs(fields[0]);
      ParseOther(first, fields[0].key, name);
      ParseBlocks(rest, i - 1);
      Sequences.EmptyUnit(ParsePrefix(more, name, '.'));
    } else {
      ParseRest(rest, name);
      Sequences.EmptyUnit(ParsePrefix(first, name, '.'));
    }
  }

  lemma {:induction false} RestWellNamed(fields: seq<Field>)
    requires fields != [] && WellNamed(fields)
    ensures WellNamed(fields[1..]) && '.' !in fields[0].key
    ensures forall f | f in fields[1..] :: '.' !in f.key && f.key != fields[0].key
  {
    assert fields[0] in fields && forall f | f in fields[1..] :: f in fields;
  }

  lemma {:induction false} ParseRest(fields: seq<Field>, prefix: string)
    requires Blocks(fields).Success? && forall f | f in fields :: '.' !in f.key && f.key != prefix
    ensures ParsePrefix(Blocks(fields).value, prefix, '.') == []
    decreases |fields|
  {
    if fields != [] {
      assert fields[0] in fields && forall f | f in fields[1..] :: f in fields;
      BlockBelongs(fields[0]);
      ParseOther(FieldBlock(fields[0]).value, fields[0].key, prefix);
      ParseRest(fields[1..], prefix);
      ParseConcat(FieldBlock(fields[0]).value, Blocks(fields[1..]).value, prefix, '.');
    }
  }

  lemma {:induction false} NoCountInItems(items: seq<Tree>)
    requires ItemBlocks(items, 0).Success?
    ensures "#" !in Keys(ItemBlocks(items, 0).value)
  {
    BlocksAreIndexed(items, 0);
    assert forall j: nat :: |ItemPrefix(j)| >= 2;
    assert forall j: nat :: !StartsWith("#", ItemPrefix(j));
  }

  /** Reading a list attribute gives the flattenings of its elements, each under its index. */
  lemma {:induction false} ParseListBlock(f: Field)
    requires f.value.List? && '.' !in f.key && FieldBlock(f).Success?
    ensures ParsePrefix(FieldBlock(f).value, f.key, '.') == ItemBlocks(f.value.items, 0).value
  {
    var items := f.value.items;
    var head: seq<Entry> := if items == [] then [] else [Entry("#", Count(|items|))];
    var blocks := ItemBlocks(items, 0).value;
    ParsePre(head + blocks, f.key, '.');
    NoCountInItems(items);
    NoCount(blocks);
    if items == [] {
      assert head + blocks == blocks;
    } else {
      assert (head + blocks)[1..] == blocks;
      assert [] + WithoutCount(blocks) == WithoutCount(blocks);
    }
  }
}
