/** The sizes that flattening stores beside the entries of lists and dictionaries, and which resources can be flattened. */
module TerraformSizes {
  import opened Wrappers
  import opened Strings
  import opened Terraform
  import opened FlatMaps
  import opened TerraformTheorems
  import opened TerraformReaders
  import Sequences

  // ---------- Which resources flatten ----------

  /** Every element of every list that is flattened is a text or again a dictionary of this kind. */
  ghost predicate Flattens(t: Tree)
    decreases t, 0
  {
    match t
    case Text(_, _) => true
    case Scalar(_) => false
    case List(_) => false
    case Dict(fields) => forall f | f in fields :: FieldFlattens(f)
  }

  ghost predicate FieldFlattens(f: Field)
    decreases f, 0
  {
    match f.value
    case Text(_, _) => true
    case Scalar(_) => true
    case Dict(_) => true
    case List(items) => forall x | x in items :: Flattens(x)
  }

  lemma {:induction false} ItemsFlatten(items: seq<Tree>, i: nat, stem: string, m: seq<Entry>)
    ensures var r := ConvertItems(items, i, stem, m);
            (r.Success? <==> forall x | x in items :: Flattens(x)) && (r.Failure? ==> r.error == AttributeError)
    decreases items, 0
  {
    if items != [] {
      var nested := Convert(items[0], stem + Decimal(i) + ".");
      ConvertSucceedsIff(items[0], stem + Decimal(i) + ".");
      Sequences.HeadTail(items);
      if nested.Success? {
        ItemsFlatten(items[1..], i + 1, stem, Update(m, nested.value));
      }
    }
  }

  lemma {:induction false} FieldsFlatten(fields: seq<Field>, p: string, m: seq<Entry>)
    ensures var r := ConvertFields(fields, p, m);
            (r.Success? <==> forall f | f in fields :: FieldFlattens(f)) && (r.Failure? ==> r.error == AttributeError)
    decreases fields, 0
  {
    if fields != [] {
      FieldFlattensIff(fields[0], p, m);
      Sequences.HeadTail(fields);
      var next := ConvertField(fields[0], p, m);
      if next.Success? {
        FieldsFlatten(fields[1..], p, next.value);
      }
    }
  }

  lemma {:induction false} FieldFlattensIff(f: Field, p: string, m: seq<Entry>)
    ensures var r := ConvertField(f, p, m);
            (r.Success? <==> FieldFlattens(f)) && (r.Failure? ==> r.error == AttributeError)
    decreases f, 0
  {
    if f.value.List? {
      var items, stem := f.value.items, p + f.key;
      ItemsFlatten(items, 0, stem + ".", if items == [] then m else PutEntry(m, stem + ".#", Count(|items|)));
    }
  }

  /** A resource flattens if and only if no list in it, at any depth that is flattened, has a number or a list as an element;
      otherwise it raises AttributeError. */
  lemma {:induction false} ConvertSucceedsIff(t: Tree, p: string)
    ensures Convert(t, p).Success? <==> Flattens(t)
    ensures Convert(t, p).Failure? ==> Convert(t, p).error == AttributeError
    decreases t, 0
  {
    if t.Dict? {
      FieldsFlatten(t.fields, p, []);
    }
  }

  // ---------- Sizes ----------

  /** The cell holds the number n. */
  predicate HoldsNumber(cell: Cell, n: nat) {
    cell.value.Scalar? && cell.value.token != "" && AllDigits(cell.value.token) && ParseNat(cell.value.token) == n
  }

  lemma {:induction false} CountIsNumber(n: nat)
    ensures HoldsNumber(Count(n), n)
  {
    ParseDecimal(n);
  }

  lemma {:induction false} BlocksSplit(fields: seq<Field>, i: nat, e: Entry)
    requires WellNamed(fields) && i < |fields| && Blocks(fields).Success? && Belongs(e.key, fields[i].key)
    ensures FieldBlock(fields[i]).Success?
    ensures e in Blocks(fields).value <==> e in FieldBlock(fields[i]).value
    decreases |fields|
  {
    var first, rest := FieldBlock(fields[0]).value, fields[1..];
    RestWellNamed(fields);
    if i == 0 {
      NotInBlocks(rest, e, fields[0].key);
    } else {
      BlocksSplit(rest, i - 1, e);
      NotInBlock(fields[0], e, fields[i].key);
    }
  }

  lemma {:induction false} NotInBlock(f: Field, e: Entry, name: string)
    requires FieldBlock(f).Success? && '.' !in f.key && '.' !in name && name != f.key && Belongs(e.key, name)
    ensures e !in FieldBlock(f).value
  {
    if e in FieldBlock(f).value {
      BlockBelongs(f);
      KeyOf(FieldBlock(f).value, e);
      OneName(e.key, f.key, name);
    }
  }

  lemma {:induction false} NotInBlocks(fields: seq<Field>, e: Entry, name: string)
    requires Blocks(fields).Success? && '.' !in name && Belongs(e.key, name)
    requires forall f | f in fields :: '.' !in f.key && f.key != name
    ensures e !in Blocks(fields).value
    decreases |fields|
  {
    if fields != [] {
      assert fields[0] in fields && forall f | f in fields[1..] :: f in fields;
      NotInBlock(fields[0], e, name);
      NotInBlocks(fields[1..], e, name);
    }
  }

  /** What is stored under a name of an attribute of a flattened resource, for any prefix. */
  lemma {:induction false} StoredUnder(fields: seq<Field>, i: nat, p: string, key: string, cell: Cell)
    requires WellNamed(fields) && i < |fields| && Convert(Dict(fields), p).Success? && Belongs(key, fields[i].key)
    ensures FieldBlock(fields[i]).Success?
    ensures Entry(p + key, cell) in Convert(Dict(fields), p).value <==> Entry(key, cell) in FieldBlock(fields[i]).value
  {
    ConvertUnder(Dict(fields), p);
    ConvertTop(fields);
    PreMember(p, Convert(Dict(fields), "").value, key, cell);
    BlocksSplit(fields, i, Entry(key, cell));
  }

  lemma {:induction false} ListBlockSize(f: Field, cell: Cell)
    requires f.value.List? && FieldBlock(f).Success?
    ensures Entry(f.key + ".#", cell) in FieldBlock(f).value <==> f.value.items != [] && cell == Count(|f.value.items|)
  {
    var items, stem := f.value.items, f.key + ".";
    var head: seq<Entry> := if items == [] then [] else [Entry("#", Count(|items|))];
    var blocks := ItemBlocks(items, 0).value;
    assert f.key + ".#" == stem + "#";
    PreMember(stem, head + blocks, "#", cell);
    NoCountInItems(items);
    if Entry("#", cell) in blocks {
      KeyOf(blocks, Entry("#", cell));
    }
  }

  /** A list attribute stores its length, as a number, under its name and ".#", if and only if it is not empty; for any
      prefix and whatever its elements are. */
  lemma {:induction false} ListSize(fields: seq<Field>, i: nat, p: string)
    requires WellNamed(fields) && i < |fields| && fields[i].value.List? && Convert(Dict(fields), p).Success?
    ensures var m, key, n := Convert(Dict(fields), p).value, p + (fields[i].key + ".#"), |fields[i].value.items|;
            && ((exists cell :: Entry(key, cell) in m) <==> n > 0)
            && forall cell | Entry(key, cell) in m :: HoldsNumber(cell, n)
  {
    var m, key, n := Convert(Dict(fields), p).value, fields[i].key + ".#", |fields[i].value.items|;
    assert StartsWith(key, fields[i].key + ".");
    CountIsNumber(n);
    forall cell
      ensures Entry(p + key, cell) in m <==> n > 0 && cell == Count(n)
    {
      StoredUnder(fields, i, p, key, cell);
      ListBlockSize(fields[i], cell);
    }
    assert n > 0 ==> Entry(p + key, Count(n)) in m;
  }

  lemma {:induction false} DictBlockSize(f: Field, cell: Cell)
    requires f.value.Dict? && FieldBlock(f).Success? && DistinctFields(f.value.fields)
    ensures Entry(f.key + ".%", cell) in FieldBlock(f).value <==>
            || Entry("%", cell) in InnerEntries(f.value.fields, "")
            || ("%" !in FieldNames(f.value.fields) && cell == Count(|f.value.fields|))
  {
    var inner, stem := f.value.fields, f.key + ".";
    var head := Entry("%", Count(|inner|));
    assert f.key + ".%" == stem + "%";
    PreMember(stem, Update([head], InnerEntries(inner, "")), "%", cell);
    InnerKeys(inner);
    Singleton(head);
    UpdateMember([head], InnerEntries(inner, ""), Entry("%", cell));
  }

  /** A dictionary attribute stores its size, as a number, under its name and ".%", unless one of its own names is "%". */
  lemma {:induction false} DictSize(fields: seq<Field>, i: nat, p: string)
    requires WellNamed(fields) && i < |fields| && fields[i].value.Dict? && Convert(Dict(fields), p).Success?
    requires DistinctFields(fields[i].value.fields) && forall f | f in fields[i].value.fields :: f.key != "%"
    ensures var m, key, n := Convert(Dict(fields), p).value, p + (fields[i].key + ".%"), |fields[i].value.fields|;
            && (exists cell :: Entry(key, cell) in m)
            && forall cell | Entry(key, cell) in m :: HoldsNumber(cell, n)
  {
    var inner := fields[i].value.fields;
    var m, key, n := Convert(Dict(fields), p).value, fields[i].key + ".%", |inner|;
    assert StartsWith(key, fields[i].key + ".");
    CountIsNumber(n);
    FieldNameAt(inner, "%");
    forall cell
      ensures Entry(p + key, cell) in m <==> cell == Count(n)
    {
      StoredUnder(fields, i, p, key, cell);
      DictBlockSize(fields[i], cell);
      InnerMember(inner, Entry("%", cell));
    }
    assert Entry(p + key, Count(n)) in m;
  }

  /** The "%" that `parse_dict` reads back holds the size as a number, unless an inner name is "%". */
  lemma {:induction false} SizeReadBack(fields: seq<Field>, i: nat)
    requires WellNamed(fields) && i < |fields| && fields[i].value.Dict? && Convert(Dict(fields), "").Success?
    requires DistinctFields(fields[i].value.fields) && forall f | f in fields[i].value.fields :: f.key != "%"
    ensures var m := ParseDict(Convert(Dict(fields), "").value, fields[i].key, '.');
            && (exists cell :: Entry("%", cell) in m)
            && forall cell | Entry("%", cell) in m :: HoldsNumber(cell, |fields[i].value.fields|)
  {
    var inner := fields[i].value.fields;
    ParseDictIs(fields, i);
    CountIsNumber(|inner|);
    FieldNameAt(inner, "%");
    forall cell
      ensures Entry("%", cell) in ParseDict(Convert(Dict(fields), "").value, fields[i].key, '.') <==> cell == Count(|inner|)
    {
      ReadMember(inner, Entry("%", cell));
      InnerMember(inner, Entry("%", cell));
    }
  }
}
