/** The Terraform state flattener and the readers of flat attributes (contrib/terraform/terraform.py). */
module Terraform {
  import opened Wrappers
  import opened Strings

  /**
   * JSON attributes. A text carries the random number `randint` draws if the text is flattened as a list element:
   * each text is drawn for at most once, so a tree stands for its value together with any outcome of the draws.
   */
  datatype Tree =
    | Text(s: string, draw: nat)
    | Scalar(token: string)
    | List(items: seq<Tree>)
    | Dict(fields: seq<Field>)

  datatype Field = Field(key: string, value: Tree)

  datatype Cell = Leaf(value: Tree)

  /** A length is stored as the number it is: the same value an attribute may hold. */
  function Count(n: nat): Cell {
    Leaf(Scalar(Decimal(n)))
  }

  /** A Python dictionary from flat keys to cells is a list of entries with distinct keys, in insertion order. */
  datatype Entry = Entry(key: string, cell: Cell)

  /** `m[key] = cell` */
  function PutEntry(m: seq<Entry>, key: string, cell: Cell): seq<Entry> {
    if m == [] then [Entry(key, cell)]
    else if m[0].key == key then [Entry(key, cell)] + m[1..]
    else [m[0]] + PutEntry(m[1..], key, cell)
  }

  /** `m.update(added)`, and `dict(added)` when `m` is empty */
  function Update(m: seq<Entry>, added: seq<Entry>): seq<Entry>
    decreases |added|
  {
    if added == [] then m else Update(PutEntry(m, added[0].key, added[0].cell), added[1..])
  }

  function Pre(prefix: string, m: seq<Entry>): (r: seq<Entry>)
    ensures |r| == |m|
    ensures forall i | 0 <= i < |m| :: r[i] == Entry(prefix + m[i].key, m[i].cell)
  {
    if m == [] then [] else [Entry(prefix + m[0].key, m[0].cell)] + Pre(prefix, m[1..])
  }

  /** The entries of a dictionary attribute, under its name (terraform.py:56-57). */
  function InnerEntries(inner: seq<Field>, stem: string): (r: seq<Entry>)
    ensures |r| == |inner|
    ensures forall i | 0 <= i < |inner| :: r[i] == Entry(stem + inner[i].key, Leaf(inner[i].value))
  {
    if inner == [] then [] else [Entry(stem + inner[0].key, Leaf(inner[0].value))] + InnerEntries(inner[1..], stem)
  }

  /** terraform.py:41-60 */
  function Convert(t: Tree, prefix: string): Result<seq<Entry>>
    decreases t, 0
  {
    match t
    case Text(s, draw) => Success([Entry(prefix + Decimal(draw), Leaf(t))])
    case Dict(fields) => ConvertFields(fields, prefix, [])
    case Scalar(_) => Failure(AttributeError)
    case List(_) => Failure(AttributeError)
  }

  function ConvertFields(fields: seq<Field>, prefix: string, result: seq<Entry>): Result<seq<Entry>>
    decreases fields, 0
  {
    if fields == [] then Success(result)
    else
      var next :- ConvertField(fields[0], prefix, result);
      ConvertFields(fields[1..], prefix, next)
  }

  function ConvertField(f: Field, prefix: string, result: seq<Entry>): Result<seq<Entry>>
    decreases f, 0
  {
    var stem := prefix + f.key;
    match f.value
    case List(items) =>
      ConvertItems(items, 0, stem + ".", if items == [] then result else PutEntry(result, stem + ".#", Count(|items|)))
    case Dict(inner) =>
      Success(Update(PutEntry(result, stem + ".%", Count(|inner|)), InnerEntries(inner, stem + ".")))
    case Text(_, _) => Success(PutEntry(result, stem, Leaf(f.value)))
    case Scalar(_) => Success(PutEntry(result, stem, Leaf(f.value)))
  }

  function ConvertItems(items: seq<Tree>, i: nat, stem: string, result: seq<Entry>): Result<seq<Entry>>
    decreases items, 0
  {
    if items == [] then Success(result)
    else
      var nested :- Convert(items[0], stem + Decimal(i) + ".");
      ConvertItems(items[1..], i + 1, stem, Update(result, nested))
  }

  /** terraform.py:154-164; the keys of the result are what follows the prefix and the separator. */
  function ParsePrefix(source: seq<Entry>, prefix: string, sep: char): seq<Entry> {
    if source == [] then []
    else
      var rest := ParsePrefix(source[1..], prefix, sep);
      match SplitOnce(source[0].key, sep)
      case None => rest
      case Some((current, key)) =>
        if current != prefix || key == "#" then rest else [Entry(key, source[0].cell)] + rest
  }

  /** terraform.py:176-177 */
  function ParseDict(source: seq<Entry>, prefix: string, sep: char): seq<Entry> {
    Update([], ParsePrefix(source, prefix, sep))
  }

  function Cells(m: seq<Entry>): seq<Cell> {
    if m == [] then [] else [m[0].cell] + Cells(m[1..])
  }

  /** terraform.py:180-181 */
  function ParseList(source: seq<Entry>, prefix: string, sep: char): seq<Cell> {
    Cells(ParsePrefix(source, prefix, sep))
  }

  datatype Indexed = Indexed(idx: string, attrs: seq<Entry>)

  /** `attrs[idx][key] = cell` on a defaultdict */
  function PutIndexed(m: seq<Indexed>, idx: string, key: string, cell: Cell): seq<Indexed> {
    if m == [] then [Indexed(idx, [Entry(key, cell)])]
    else if m[0].idx == idx then [Indexed(idx, PutEntry(m[0].attrs, key, cell))] + m[1..]
    else [m[0]] + PutIndexed(m[1..], idx, key, cell)
  }

  /** terraform.py:169-171: a key without a second separator raises. */
  function GroupByIndex(m: seq<Indexed>, pairs: seq<Entry>, sep: char): Result<seq<Indexed>>
    decreases |pairs|
  {
    if pairs == [] then Success(m)
    else match SplitOnce(pairs[0].key, sep)
      case None => Failure(ValueError)
      case Some((idx, key)) => GroupByIndex(PutIndexed(m, idx, key, pairs[0].cell), pairs[1..], sep)
  }

  function Attributes(m: seq<Indexed>): seq<seq<Entry>> {
    if m == [] then [] else [m[0].attrs] + Attributes(m[1..])
  }

  /** terraform.py:167-173 */
  function ParseAttrList(source: seq<Entry>, prefix: string, sep: char): Result<seq<seq<Entry>>> {
    var m :- GroupByIndex([], ParsePrefix(source, prefix, sep), sep);
    Success(Attributes(m))
  }

  // ---------- The loops ----------

  method ConvertToV3(t: Tree, prefix: string) returns (r: Result<seq<Entry>>)
    ensures r == Convert(t, prefix)
    decreases t, 1
  {
    match t
    case Text(s, draw) => return Success([Entry(prefix + Decimal(draw), Leaf(t))]);
    case Scalar(_) => return Failure(AttributeError);
    case List(_) => return Failure(AttributeError);
    case Dict(fields) =>
      var result: seq<Entry> := [];
      for i := 0 to |fields|
        invariant ConvertFields(fields[i..], prefix, result) == Convert(t, prefix)
      {
        assert fields[i..][0] == fields[i] && fields[i..][1..] == fields[i + 1..];
        var next := ConvertFieldToV3(fields[i], prefix, result);
        if next.Failure? {
          return next;
        }
        result := next.value;
      }
      assert fields[|fields|..] == [];
      return Success(result);
  }

  method ConvertFieldToV3(f: Field, prefix: string, before: seq<Entry>) returns (r: Result<seq<Entry>>)
    ensures r == ConvertField(f, prefix, before)
    decreases f, 1
  {
    var result, stem := before, prefix + f.key;
    match f.value
    case List(items) =>
      if |items| > 0 {
        result := PutEntry(result, stem + ".#", Count(|items|));
      }
      assert items[0..] == items;
      for i := 0 to |items|
        invariant ConvertItems(items[i..], i, stem + ".", result) == ConvertField(f, prefix, before)
      {
        assert items[i..][0] == items[i] && items[i..][1..] == items[i + 1..];
        var nested := ConvertToV3(items[i], stem + "." + Decimal(i) + ".");
        if nested.Failure? {
          return nested;
        }
        result := Update(result, nested.value);
      }
      assert items[|items|..] == [];
      return Success(result);
    case Dict(inner) =>
      result := PutEntry(result, stem + ".%", Count(|inner|));
      ghost var start := result;
      assert InnerEntries(inner, stem + ".")[0..] == InnerEntries(inner, stem + ".");
      for i := 0 to |inner|
        invariant Update(result, InnerEntries(inner, stem + ".")[i..]) == Update(start, InnerEntries(inner, stem + "."))
      {
        var entries := InnerEntries(inner, stem + ".");
        assert entries[i..][0] == entries[i] && entries[i..][1..] == entries[i + 1..];
        result := PutEntry(result, stem + "." + inner[i].key, Leaf(inner[i].value));
      }
      return Success(result);
    case Text(_, _) => return Success(PutEntry(result, stem, Leaf(f.value)));
    case Scalar(_) => return Success(PutEntry(result, stem, Leaf(f.value)));
  }

  method ParseAttributeList(source: seq<Entry>, prefix: string, sep: char) returns (r: Result<seq<seq<Entry>>>)
    ensures r == ParseAttrList(source, prefix, sep)
  {
    var pairs, attrs := ParsePrefix(source, prefix, sep), [];
    for i := 0 to |pairs|
      invariant GroupByIndex(attrs, pairs[i..], sep) == GroupByIndex([], pairs, sep)
    {
      assert pairs[i..][0] == pairs[i] && pairs[i..][1..] == pairs[i + 1..];
      var split := SplitOnce(pairs[i].key, sep);
      if split.None? {
        return Failure(ValueError);
      }
      attrs := PutIndexed(attrs, split.value.0, split.value.1, pairs[i].cell);
    }
    assert pairs[|pairs|..] == [];
    return Success(Attributes(attrs));
  }
}
