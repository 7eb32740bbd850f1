/** Host ids: what `get_host_id` reads back from generated names, and why generated names are new. */
module HostIds {
  import opened Wrappers
  import opened Strings
  import opened Batch
  import Sequences

  /** The number the prefix itself ends in, 0 if it does not end in a digit. */
  function PrefixNumber(prefix: string): nat {
    ParseNat(TrailingDigits(prefix))
  }

  lemma {:induction false} DotFreeId(host: string)
    requires '.' !in host
    ensures GetHostId(host) ==
            if TrailingDigits(host) == "" then Failure(ValueError) else Success(ParseNat(TrailingDigits(host)))
  {
    assert Split(host, '.') == [host];
  }

  lemma {:induction false} IdAfterDigits(t: string, d: string)
    requires AllDigits(t) && AllDigits(d)
    ensures ParseNat(t + d) >= ParseNat(d) && (ParseNat(t + d) == ParseNat(d) <==> ParseNat(t) == 0)
  {
    ParseNatConcat(t, d);
  }

  /** A generated name of a dot-free prefix has an id, at least the one it was generated from, and exactly that one
      if and only if the prefix does not end in a positive number. */
  lemma {:induction false} GeneratedId(prefix: string, n: nat)
    requires '.' !in prefix
    ensures GetHostId(HostName(prefix, n)).Success? && GetHostId(HostName(prefix, n)).value >= n
    ensures GetHostId(HostName(prefix, n)) == Success(n) <==> PrefixNumber(prefix) == 0
  {
    var d, t := Decimal(n), TrailingDigits(prefix);
    DotFreeId(prefix + d);
    TrailingDigitsConcat(prefix, d);
    IdAfterDigits(t, d);
    ParseDecimal(n);
  }

  /** A domain does not change the id of a host. */
  lemma {:induction false} DomainKeepsId(host: string, domain: string)
    ensures GetHostId(host + "." + domain) == GetHostId(host)
  {
    if '.' in host {
      var cut := SplitOnce(host, '.').value;
      Sequences.Assoc(cut.0 + ['.'], cut.1, "." + domain);
      SplitAt(cut.0, '.', cut.1 + ("." + domain));
      Sequences.Assoc(host, ".", domain);
    } else {
      SplitAt(host, '.', domain);
    }
  }

  /** With a dotted prefix every generated name has the same id, or none: the counter is not in the name's first label. */
  lemma {:induction false} DottedPrefixId(prefix: string, n: nat)
    requires '.' in prefix
    ensures GetHostId(HostName(prefix, n)) == GetHostId(prefix)
  {
    var cut := SplitOnce(prefix, '.').value;
    Sequences.Assoc(cut.0 + ['.'], cut.1, Decimal(n));
    SplitAt(cut.0, '.', cut.1 + Decimal(n));
  }

  lemma {:induction false} HostNameInjective(prefix: string, m: nat, n: nat)
    ensures HostName(prefix, m) == HostName(prefix, n) <==> m == n
  {
    if HostName(prefix, m) == HostName(prefix, n) {
      assert Decimal(m) == HostName(prefix, m)[|prefix|..] && Decimal(n) == HostName(prefix, n)[|prefix|..];
      DecimalInjective(m, n);
    }
  }

  /** No name generated from `from` on is taken. */
  ghost predicate NoneGenerated(prefix: string, names: seq<string>, from: nat) {
    forall m: nat | m >= from :: HostName(prefix, m) !in names
  }

  lemma {:induction false} HighestBounds(prefix: string, names: seq<string>, highest: nat)
    requires HighestFrom(prefix, names, highest).Success?
    ensures HighestFrom(prefix, names, highest).value >= highest
    ensures forall x | x in names && StartsWith(x, prefix) ::
              GetHostId(x).Success? && GetHostId(x).value <= HighestFrom(prefix, names, highest).value
    decreases |names|
  {
    if names != [] {
      var first, rest := names[0], names[1..];
      if StartsWith(first, prefix) {
        var id := GetHostId(first).value;
        HighestBounds(prefix, rest, if id > highest then id else highest);
      } else {
        HighestBounds(prefix, rest, highest);
      }
      assert names == [first] + rest;
    }
  }

  /** With a dot-free prefix, every name generated above the highest loaded id is new. */
  lemma {:induction false} LoadedNamesAreBelow(prefix: string, names: seq<string>)
    requires '.' !in prefix
    requires HighestFrom(prefix, names, 0).Success?
    ensures NoneGenerated(prefix, names, HighestFrom(prefix, names, 0).value + 1)
  {
    HighestBounds(prefix, names, 0);
    forall m: nat | m >= HighestFrom(prefix, names, 0).value + 1
      ensures HostName(prefix, m) !in names
    {
      GeneratedId(prefix, m);
      assert StartsWith(HostName(prefix, m), prefix);
    }
  }

  lemma {:induction false} HighestConcat(prefix: string, a: seq<string>, b: seq<string>, highest: nat)
    ensures HighestFrom(prefix, a + b, highest) ==
            match HighestFrom(prefix, a, highest)
            case Success(h) => HighestFrom(prefix, b, h)
            case Failure(e) => Failure(e)
    decreases |a|
  {
    if a == [] {
      assert a + b == b;
    } else {
      assert (a + b)[1..] == a[1..] + b;
      if StartsWith(a[0], prefix) {
        if GetHostId(a[0]).Success? {
          var id := GetHostId(a[0]).value;
          HighestConcat(prefix, a[1..], b, if id > highest then id else highest);
        }
      } else {
        HighestConcat(prefix, a[1..], b, highest);
      }
    }
  }
}
