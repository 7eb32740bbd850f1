/** A run over an address range: expansion, and the hosts it creates from nothing. */
module RangeTheorems {
  import opened Wrappers
  import opened Strings
  import opened DottedQuad
  import opened Ordered
  import opened Hosts
  import opened Batch
  import opened HostIds
  import opened BatchTheorems
  import Sequences

  predicate IsQuadChar(c: char) {
    IsDigit(c) || c == '.'
  }

  /** Digits and dots, with a dot, beginning and ending in a digit. */
  predicate QuadLike(s: string) {
    && s != "" && IsDigit(s[0]) && IsDigit(s[|s| - 1]) && '.' in s
    && forall c | c in s :: IsQuadChar(c)
  }

  lemma {:induction false} QuadChars(n: nat)
    requires n < ADDRESS_LIMIT
    ensures QuadLike(Quad(n))
  {
    var a, b, c, d := Decimal(n / 256 / 256 / 256), Decimal(n / 256 / 256 % 256), Decimal(n / 256 % 256), Decimal(n % 256);
    assert d[|d| - 1] in d;
  }

  lemma {:induction false} RangeIsRead(l: string, r: string, arg: string)
    requires QuadLike(l) && QuadLike(r) && arg == l + ['-'] + r
    ensures IsRange(arg) && Strip(arg) == arg
  {
    assert arg[|l|] == '-' && arg[0] == l[0] && arg[|arg| - 1] == r[|r| - 1];
  }

  lemma {:induction false} ExpandRange(l: string, r: string, start: nat, end: nat)
    requires QuadLike(l) && QuadLike(r)
    requires ParseQuad(l) == Success(start) && ParseQuad(r) == Success(end)
    ensures ExpandArg(l + ['-'] + r) == Success(QuadRange(start, end))
  {
    var arg := l + ['-'] + r;
    RangeIsRead(l, r, arg);
    SplitAt(l, '-', r);
  }

  /** `a-b` stands for the addresses from a to b, in order; an empty list when b is below a. */
  lemma {:induction false} RangeExpands(a: nat, b: nat)
    requires a < ADDRESS_LIMIT && b < ADDRESS_LIMIT
    ensures Expand([Quad(a) + "-" + Quad(b)]) == Success(QuadRange(a, b))
  {
    QuadChars(a);
    QuadChars(b);
    QuadRoundTrip(a);
    QuadRoundTrip(b);
    ExpandRange(Quad(a), Quad(b), a, b);
    ExpandSingle(Quad(a) + "-" + Quad(b));
  }

  lemma {:induction false} ExpandSingle(arg: string)
    ensures Expand([arg]) == ExpandArg(arg)
  {
    assert [arg][1..] == [];
    if ExpandArg(arg).Success? {
      assert ExpandArg(arg).value + [] == ExpandArg(arg).value;
    }
  }

  /** No generated name reads as an address: the prefix has no dot, or has a character that no address has. */
  predicate NamesNoAddress(prefix: string) {
    '.' !in prefix || exists c :: c in prefix && !IsQuadChar(c)
  }

  lemma {:induction false} HostNameIsNoQuad(prefix: string, id: nat, n: nat)
    requires NamesNoAddress(prefix) && n < ADDRESS_LIMIT
    ensures HostName(prefix, id) != Quad(n)
  {
    QuadChars(n);
    var digits := Decimal(id);
    if '.' !in prefix {
      assert '.' !in digits;
      assert '.' !in prefix + digits;
    } else {
      var c :| c in prefix && !IsQuadChar(c);
      assert c in prefix + digits;
    }
  }

  // ---------- New hosts for plain addresses ----------

  function AddressHost(prefix: string, id: nat, ip: string): Host {
    Host(HostName(prefix, id), Record(ip, ip))
  }

  /** Host i is named after i + 1 and carries address i in all three options. */
  function AddressHosts(prefix: string, ips: seq<string>): seq<Host> {
    seq(|ips|, i requires 0 <= i < |ips| => AddressHost(prefix, i + 1, ips[i]))
  }

  /** Different addresses, each its own access address. */
  ghost predicate Addresses(ips: seq<string>) {
    Distinct(ips) && forall ip | ip in ips :: IsAddress(ip) && ',' !in ip && '-' !in ip
  }

  /** No address is the name that an earlier one generates in a new inventory. */
  ghost predicate NamesFree(prefix: string, ips: seq<string>) {
    forall i, k | 1 <= k <= i < |ips| :: HostName(prefix, k) != ips[i]
  }

  ghost predicate PlainAddresses(prefix: string, ips: seq<string>) {
    Addresses(ips) && NamesFree(prefix, ips)
  }

  lemma {:induction false} AllIpsDiffer(hosts: seq<Host>, ip: string)
    requires forall h | h in hosts :: GetIp(h.opts).Success? && GetIp(h.opts).value != ip
    ensures ExistsIp(hosts, ip) == Success(false)
  {
    if hosts != [] {
      AllIpsDiffer(hosts[1..], ip);
    }
  }

  lemma {:induction false} PlainAddressStep(prefix: string, b: Batch, ip: string)
    requires IsAddress(ip) && ',' !in ip && ip !in Names(b.hosts) && ExistsIp(b.hosts, ip) == Success(false)
    requires HostName(prefix, b.nextId) !in Names(b.hosts)
    ensures var r := StepHost(prefix, b, ip);
            && r.Success? && r.value.nextId == b.nextId + 1
            && r.value.hosts == b.hosts + [Host(HostName(prefix, b.nextId), Record(ip, ip))]
  {
    PutNew(b.hosts, HostName(prefix, b.nextId), Record(ip, ip));
  }

  lemma {:induction false} EarlierHosts(prefix: string, ips: seq<string>, i: nat, hosts: seq<Host>)
    requires Addresses(ips) && i < |ips| && hosts == AddressHosts(prefix, ips[..i])
    requires forall k | 1 <= k <= i :: HostName(prefix, k) != ips[i]
    ensures ips[i] !in Names(hosts) && HostName(prefix, i + 1) !in Names(hosts)
    ensures ExistsIp(hosts, ips[i]) == Success(false)
  {
    forall k | 0 <= k < i
      ensures Names(hosts)[k] != ips[i] && Names(hosts)[k] != HostName(prefix, i + 1)
    {
      assert Names(hosts)[k] == HostName(prefix, k + 1);
      HostNameInjective(prefix, k + 1, i + 1);
    }
    forall h | h in hosts
      ensures GetIp(h.opts).Success? && GetIp(h.opts).value != ips[i]
    {
      var k :| 0 <= k < i && hosts[k] == h;
      assert GetIp(h.opts) == Success(ips[k]);
    }
    AllIpsDiffer(hosts, ips[i]);
  }

  lemma {:induction false} NextAddress(prefix: string, ips: seq<string>, i: nat, b: Batch)
    requires Addresses(ips) && i < |ips| && forall k | 1 <= k <= i :: HostName(prefix, k) != ips[i]
    requires b.hosts == AddressHosts(prefix, ips[..i]) && b.nextId == i + 1
    ensures var r := StepHost(prefix, b, ips[i]);
            r.Success? && r.value.hosts == AddressHosts(prefix, ips[..i + 1]) && r.value.nextId == i + 2
  {
    assert ips[i] in ips;
    EarlierHosts(prefix, ips, i, b.hosts);
    PlainAddressStep(prefix, b, ips[i]);
  }

  lemma {:induction false} AddressesBuildFrom(prefix: string, ips: seq<string>, i: nat, b: Batch)
    requires PlainAddresses(prefix, ips) && i <= |ips|
    requires b.hosts == AddressHosts(prefix, ips[..i]) && b.nextId == i + 1
    ensures var r := BuildFrom(prefix, b, ips[i..]); r.Success? && r.value.hosts == AddressHosts(prefix, ips)
    decreases |ips| - i
  {
    if i == |ips| {
      assert ips[..i] == ips;
    } else {
      Sequences.SuffixStep(ips, i);
      NextAddress(prefix, ips, i, b);
      AddressesBuildFrom(prefix, ips, i + 1, StepHost(prefix, b, ips[i]).value);
    }
  }

  lemma {:induction false} AddsAtMostOne(prefix: string, b: Batch, args: seq<string>)
    requires BuildFrom(prefix, b, args).Success? && forall a | a in args :: IsAddress(a)
    ensures |BuildFrom(prefix, b, args).value.hosts| <= |b.hosts| + |args|
    decreases |args|
  {
    if args != [] {
      assert args[0] in args && forall a | a in args[1..] :: a in args;
      var a := ParseAddress(args[0]).value;
      PutSize(b.hosts, HostName(prefix, b.nextId), Record(a.ip, a.access));
      AddsAtMostOne(prefix, StepHost(prefix, b, args[0]).value, args[1..]);
    }
  }

  /** An address that is an earlier host's name is skipped, so at the end a host is missing. */
  lemma {:induction false} HostIsMissing(prefix: string, ips: seq<string>, i: nat, b: Batch, j: nat, k: nat)
    requires Addresses(ips) && i <= j < |ips| && 1 <= k <= j && HostName(prefix, k) == ips[j]
    requires b.hosts == AddressHosts(prefix, ips[..i]) && b.nextId == i + 1
    requires BuildFrom(prefix, b, ips[i..]).Success?
    ensures |BuildFrom(prefix, b, ips[i..]).value.hosts| < |ips|
    decreases |ips| - i
  {
    Sequences.SuffixStep(ips, i);
    if taken: nat :| 1 <= taken <= i && HostName(prefix, taken) == ips[i] {
      assert Names(b.hosts)[taken - 1] == ips[i];
      SkippedIsMissing(prefix, ips, i, b);
    } else {
      NextAddress(prefix, ips, i, b);
      HostIsMissing(prefix, ips, i + 1, StepHost(prefix, b, ips[i]).value, j, k);
    }
  }

  lemma {:induction false} SkippedIsMissing(prefix: string, ips: seq<string>, i: nat, b: Batch)
    requires Addresses(ips) && i < |ips| && |b.hosts| == i && ips[i] in Names(b.hosts)
    requires BuildFrom(prefix, b, ips[i..]).Success?
    ensures |BuildFrom(prefix, b, ips[i..]).value.hosts| < |ips|
  {
    Sequences.SuffixStep(ips, i);
    assert ips[i] in ips && forall a | a in ips[i + 1..] :: a in ips;
    AddsAtMostOne(prefix, StepHost(prefix, b, ips[i]).value, ips[i + 1..]);
  }

  /** A batch of different addresses creates from nothing one host for each, named and listed in order, if and only if no
      address is the name that an earlier one generates. */
  lemma {:induction false} FreshAddressesIff(prefix: string, ips: seq<string>)
    requires Addresses(ips)
    ensures BuildHostnames(prefix, [], ips) == Success(AddressHosts(prefix, ips)) <==> NamesFree(prefix, ips)
  {
    if NamesFree(prefix, ips) {
      FreshAddresses(prefix, ips);
    } else if BuildHostnames(prefix, [], ips).Success? {
      var j, k :| 1 <= k <= j < |ips| && HostName(prefix, k) == ips[j];
      assert ips[..0] == [] && ips[0..] == ips;
      HostIsMissing(prefix, ips, 0, Start(prefix, []).value, j, k);
    }
  }

  /** A batch of different plain addresses creates from nothing one host for each, named and listed in order. */
  lemma {:induction false} FreshAddresses(prefix: string, ips: seq<string>)
    requires PlainAddresses(prefix, ips)
    ensures BuildHostnames(prefix, [], ips) == Success(AddressHosts(prefix, ips))
  {
    assert ips[..0] == [] && ips[0..] == ips;
    AddressesBuildFrom(prefix, ips, 0, Start(prefix, []).value);
  }

  lemma {:induction false} PlainExpands(ips: seq<string>)
    requires forall ip | ip in ips :: '-' !in ip
    ensures Expand(ips) == Success(ips)
  {
    if ips != [] {
      PlainExpands(ips[1..]);
      Sequences.HeadTail(ips);
    }
  }

  // ---------- New hosts for a range ----------

  lemma {:induction false} QuadRangeAt(a: nat, b: nat, i: nat)
    requires a < ADDRESS_LIMIT && b < ADDRESS_LIMIT && i < |QuadRange(a, b)|
    ensures a + i <= b && QuadRange(a, b)[i] == Quad(a + i)
  {
  }

  lemma {:induction false} QuadRangeDiffers(a: nat, b: nat, i: nat, j: nat)
    requires a < ADDRESS_LIMIT && b < ADDRESS_LIMIT && i < j < |QuadRange(a, b)|
    ensures QuadRange(a, b)[i] != QuadRange(a, b)[j]
  {
    QuadRangeAt(a, b, i);
    QuadRangeAt(a, b, j);
    QuadInjective(a + i, a + j);
  }

  lemma {:induction false} RangeAddresses(a: nat, b: nat, ips: seq<string>)
    requires a < ADDRESS_LIMIT && b < ADDRESS_LIMIT && ips == QuadRange(a, b)
    ensures Addresses(ips)
  {
    forall i, j | 0 <= i < j < |ips|
      ensures ips[i] != ips[j]
    {
      QuadRangeDiffers(a, b, i, j);
    }
    forall ip | ip in ips
      ensures IsAddress(ip) && ',' !in ip && '-' !in ip
    {
      var i :| 0 <= i < |ips| && ips[i] == ip;
      QuadRangeAt(a, b, i);
    }
  }

  /** With a prefix whose names never read as an address, the names of a range are free. */
  lemma {:induction false} RangeNamesFree(prefix: string, a: nat, b: nat, ips: seq<string>)
    requires NamesNoAddress(prefix) && a < ADDRESS_LIMIT && b < ADDRESS_LIMIT && ips == QuadRange(a, b)
    ensures NamesFree(prefix, ips)
  {
    forall i, k | 1 <= k <= i < |ips|
      ensures HostName(prefix, k) != ips[i]
    {
      QuadRangeAt(a, b, i);
      HostNameIsNoQuad(prefix, k, a + i);
    }
  }

  /** A fresh run over a-b creates the b - a + 1 hosts of the range, in order, if and only if no address of the range is a
      name generated before it. */
  lemma {:induction false} FreshRange(prefix: string, a: nat, b: nat)
    requires a <= b < ADDRESS_LIMIT
    ensures Expand([Quad(a) + "-" + Quad(b)]).Success?
    ensures var built := BuildHostnames(prefix, [], Expand([Quad(a) + "-" + Quad(b)]).value);
            built == Success(AddressHosts(prefix, QuadRange(a, b))) <==> NamesFree(prefix, QuadRange(a, b))
    ensures |AddressHosts(prefix, QuadRange(a, b))| == b - a + 1
  {
    RangeExpands(a, b);
    RangeAddresses(a, b, QuadRange(a, b));
    FreshAddressesIff(prefix, QuadRange(a, b));
  }
}
