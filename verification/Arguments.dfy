/** What single arguments of a run mean: by their first character, as ranges, as bare names, and when they raise. */
module Arguments {
  import opened Wrappers
  import opened Strings
  import opened DottedQuad
  import opened Hosts
  import opened Batch
  import opened BatchInvariants
  import opened BatchTheorems
  import opened RangeTheorems
  import Sequences

  predicate Letter(c: char) {
    'a' <= c <= 'z' || 'A' <= c <= 'Z'
  }

  predicate Digit(c: char) {
    '0' <= c <= '9'
  }

  // ---------- First characters ----------

  /** `name,ip` declares the name if it begins with a letter, capital or small. */
  lemma {:induction false} LetterDeclares(prefix: string, b: Batch, name: string, ip: string)
    requires name != "" && Letter(name[0]) && ',' !in name && ',' !in ip
    requires name !in Names(b.hosts) && name + "," + ip !in Names(b.hosts) && ExistsIp(b.hosts, ip) == Success(false)
    ensures var r := StepHost(prefix, b, name + "," + ip);
            r.Success? && r.value.nextId == b.nextId && r.value.hosts == b.hosts + [Host(name, Record(ip, ip))]
  {
    var arg := name + [','] + ip;
    assert arg[0] == name[0];
    SplitAt(name, ',', ip);
    assert Split(ip, ',') == [ip];
    PutNew(b.hosts, name, Record(ip, ip));
  }

  /** An argument that begins with a digit is an address. */
  lemma {:induction false} DigitGenerates(prefix: string, b: Batch, ip: string)
    requires ip != "" && Digit(ip[0]) && ',' !in ip
    requires HostName(prefix, b.nextId) !in Names(b.hosts) && ip !in Names(b.hosts) && ExistsIp(b.hosts, ip) == Success(false)
    ensures var r := StepHost(prefix, b, ip);
            && r.Success? && r.value.nextId == b.nextId + 1
            && r.value.hosts == b.hosts + [Host(prefix + Decimal(b.nextId), Record(ip, ip))]
  {
    PlainAddressStep(prefix, b, ip);
  }

  /** An argument that begins with anything but a letter, a digit or a dash is ignored. */
  lemma {:induction false} OthersAreIgnored(prefix: string, b: Batch, arg: string)
    requires arg != "" && !Letter(arg[0]) && !Digit(arg[0]) && arg[0] != '-'
    ensures StepHost(prefix, b, arg) == Success(b)
  {
  }

  // ---------- Bare names ----------

  lemma {:induction false} BareStep(prefix: string, b: Batch, x: string)
    requires x != "" && Letter(x[0]) && ',' !in x && x !in Names(b.hosts)
    ensures StepHost(prefix, b, x) ==
            if b.address.None? then Failure(UnboundLocalError)
            else
              var a := b.address.value;
              var found := ExistsIp(b.hosts, a.ip);
              if found.Failure? then Failure(found.error)
              else if found.value then Success(b)
              else if b.hostname.None? then Failure(UnboundLocalError)
              else Success(b.(hosts := Put(b.hosts, b.hostname.value, Record(a.ip, a.access))))
  {
  }

  /** A bare name is skipped when the ip it reads is there. */
  lemma {:induction false} BareIsSkipped(prefix: string, b: Batch, x: string)
    requires x != "" && Letter(x[0]) && ',' !in x
    requires b.address.Some? && ExistsIp(b.hosts, b.address.value.ip) == Success(true)
    ensures StepHost(prefix, b, x) == Success(b)
  {
    if x !in Names(b.hosts) {
      BareStep(prefix, b, x);
    }
  }

  /** An address leaves its ip and access ip for later bare names, also when it is skipped, and leaves the host name alone. */
  lemma {:induction false} AddressLeaves(prefix: string, b: Batch, ip: string, access: string, arg: string)
    requires ip != "" && Digit(ip[0]) && ',' !in ip && ',' !in access
    requires (arg == ip && access == ip) || arg == ip + "," + access
    requires StepHost(prefix, b, arg).Success?
    ensures StepHost(prefix, b, arg).value.address == Some(Address(ip, access))
    ensures StepHost(prefix, b, arg).value.hostname == b.hostname
  {
    assert arg[0] == ip[0];
    if arg != ip {
      assert arg == ip + [','] + access;
      SplitAt(ip, ',', access);
    }
  }

  lemma {:induction false} NamedLeaves(prefix: string, b: Batch, arg: string)
    requires arg != "" && Letter(arg[0]) && StepHost(prefix, b, arg).Success?
    ensures NamedLocals(b, arg).Success?
    ensures StepHost(prefix, b, arg).value.address == NamedLocals(b, arg).value.address
    ensures StepHost(prefix, b, arg).value.hostname == NamedLocals(b, arg).value.hostname
  {
  }

  lemma {:induction false} DeclarationSplits(name: string, ip: string, access: string, arg: string)
    requires ',' !in name && ',' !in ip && ',' !in access
    ensures arg == name + "," + ip ==> Split(arg, ',') == [name, ip]
    ensures arg == name + "," + (ip + "," + access) ==> Split(arg, ',') == [name, ip, access]
  {
    SplitAt(name, ',', ip);
    SplitAt(name, ',', ip + [','] + access);
    SplitAt(ip, ',', access);
  }

  /** A declaration leaves its name, ip and access ip, also when it is skipped. */
  lemma {:induction false} DeclarationLeaves(prefix: string, b: Batch, name: string, ip: string, access: string, arg: string)
    requires name != "" && Letter(name[0]) && ',' !in name && ',' !in ip && ',' !in access
    requires (arg == name + "," + ip && access == ip) || arg == name + "," + (ip + "," + access)
    requires StepHost(prefix, b, arg).Success?
    ensures StepHost(prefix, b, arg).value.address == Some(Address(ip, access))
    ensures StepHost(prefix, b, arg).value.hostname == Some(name)
  {
    assert arg[0] == name[0];
    DeclarationSplits(name, ip, access, arg);
    NamedLeaves(prefix, b, arg);
  }

  /** Deletions and bare names leave what earlier arguments left. */
  lemma {:induction false} OthersLeave(prefix: string, b: Batch, arg: string)
    requires arg != "" && !Digit(arg[0]) && (Letter(arg[0]) ==> ',' !in arg) && StepHost(prefix, b, arg).Success?
    ensures StepHost(prefix, b, arg).value.address == b.address && StepHost(prefix, b, arg).value.hostname == b.hostname
  {
  }

  /** A bare name after an address is skipped, because the ip it reads is there; without the address it raises. */
  lemma {:induction false} BareNameAfterAddress(prefix: string, ip: string, x: string)
    requires ip != "" && Digit(ip[0]) && ',' !in ip && x != "" && Letter(x[0]) && ',' !in x
    ensures BuildHostnames(prefix, [], [ip, x]) == Success([Host(HostName(prefix, 1), Record(ip, ip))])
  {
    var b := Start(prefix, []).value;
    DigitGenerates(prefix, b, ip);
    AddressLeaves(prefix, b, ip, ip, ip);
    var b' := StepHost(prefix, b, ip).value;
    assert ExistsIp(b'.hosts, ip) == Success(true);
    BareIsSkipped(prefix, b', x);
    TwoSteps(prefix, b, ip, x);
  }

  /** A bare name at the beginning of a batch reads locals that nothing has set, and raises. */
  lemma {:induction false} BareNameRaises(prefix: string, x: string)
    requires x != "" && Letter(x[0]) && ',' !in x
    ensures BuildHostnames(prefix, [], [x]) == Failure(UnboundLocalError)
  {
    BareStep(prefix, Start(prefix, []).value, x);
    OneStep(prefix, Start(prefix, []).value, x);
  }

  lemma {:induction false} DeclaresLocals(prefix: string, b: Batch, name: string, ip: string, arg: string)
    requires name != "" && Letter(name[0]) && ',' !in name && ',' !in ip && b.hosts == [] && arg == name + "," + ip
    ensures StepHost(prefix, b, arg) ==
            Success(Batch([Host(name, Record(ip, ip))], b.nextId, Some(name), Some(Address(ip, ip))))
  {
    assert arg == name + [','] + ip && arg[0] == name[0];
    SplitAt(name, ',', ip);
    assert Split(ip, ',') == [ip];
  }

  /** After a declaration a bare name is skipped, because its address is the one just declared. */
  lemma {:induction false} BareNameIsSkipped(prefix: string, name: string, ip: string, x: string)
    requires name != "" && Letter(name[0]) && ',' !in name && ',' !in ip
    requires x != "" && Letter(x[0]) && ',' !in x
    ensures BuildHostnames(prefix, [], [name + "," + ip, x]) == Success([Host(name, Record(ip, ip))])
  {
    var b := Start(prefix, []).value;
    DeclaresLocals(prefix, b, name, ip, name + "," + ip);
    var b' := StepHost(prefix, b, name + "," + ip).value;
    assert ExistsIp(b'.hosts, ip) == Success(true);
    BareIsSkipped(prefix, b', x);
    TwoSteps(prefix, b, name + "," + ip, x);
  }

  /** After the declared host is deleted, any bare name brings it back: it writes under the name read before. */
  lemma {:induction false} BareNameRestores(prefix: string, name: string, ip: string, x: string)
    requires name != "" && Letter(name[0]) && ',' !in name && ',' !in ip
    requires x != "" && Letter(x[0]) && ',' !in x
    ensures BuildHostnames(prefix, [], [name + "," + ip] + ["-" + name, x]) == Success([Host(name, Record(ip, ip))])
  {
    var b := Start(prefix, []).value;
    var first, gone := name + "," + ip, "-" + name;
    DeclaresLocals(prefix, b, name, ip, first);
    var one := StepHost(prefix, b, first).value;
    assert gone[1..] == name && Names(one.hosts) == [name];
    var none := one.(hosts := []);
    assert StepHost(prefix, one, gone) == Success(none);
    BareStep(prefix, none, x);
    TwoSteps(prefix, one, gone, x);
    assert BuildFrom(prefix, b, [first] + [gone, x]) == BuildFrom(prefix, one, [gone, x]);
  }

  // ---------- What raises ----------

  /** On hosts that all have an ip, a batch without bare names raises at its first malformed argument: IndexError when that
      is empty, and ValueError when it has too many commas. */
  lemma {:induction false} FirstMalformedRaises(prefix: string, b: Batch, args: seq<string>, i: nat)
    requires DistinctNames(b.hosts) && AllHaveIp(b.hosts) && forall a | a in args && IsNamed(a) :: ',' in a
    requires i < |args| && !WellFormed(args[i]) && forall j | 0 <= j < i :: WellFormed(args[j])
    ensures BuildFrom(prefix, b, args) == Failure(if args[i] == "" then IndexError else ValueError)
    decreases |args|
  {
    assert args[0] in args && forall a | a in args[1..] :: a in args;
    StepCompletes(prefix, b, args[0]);
    if i == 0 {
      MalformedRaises(prefix, b, args[0]);
    } else {
      StepDistinctNames(prefix, b, args[0]);
      StepKeepsIps(prefix, b, args[0]);
      assert args[1..][i - 1] == args[i] && forall j | 0 <= j < i - 1 :: args[1..][j] == args[j + 1];
      FirstMalformedRaises(prefix, StepHost(prefix, b, args[0]).value, args[1..], i - 1);
    }
  }

  lemma {:induction false} MalformedRaises(prefix: string, b: Batch, arg: string)
    requires AllHaveIp(b.hosts) && (IsNamed(arg) ==> ',' in arg) && !WellFormed(arg)
    ensures StepHost(prefix, b, arg) == Failure(if arg == "" then IndexError else ValueError)
  {
  }

  /** The scan for an ip stops at the first host that has it, and raises if a host without an ip comes before. */
  lemma {:induction false} ScanIs(hosts: seq<Host>, ip: string, i: nat)
    requires i <= |hosts| && forall j | 0 <= j < i :: "ip" in hosts[j].opts && hosts[j].opts["ip"] != ip
    ensures i == |hosts| ==> ExistsIp(hosts, ip) == Success(false) && DeleteByIp(hosts, ip) == Failure(ValueError)
    ensures i < |hosts| && "ip" !in hosts[i].opts ==>
              ExistsIp(hosts, ip) == Failure(ValueError) && DeleteByIp(hosts, ip) == Failure(ValueError)
    ensures i < |hosts| && "ip" in hosts[i].opts && hosts[i].opts["ip"] == ip ==>
              ExistsIp(hosts, ip) == Success(true) && DeleteByIp(hosts, ip) == Success(hosts[..i] + hosts[i + 1..])
    decreases |hosts|
  {
    if i > 0 {
      var rest := hosts[1..];
      assert forall j | 0 <= j < i - 1 :: rest[j] == hosts[j + 1];
      assert GetIp(hosts[0].opts) == Success(hosts[0].opts["ip"]);
      ScanIs(rest, ip, i - 1);
      if i < |hosts| {
        assert rest[i - 1] == hosts[i];
        Sequences.WithoutTail(hosts, i);
      }
    } else if hosts != [] {
      assert hosts[..0] + hosts[0 + 1..] == hosts[1..];
    }
  }

  // ---------- Ranges ----------

  predicate AllSpace(s: string) {
    forall c | c in s :: c in {' ', '\t', '\n', '\U{0B}', '\U{0C}', '\r', '\U{1C}', '\U{1D}', '\U{1E}', '\U{1F}'}
  }

  lemma {:induction false} StripLeft(l: string, s: string)
    requires AllSpace(l)
    ensures Strip(l + s) == Strip(s)
  {
    if l == "" {
      Sequences.EmptyUnit(s);
    } else {
      assert l[0] in l && forall c | c in l[1..] :: c in l;
      Sequences.AppendTail(l, s);
      StripLeft(l[1..], s);
    }
  }

  lemma {:induction false} StripRight(s: string, r: string)
    requires AllSpace(r) && s != "" && !IsSpace(s[0]) && !IsSpace(s[|s| - 1])
    ensures Strip(s + r) == s
    decreases |r|
  {
    if r == "" {
      Sequences.EmptyUnit(s);
    } else {
      var t := s + r;
      assert r[|r| - 1] in r;
      var fewer := r[..|r| - 1];
      assert t[0] == s[0] && t[|t| - 1] == r[|r| - 1] && t[..|t| - 1] == s + fewer;
      assert forall c | c in fewer :: c in r;
      StripRight(s, fewer);
    }
  }

  /** White space around an argument is stripped, and nothing else. */
  lemma {:induction false} StripIs(l: string, s: string, r: string)
    requires AllSpace(l) && AllSpace(r) && s != "" && !AllSpace([s[0]]) && !AllSpace([s[|s| - 1]])
    ensures Strip(l + (s + r)) == s
  {
    StripLeft(l, s + r);
    StripRight(s, r);
  }

  /** A range is two addresses with one dash between them, and nothing but white space around it; any other argument that
      begins with neither a dash nor a letter and has a dash raises. */
  lemma {:induction false} RangeIff(arg: string)
    requires '-' in arg && arg[0] != '-' && !Letter(arg[0])
    ensures Expand([arg]).Success? <==>
              exists a: nat, b: nat :: a < ADDRESS_LIMIT && b < ADDRESS_LIMIT && Strip(arg) == Quad(a) + "-" + Quad(b)
    ensures Expand([arg]).Failure? ==> Expand([arg]).error == ValueError
  {
    ExpandSingle(arg);
    var ends := Split(Strip(arg), '-');
    if ExpandArg(arg).Success? {
      SplitJoin(Strip(arg), '-');
      ParseIsCanonical(ends[0]);
      ParseIsCanonical(ends[1]);
      assert ends[1..] == [ends[1]];
      assert Strip(arg) == Quad(ParseQuad(ends[0]).value) + "-" + Quad(ParseQuad(ends[1]).value);
    }
    if a: nat, b: nat :| a < ADDRESS_LIMIT && b < ADDRESS_LIMIT && Strip(arg) == Quad(a) + "-" + Quad(b) {
      RangeParses(arg, a, b);
    }
  }

  lemma {:induction false} RangeParses(arg: string, a: nat, b: nat)
    requires IsRange(arg) && a < ADDRESS_LIMIT && b < ADDRESS_LIMIT && Strip(arg) == Quad(a) + "-" + Quad(b)
    ensures ExpandArg(arg) == Success(QuadRange(a, b))
  {
    QuadChars(a);
    QuadChars(b);
    QuadRoundTrip(a);
    QuadRoundTrip(b);
    EndsOf(Quad(a), Quad(b));
  }

  lemma {:induction false} EndsOf(l: string, r: string)
    requires '-' !in l && '-' !in r
    ensures Split(l + "-" + r, '-') == [l, r]
  {
    SplitAt(l, '-', r);
  }

  /** A range with white space around it is the same range. */
  lemma {:induction false} PaddedRange(l: string, r: string, a: nat, b: nat, arg: string)
    requires AllSpace(l) && AllSpace(r) && a < ADDRESS_LIMIT && b < ADDRESS_LIMIT
    requires arg == l + ((Quad(a) + "-" + Quad(b)) + r)
    ensures Expand([arg]) == Success(QuadRange(a, b))
  {
    var s := Quad(a) + "-" + Quad(b);
    QuadChars(a);
    QuadChars(b);
    RangeBounds(Quad(a), Quad(b), s);
    NoSpace(s[0]);
    NoSpace(s[|s| - 1]);
    StripIs(l, s, r);
    PaddedIsRange(l, s, r, arg);
    RangeParses(arg, a, b);
    ExpandSingle(arg);
  }

  lemma {:induction false} NoSpace(c: char)
    requires IsDigit(c)
    ensures !AllSpace([c])
  {
    assert c in [c];
  }

  lemma {:induction false} RangeBounds(l: string, r: string, s: string)
    requires QuadLike(l) && QuadLike(r) && s == l + "-" + r
    ensures s != "" && IsDigit(s[0]) && IsDigit(s[|s| - 1]) && '-' in s
  {
    assert s[0] == l[0] && s[|s| - 1] == r[|r| - 1] && s[|l|] == '-';
  }

  lemma {:induction false} PaddedIsRange(l: string, s: string, r: string, arg: string)
    requires AllSpace(l) && s != "" && IsDigit(s[0]) && '-' in s && arg == l + (s + r)
    ensures IsRange(arg)
  {
    assert arg[0] == if l == "" then s[0] else l[0];
    assert l != "" ==> l[0] in l;
    assert '-' in s + r;
  }
}
