/** Theorems about whole batches: fresh names, conservation, batch against increments, re-runs, address ranges. */
module BatchTheorems {
  import opened Wrappers
  import opened Strings
  import opened Hosts
  import opened Batch
  import opened HostIds
  import opened BatchInvariants

  // ---------- Generated names are fresh ----------

  ghost predicate DeclaresOutside(prefix: string, args: seq<string>) {
    forall a | a in args && ExplicitName(a).Some? :: !StartsWith(ExplicitName(a).value, prefix)
  }

  /** The name is none of those generated from `from` on. */
  ghost predicate Ungenerated(prefix: string, from: nat, name: string) {
    forall m: nat | m >= from :: HostName(prefix, m) != name
  }

  /** The names a batch may declare: its own, and the one an earlier argument left behind. */
  function DeclaredNames(b: Batch, args: seq<string>): set<string> {
    (set a | a in args && ExplicitName(a).Some? :: ExplicitName(a).value) +
    (if b.hostname.Some? then {b.hostname.value} else {})
  }

  /** No declared name is one that an address may still be given. */
  ghost predicate DeclaresUngenerated(prefix: string, from: nat, args: seq<string>) {
    forall a | a in args && ExplicitName(a).Some? :: Ungenerated(prefix, from, ExplicitName(a).value)
  }

  ghost predicate FreshCounter(prefix: string, b: Batch) {
    && DistinctNames(b.hosts)
    && NoneGenerated(prefix, Names(b.hosts), b.nextId)
    && (b.hostname.Some? ==> Ungenerated(prefix, b.nextId, b.hostname.value))
  }

  lemma {:induction false} StartIsFresh(prefix: string, loaded: seq<Host>)
    requires '.' !in prefix && DistinctNames(loaded) && Start(prefix, loaded).Success?
    ensures FreshCounter(prefix, Start(prefix, loaded).value)
  {
    LoadedNamesAreBelow(prefix, Names(loaded));
  }

  lemma {:induction false} StepKeepsFresh(prefix: string, b: Batch, arg: string)
    requires FreshCounter(prefix, b) && DeclaresUngenerated(prefix, b.nextId, [arg]) && StepHost(prefix, b, arg).Success?
    ensures FreshCounter(prefix, StepHost(prefix, b, arg).value) && b.nextId <= StepHost(prefix, b, arg).value.nextId
  {
    var c := StepChange(prefix, b, arg);
    StepDistinctNames(prefix, b, arg);
    assert arg in [arg];
    match c
    case Same =>
    case Drop(name) => DropNames(b.hosts, name);
    case Generate(ip, access) =>
      var name := HostName(prefix, b.nextId);
      PutDistinctNames(b.hosts, name, Record(ip, access));
      forall m: nat | m >= b.nextId + 1
        ensures HostName(prefix, m) != name
      {
        HostNameInjective(prefix, m, b.nextId);
      }
    case Declare(name, ip, access) =>
      PutDistinctNames(b.hosts, name, Record(ip, access));
  }

  lemma {:induction false} BuildKeepsFresh(prefix: string, b: Batch, args: seq<string>)
    requires FreshCounter(prefix, b) && DeclaresUngenerated(prefix, b.nextId, args) && BuildFrom(prefix, b, args).Success?
    ensures FreshCounter(prefix, BuildFrom(prefix, b, args).value)
    decreases |args|
  {
    if args != [] {
      assert args[0] in args && forall a | a in args[1..] :: a in args;
      StepKeepsFresh(prefix, b, args[0]);
      BuildKeepsFresh(prefix, StepHost(prefix, b, args[0]).value, args[1..]);
    }
  }

  /** The hosts are as before, or one record with a new name follows them. */
  ghost predicate KeptOrAppended(hosts: seq<Host>, hosts': seq<Host>) {
    hosts' == hosts || exists name, ip, access :: name !in Names(hosts) && hosts' == hosts + [Host(name, Record(ip, access))]
  }

  lemma {:induction false} NewIpNoHost(hosts: seq<Host>, i: nat, ip: string)
    requires ExistsIp(hosts, ip) == Success(false) && i < |hosts|
    ensures "ip" in hosts[i].opts && hosts[i].opts["ip"] != ip
  {
    if i > 0 {
      NewIpNoHost(hosts[1..], i - 1, ip);
    }
  }

  /** Wherever a batch has come to, an address overwrites no record if and only if it is already in the inventory or
      the next generated name is free. */
  lemma {:induction false} AddressOverwritesIff(prefix: string, b: Batch, arg: string)
    requires DistinctNames(b.hosts) && IsAddress(arg) && StepHost(prefix, b, arg).Success?
    ensures KeptOrAppended(b.hosts, StepHost(prefix, b, arg).value.hosts) <==>
            Settled(b.hosts, arg) || HostName(prefix, b.nextId) !in Names(b.hosts)
    ensures !KeptOrAppended(b.hosts, StepHost(prefix, b, arg).value.hosts) ==>
              && |StepHost(prefix, b, arg).value.hosts| == |b.hosts|
              && exists h :: h in b.hosts && h.name == HostName(prefix, b.nextId) && h !in StepHost(prefix, b, arg).value.hosts
  {
    var name, a := HostName(prefix, b.nextId), ParseAddress(arg).value;
    if !Settled(b.hosts, arg) {
      if name in Names(b.hosts) {
        var i := NameOf(b.hosts, name);
        PutReplaces(b.hosts, i, Record(a.ip, a.access));
        NewIpNoHost(b.hosts, i, a.ip);
        PutRecord(b.hosts, name, Record(a.ip, a.access), b.hosts[i]);
      } else {
        PutNew(b.hosts, name, Record(a.ip, a.access));
      }
    }
  }

  /** However the batch went so far, an address either changes no host or appends one under a new name: declared names
      do no harm as long as none is generated later. */
  lemma {:induction false} AddressNeverOverwrites(prefix: string, loaded: seq<Host>, before: seq<string>, arg: string)
    requires '.' !in prefix && DistinctNames(loaded) && IsAddress(arg)
    requires Build(prefix, loaded, before + [arg]).Success?
    requires DeclaresUngenerated(prefix, Start(prefix, loaded).value.nextId, before)
    ensures Build(prefix, loaded, before).Success?
    ensures KeptOrAppended(Build(prefix, loaded, before).value.hosts, Build(prefix, loaded, before + [arg]).value.hosts)
  {
    BuildFromConcat(prefix, Start(prefix, loaded).value, before, [arg]);
    StartIsFresh(prefix, loaded);
    BuildKeepsFresh(prefix, Start(prefix, loaded).value, before);
    var b := Build(prefix, loaded, before).value;
    OneStep(prefix, b, arg);
    AddressOverwritesIff(prefix, b, arg);
  }

  lemma {:induction false} DeclareFirst(prefix: string, name: string, ip: string)
    requires IsNamed(name) && ',' !in name && ',' !in ip
    ensures var r := StepHost(prefix, Batch([], 1, None, None), name + "," + ip);
            r.Success? && r.value.hosts == [Host(name, Record(ip, ip))] && r.value.nextId == 1
  {
    var arg := name + [','] + ip;
    SplitAt(name, ',', ip);
    assert Split(ip, ',') == [ip];
    assert arg[0] == name[0];
  }

  lemma {:induction false} OneStep(prefix: string, b: Batch, x: string)
    ensures BuildFrom(prefix, b, [x]) == StepHost(prefix, b, x)
  {
    assert [x][1..] == [];
    if StepHost(prefix, b, x).Success? {
      assert BuildFrom(prefix, StepHost(prefix, b, x).value, []) == StepHost(prefix, b, x);
    }
  }

  lemma {:induction false} TwoSteps(prefix: string, b: Batch, x: string, y: string)
    requires StepHost(prefix, b, x).Success?
    ensures BuildFrom(prefix, b, [x, y]) == StepHost(prefix, StepHost(prefix, b, x).value, y)
  {
    assert [x, y][1..] == [y];
    OneStep(prefix, StepHost(prefix, b, x).value, y);
  }

  lemma {:induction false} AddressReplaces(prefix: string, b: Batch, name: string, declared: string, ip: string)
    requires b.hosts == [Host(name, Record(declared, declared))] && name == HostName(prefix, b.nextId)
    requires IsAddress(ip) && ',' !in ip && ip != declared && ip != name
    ensures var r := StepHost(prefix, b, ip);
            r.Success? && r.value.hosts == [Host(name, Record(ip, ip))]
  {
    assert Split(ip, ',') == [ip];
    assert Names(b.hosts) == [name] && b.hosts[1..] == [];
    assert GetIp(b.hosts[0].opts) == Success(declared);
    assert ExistsIp(b.hosts, ip) == Success(false);
  }

  /** The overwriting happens: a new inventory that declares the first generated name and then adds an address keeps
      only the address, whatever the prefix. */
  lemma {:induction false} DeclaredHostIsLost(prefix: string, declared: string, ip: string)
    requires prefix != "" && IsAlpha(prefix[0]) && ',' !in prefix && ',' !in declared
    requires IsAddress(ip) && ',' !in ip && declared != ip
    ensures BuildHostnames(prefix, [], [HostName(prefix, 1) + "," + declared, ip]) ==
            Success([Host(HostName(prefix, 1), Record(ip, ip))])
  {
    var name := HostName(prefix, 1);
    var args := [name + "," + declared, ip];
    assert name[0] == prefix[0];
    assert ',' !in Decimal(1);
    DeclareFirst(prefix, name, declared);
    var b := StepHost(prefix, Start(prefix, []).value, args[0]).value;
    assert ip != name;
    TwoSteps(prefix, Start(prefix, []).value, args[0], ip);
    AddressReplaces(prefix, b, name, declared, ip);
  }

  /** For example, 10.0.0.1 declared as node1 is lost to 10.0.0.2. */
  lemma {:induction false} DeclaredHostIsLostExample()
    ensures BuildHostnames("node", [], ["node1,10.0.0.1", "10.0.0.2"]) == Success([Host("node1", Record("10.0.0.2", "10.0.0.2"))])
  {
    DigitPrints('1');
    assert HostName("node", 1) == "node1";
    var declared, ip := "10.0.0.1", "10.0.0.2";
    assert "node1,10.0.0.1" == "node1" + "," + declared;
    assert declared[7] != ip[7];
    DeclaredHostIsLost("node", declared, ip);
  }

  // ---------- Conservation ----------

  /** A deletion that finds a host, by name or by ip. */
  predicate Finds(b: Batch, arg: string) {
    IsDelete(arg) && (arg[1..] in Names(b.hosts) || ExistsIp(b.hosts, arg[1..]) == Success(true))
  }

  /** The deletions of a batch that find a host. */
  function Deletions(prefix: string, b: Batch, args: seq<string>): nat
    requires BuildFrom(prefix, b, args).Success?
    decreases |args|
  {
    if args == [] then 0
    else
      var b' := StepHost(prefix, b, args[0]).value;
      (if Finds(b, args[0]) then 1 else 0) + Deletions(prefix, b', args[1..])
  }

  /** A named argument that is not skipped: the whole argument is no host name, and nobody has the ip. */
  predicate Writes(b: Batch, arg: string) {
    && IsNamed(arg) && arg !in Names(b.hosts)
    && var l := NamedLocals(b, arg);
       l.Success? && l.value.hostname.Some? && l.value.address.Some?
       && ExistsIp(b.hosts, l.value.address.value.ip) == Success(false)
  }

  function WrittenName(b: Batch, arg: string): string
    requires Writes(b, arg)
  {
    NamedLocals(b, arg).value.hostname.value
  }

  /** The named arguments of a batch that write under a name the inventory does not have at that point. */
  function Declarations(prefix: string, b: Batch, args: seq<string>): nat
    requires BuildFrom(prefix, b, args).Success?
    decreases |args|
  {
    if args == [] then 0
    else
      var b' := StepHost(prefix, b, args[0]).value;
      (if Writes(b, args[0]) && WrittenName(b, args[0]) !in Names(b.hosts) then 1 else 0) + Declarations(prefix, b', args[1..])
  }

  lemma {:induction false} NamedStepIs(prefix: string, b: Batch, arg: string)
    requires IsNamed(arg) && StepHost(prefix, b, arg).Success?
    ensures StepHost(prefix, b, arg).value.nextId == b.nextId
    ensures StepHost(prefix, b, arg).value.hosts ==
            if Writes(b, arg) then
              var a := NamedLocals(b, arg).value.address.value;
              Put(b.hosts, WrittenName(b, arg), Record(a.ip, a.access))
            else b.hosts
    ensures Writes(b, arg) ==> WrittenName(b, arg) in DeclaredNames(b, [arg])
  {
    assert arg in [arg];
  }

  /** A named argument loses a record if and only if it is not skipped and its name is taken; the check for a known host
      looks for the whole argument and not for the name in it (inventory.py:258). */
  lemma {:induction false} NamedOverwritesIff(prefix: string, b: Batch, arg: string)
    requires DistinctNames(b.hosts) && IsNamed(arg) && StepHost(prefix, b, arg).Success?
    ensures (exists h :: h in b.hosts && h !in StepHost(prefix, b, arg).value.hosts) <==>
            Writes(b, arg) && WrittenName(b, arg) in Names(b.hosts)
    ensures forall h | h in b.hosts && (Writes(b, arg) ==> h.name != WrittenName(b, arg)) :: h in StepHost(prefix, b, arg).value.hosts
  {
    NamedStepIs(prefix, b, arg);
    if Writes(b, arg) {
      var name, a := WrittenName(b, arg), NamedLocals(b, arg).value.address.value;
      forall h { PutRecord(b.hosts, name, Record(a.ip, a.access), h); }
      if name in Names(b.hosts) {
        var i := NameOf(b.hosts, name);
        NewIpNoHost(b.hosts, i, a.ip);
        assert b.hosts[i] in b.hosts && b.hosts[i] !in StepHost(prefix, b, arg).value.hosts;
      } else {
        forall h | h in b.hosts { NameIn(b.hosts, h); }
      }
    }
  }

  /** For example, declaring a known host with another ip replaces its record instead of being skipped. */
  lemma {:induction false} DeclaredAgainIsReplaced(prefix: string, name: string, before: string, ip: string)
    requires IsNamed(name) && !StartsWith(name, prefix) && ',' !in name && ',' !in ip && before != ip
    ensures BuildHostnames(prefix, [Host(name, Record(before, before))], [name + "," + ip]) == Success([Host(name, Record(ip, ip))])
  {
    var hosts := [Host(name, Record(before, before))];
    var arg: string := name + [','] + ip;
    assert Names(hosts) == [name] && [name][1..] == [] && hosts[1..] == [];
    SplitAt(name, ',', ip);
    assert Split(ip, ',') == [ip];
    assert arg[0] == name[0] && arg[|name|] == ',';
    assert ExistsIp(hosts, ip) == Success(false);
    assert HighestFrom(prefix, [name], 0) == HighestFrom(prefix, [], 0);
    var b := Start(prefix, hosts).value;
    OneStep(prefix, b, arg);
    assert StepHost(prefix, b, arg).value.hosts == [Host(name, Record(ip, ip))];
  }

  ghost predicate Generated(prefix: string, from: nat, to: nat, name: string) {
    exists k: nat :: from <= k < to && name == HostName(prefix, k)
  }

  ghost predicate Created(h: Host) {
    exists ip, access :: h.opts == Record(ip, access)
  }

  /** What survives under a name that was not declared is unchanged, and what is new was created under a name that this
      batch generated or declared. */
  ghost predicate Conserved(prefix: string, declared: set<string>, b: Batch, b': Batch) {
    && b.nextId <= b'.nextId
    && (forall h | h in b.hosts && h.name in Names(b'.hosts) && h.name !in declared :: h in b'.hosts)
    && (forall h | h in b'.hosts ::
          h in b.hosts || (Created(h) && (h.name in declared || Generated(prefix, b.nextId, b'.nextId, h.name))))
  }

  lemma {:induction false} RemoveShrinks(hosts: seq<Host>, name: string)
    requires name in Names(hosts)
    ensures |Remove(hosts, name)| == |hosts| - 1
  {
    if hosts[0].name != name {
      assert name in Names(hosts[1..]);
      RemoveShrinks(hosts[1..], name);
    }
  }

  lemma {:induction false} DeletionFinds(prefix: string, b: Batch, arg: string)
    requires DistinctNames(b.hosts) && StepHost(prefix, b, arg).Success?
    ensures Finds(b, arg) ==> |StepHost(prefix, b, arg).value.hosts| == |b.hosts| - 1
    ensures IsDelete(arg) && !Finds(b, arg) ==> StepHost(prefix, b, arg).value == b
  {
    if IsDelete(arg) {
      var target := arg[1..];
      if target in Names(b.hosts) {
        RemoveShrinks(b.hosts, target);
      } else if ExistsIp(b.hosts, target) == Success(true) {
        FoundIsDeleted(b.hosts, target);
        var i :| 0 <= i < |b.hosts| && DeleteByIp(b.hosts, target) == Success(Remove(b.hosts, b.hosts[i].name));
        assert Names(b.hosts)[i] == b.hosts[i].name;
        RemoveShrinks(b.hosts, b.hosts[i].name);
      }
    }
  }

  lemma {:induction false} DropConserves(prefix: string, declared: set<string>, b: Batch, b': Batch, name: string)
    requires DistinctNames(b.hosts) && name in Names(b.hosts) && b'.hosts == Remove(b.hosts, name) && b'.nextId == b.nextId
    ensures Conserved(prefix, declared, b, b')
  {
    var i := NameOf(b.hosts, name);
    forall h { RemoveMembers(b.hosts, i, h); }
    DropNames(b.hosts, name);
  }

  lemma {:induction false} PutSize(hosts: seq<Host>, name: string, opts: Opts)
    ensures |Put(hosts, name, opts)| == |hosts| + (if name in Names(hosts) then 0 else 1)
  {
    if hosts != [] && hosts[0].name != name {
      PutSize(hosts[1..], name, opts);
      assert Names(hosts) == [hosts[0].name] + Names(hosts[1..]);
    }
  }

  lemma {:induction false} NamedConserves(prefix: string, b: Batch, arg: string)
    requires DistinctNames(b.hosts) && IsNamed(arg) && StepHost(prefix, b, arg).Success?
    ensures Conserved(prefix, DeclaredNames(b, [arg]), b, StepHost(prefix, b, arg).value)
    ensures |StepHost(prefix, b, arg).value.hosts| ==
            |b.hosts| + (if Writes(b, arg) && WrittenName(b, arg) !in Names(b.hosts) then 1 else 0)
  {
    NamedStepIs(prefix, b, arg);
    if Writes(b, arg) {
      var name, a := WrittenName(b, arg), NamedLocals(b, arg).value.address.value;
      forall h { PutRecord(b.hosts, name, Record(a.ip, a.access), h); }
      PutSize(b.hosts, name, Record(a.ip, a.access));
      assert Created(Host(name, Record(a.ip, a.access)));
    }
  }

  lemma {:induction false} GenerateConserves(prefix: string, declared: set<string>, b: Batch, b': Batch, ip: string, access: string)
    requires HostName(prefix, b.nextId) !in Names(b.hosts) && b'.nextId == b.nextId + 1
    requires b'.hosts == Put(b.hosts, HostName(prefix, b.nextId), Record(ip, access))
    ensures Conserved(prefix, declared, b, b') && |b'.hosts| == |b.hosts| + 1
  {
    var h := Host(HostName(prefix, b.nextId), Record(ip, access));
    PutNew(b.hosts, h.name, h.opts);
    assert Created(h) && Generated(prefix, b.nextId, b'.nextId, h.name);
  }

  lemma {:induction false} StepConserves(prefix: string, b: Batch, arg: string)
    requires FreshCounter(prefix, b) && StepHost(prefix, b, arg).Success?
    ensures var b' := StepHost(prefix, b, arg).value;
            && Conserved(prefix, DeclaredNames(b, [arg]), b, b')
            && |b'.hosts| + (if Finds(b, arg) then 1 else 0) ==
               |b.hosts| + (b'.nextId - b.nextId) +
               (if Writes(b, arg) && WrittenName(b, arg) !in Names(b.hosts) then 1 else 0)
  {
    var b' := StepHost(prefix, b, arg).value;
    if IsNamed(arg) {
      NamedStepIs(prefix, b, arg);
      NamedConserves(prefix, b, arg);
    } else {
      var c := StepChange(prefix, b, arg);
      DeletionFinds(prefix, b, arg);
      match c
      case Same =>
      case Drop(name) => DropConserves(prefix, DeclaredNames(b, [arg]), b, b', name);
      case Generate(ip, access) => GenerateConserves(prefix, DeclaredNames(b, [arg]), b, b', ip, access);
    }
  }

  lemma {:induction false} DeclaredStep(prefix: string, b: Batch, args: seq<string>)
    requires args != [] && DistinctNames(b.hosts) && StepHost(prefix, b, args[0]).Success?
    ensures DeclaredNames(b, [args[0]]) <= DeclaredNames(b, args)
    ensures DeclaredNames(StepHost(prefix, b, args[0]).value, args[1..]) <= DeclaredNames(b, args)
  {
    assert args[0] in args && forall a | a in args[1..] :: a in args;
    var c := StepChange(prefix, b, args[0]);
  }

  lemma {:induction false} ConservedTrans(prefix: string, declared: set<string>, d: set<string>, d': set<string>, b: Batch, b': Batch, b'': Batch)
    requires FreshCounter(prefix, b) && d <= declared && d' <= declared
    requires Conserved(prefix, d, b, b') && Conserved(prefix, d', b', b'')
    ensures Conserved(prefix, declared, b, b'')
  {
    forall h | h in b.hosts && h.name in Names(b''.hosts) && h.name !in declared
      ensures h in b''.hosts
    {
    }
    forall h | h in b''.hosts && h !in b.hosts
      ensures Created(h) && (h.name in declared || Generated(prefix, b.nextId, b''.nextId, h.name))
    {
    }
  }

  /** Unless a declared name is generated later, the size of a batch's hosts is the initial one plus the generated hosts
      and the new declared ones minus the deleted ones, and every survivor that was not declared again is unchanged. */
  lemma {:induction false} BatchConserves(prefix: string, b: Batch, args: seq<string>)
    requires FreshCounter(prefix, b) && DeclaresUngenerated(prefix, b.nextId, args) && BuildFrom(prefix, b, args).Success?
    ensures var b' := BuildFrom(prefix, b, args).value;
            && Conserved(prefix, DeclaredNames(b, args), b, b')
            && |b'.hosts| + Deletions(prefix, b, args) == |b.hosts| + (b'.nextId - b.nextId) + Declarations(prefix, b, args)
    decreases |args|
  {
    if args != [] {
      var b' := StepHost(prefix, b, args[0]).value;
      assert args[0] in args && forall a | a in args[1..] :: a in args;
      StepKeepsFresh(prefix, b, args[0]);
      StepConserves(prefix, b, args[0]);
      BatchConserves(prefix, b', args[1..]);
      DeclaredStep(prefix, b, args);
      ConservedTrans(prefix, DeclaredNames(b, args), DeclaredNames(b, [args[0]]), DeclaredNames(b', args[1..]),
                     b, b', BuildFrom(prefix, b, args).value);
    }
  }

  // ---------- One batch against increments ----------

  /** Where the counter stands against the ids that a reload would read. */
  ghost predicate CounterInvariant(prefix: string, first: nat, b: Batch) {
    && FreshCounter(prefix, b) && 1 <= first <= b.nextId
    && (b.hostname.Some? ==> !StartsWith(b.hostname.value, prefix))
    && HighestFrom(prefix, Names(b.hosts), 0).Success?
    && var highest := HighestFrom(prefix, Names(b.hosts), 0).value;
       && highest >= b.nextId - 1
       && (highest == b.nextId - 1 <==> b.nextId == first || PrefixNumber(prefix) == 0)
  }

  lemma {:induction false} HighestWith(prefix: string, names: seq<string>, name: string)
    requires HighestFrom(prefix, names, 0).Success? && (StartsWith(name, prefix) ==> GetHostId(name).Success?)
    ensures var h := HighestFrom(prefix, names, 0).value;
            HighestFrom(prefix, names + [name], 0) ==
            Success(if StartsWith(name, prefix) && GetHostId(name).value > h then GetHostId(name).value else h)
  {
    HighestConcat(prefix, names, [name], 0);
    assert [name][1..] == [];
  }

  lemma {:induction false} GenerateCounts(prefix: string, names: seq<string>, id: nat)
    requires '.' !in prefix
    requires HighestFrom(prefix, names, 0).Success? && HighestFrom(prefix, names, 0).value >= id - 1
    requires PrefixNumber(prefix) == 0 ==> HighestFrom(prefix, names, 0).value == id - 1
    ensures var h := HighestFrom(prefix, names + [HostName(prefix, id)], 0);
            h.Success? && h.value >= id && (h.value == id <==> PrefixNumber(prefix) == 0)
  {
    var name := HostName(prefix, id);
    assert StartsWith(name, prefix);
    GeneratedId(prefix, id);
    HighestWith(prefix, names, name);
  }

  lemma {:induction false} ChangeKeepsCounter(prefix: string, first: nat, b: Batch, arg: string, b': Batch, c: Change)
    requires '.' !in prefix && CounterInvariant(prefix, first, b)
    requires Applies(prefix, b, arg, b', c) && !c.Drop? && FreshCounter(prefix, b')
    requires b'.hostname.Some? ==> !StartsWith(b'.hostname.value, prefix)
    ensures CounterInvariant(prefix, first, b')
  {
    match c
    case Same =>
    case Generate(ip, access) =>
      var name := HostName(prefix, b.nextId);
      PutDistinctNames(b.hosts, name, Record(ip, access));
      GenerateCounts(prefix, Names(b.hosts), b.nextId);
    case Declare(name, ip, access) =>
      PutDistinctNames(b.hosts, name, Record(ip, access));
      HighestWith(prefix, Names(b.hosts), name);
  }

  lemma {:induction false} StepKeepsCounter(prefix: string, first: nat, b: Batch, arg: string)
    requires '.' !in prefix && CounterInvariant(prefix, first, b)
    requires !IsDelete(arg) && DeclaresOutside(prefix, [arg]) && StepHost(prefix, b, arg).Success?
    ensures CounterInvariant(prefix, first, StepHost(prefix, b, arg).value)
  {
    var c := StepChange(prefix, b, arg);
    StepKeepsFresh(prefix, b, arg);
    assert arg in [arg];
    ChangeKeepsCounter(prefix, first, b, arg, StepHost(prefix, b, arg).value, c);
  }

  lemma {:induction false} BuildKeepsCounter(prefix: string, first: nat, b: Batch, args: seq<string>)
    requires '.' !in prefix && CounterInvariant(prefix, first, b)
    requires NoDeletions(args) && DeclaresOutside(prefix, args) && BuildFrom(prefix, b, args).Success?
    ensures CounterInvariant(prefix, first, BuildFrom(prefix, b, args).value)
    decreases |args|
  {
    if args != [] {
      assert args[0] in args && forall a | a in args[1..] :: a in args;
      StepKeepsCounter(prefix, first, b, args[0]);
      BuildKeepsCounter(prefix, first, StepHost(prefix, b, args[0]).value, args[1..]);
    }
  }

  /** The counter a reload recomputes from the names is the one the loop carried, if and only if nothing was
      generated or the prefix does not end in a positive number. */
  lemma {:induction false} CounterRecomputed(prefix: string, loaded: seq<Host>, args: seq<string>)
    requires '.' !in prefix && DistinctNames(loaded)
    requires NoDeletions(args) && DeclaresOutside(prefix, args) && Build(prefix, loaded, args).Success?
    ensures var b, b' := Start(prefix, loaded).value, Build(prefix, loaded, args).value;
            && Start(prefix, b'.hosts).Success?
            && (Start(prefix, b'.hosts).value.nextId == b'.nextId <==> b'.nextId == b.nextId || PrefixNumber(prefix) == 0)
  {
    StartIsFresh(prefix, loaded);
    BuildKeepsCounter(prefix, Start(prefix, loaded).value.nextId, Start(prefix, loaded).value, args);
  }

  /** Without a bare host name, the locals an earlier argument left behind are never read. */
  lemma {:induction false} LocalsAreUnread(prefix: string, b: Batch, c: Batch, args: seq<string>)
    requires b.hosts == c.hosts && b.nextId == c.nextId
    requires forall a | a in args && IsNamed(a) :: ',' in a
    ensures match BuildFrom(prefix, b, args)
            case Success(b') => BuildFrom(prefix, c, args).Success? && BuildFrom(prefix, c, args).value.hosts == b'.hosts
            case Failure(e) => BuildFrom(prefix, c, args) == Failure(e)
    decreases |args|
  {
    if args != [] {
      assert args[0] in args && forall a | a in args[1..] :: a in args;
      var r, s := StepHost(prefix, b, args[0]), StepHost(prefix, c, args[0]);
      assert r.Success? <==> s.Success?;
      if r.Success? {
        assert r.value.hosts == s.value.hosts && r.value.nextId == s.value.nextId;
        LocalsAreUnread(prefix, r.value, s.value, args[1..]);
      }
    }
  }

  lemma {:induction false} ReloadContinues(prefix: string, loaded: seq<Host>, xs: seq<string>, ys: seq<string>)
    requires '.' !in prefix && PrefixNumber(prefix) == 0 && DistinctNames(loaded)
    requires NoDeletions(xs) && DeclaresOutside(prefix, xs) && Build(prefix, loaded, xs).Success?
    requires forall a | a in ys && IsNamed(a) :: ',' in a
    ensures BuildHostnames(prefix, Build(prefix, loaded, xs).value.hosts, ys) == BuildHostnames(prefix, loaded, xs + ys)
  {
    var b := Build(prefix, loaded, xs).value;
    CounterRecomputed(prefix, loaded, xs);
    LocalsAreUnread(prefix, b, Start(prefix, b.hosts).value, ys);
    BuildFromConcat(prefix, Start(prefix, loaded).value, xs, ys);
  }

  /** Adding `xs`, saving, reloading and then processing `ys` gives the hosts, or the error, of the one batch `xs + ys`. */
  lemma {:induction false} BatchEqualsIncremental(prefix: string, loaded: seq<Host>, xs: seq<string>, ys: seq<string>)
    requires '.' !in prefix && PrefixNumber(prefix) == 0 && DistinctNames(loaded)
    requires NoDeletions(xs) && DeclaresOutside(prefix, xs)
    requires forall a | a in ys && IsNamed(a) :: ',' in a
    ensures BuildHostnames(prefix, loaded, xs + ys) ==
            match BuildHostnames(prefix, loaded, xs)
            case Success(hosts) => BuildHostnames(prefix, hosts, ys)
            case Failure(e) => Failure(e)
  {
    if Build(prefix, loaded, xs).Success? {
      ReloadContinues(prefix, loaded, xs, ys);
    } else if Start(prefix, loaded).Success? {
      BuildFromConcat(prefix, Start(prefix, loaded).value, xs, ys);
    }
  }

  // ---------- Running a batch again ----------

  ghost predicate AddressesOnly(args: seq<string>) {
    forall a | a in args :: IsAddress(a)
  }

  /** The address is in the inventory: processing it again is skipped. */
  predicate Settled(hosts: seq<Host>, arg: string) {
    && IsAddress(arg) && ParseAddress(arg).Success?
    && (arg in Names(hosts) || ExistsIp(hosts, ParseAddress(arg).value.ip) == Success(true))
  }

  lemma {:induction false} SettledStays(hosts: seq<Host>, more: seq<Host>, arg: string)
    requires Settled(hosts, arg)
    ensures Settled(hosts + more, arg)
  {
    NamesConcat(hosts, more);
    if arg !in Names(hosts) {
      ExistsIpStays(hosts, more, ParseAddress(arg).value.ip);
    }
  }

  lemma {:induction false} SettledLater(hosts: seq<Host>, later: seq<Host>, arg: string)
    requires Settled(hosts, arg) && hosts <= later
    ensures Settled(later, arg)
  {
    assert later == hosts + later[|hosts|..];
    SettledStays(hosts, later[|hosts|..], arg);
  }

  lemma {:induction false} AddressIsFresh(prefix: string, b: Batch, arg: string)
    requires FreshCounter(prefix, b) && IsAddress(arg) && StepHost(prefix, b, arg).Success?
    ensures FreshCounter(prefix, StepHost(prefix, b, arg).value)
  {
    StepKeepsFresh(prefix, b, arg);
  }

  lemma {:induction false} StepSettles(prefix: string, b: Batch, arg: string)
    requires FreshCounter(prefix, b) && IsAddress(arg) && StepHost(prefix, b, arg).Success?
    ensures b.hosts <= StepHost(prefix, b, arg).value.hosts
    ensures Settled(StepHost(prefix, b, arg).value.hosts, arg)
  {
    var a := ParseAddress(arg).value;
    if arg !in Names(b.hosts) && ExistsIp(b.hosts, a.ip) == Success(false) {
      var h := Host(HostName(prefix, b.nextId), Record(a.ip, a.access));
      PutNew(b.hosts, h.name, h.opts);
      ExistsIpAppended(b.hosts, h, a.ip);
    }
  }

  lemma {:induction false} BuildSettles(prefix: string, b: Batch, args: seq<string>)
    requires FreshCounter(prefix, b) && AddressesOnly(args) && BuildFrom(prefix, b, args).Success?
    ensures b.hosts <= BuildFrom(prefix, b, args).value.hosts
    ensures forall a | a in args :: Settled(BuildFrom(prefix, b, args).value.hosts, a)
    decreases |args|
  {
    if args != [] {
      var b' := StepHost(prefix, b, args[0]).value;
      var hosts := BuildFrom(prefix, b, args).value.hosts;
      assert args[0] in args && forall a | a in args[1..] :: a in args;
      AddressIsFresh(prefix, b, args[0]);
      StepSettles(prefix, b, args[0]);
      BuildSettles(prefix, b', args[1..]);
      SettledLater(b'.hosts, hosts, args[0]);
      assert hosts == BuildFrom(prefix, b', args[1..]).value.hosts;
      forall a | a in args
        ensures Settled(hosts, a)
      {
        assert a == args[0] || a in args[1..];
      }
    }
  }

  lemma {:induction false} SettledIsFixed(prefix: string, b: Batch, args: seq<string>)
    requires forall a | a in args :: Settled(b.hosts, a)
    ensures BuildFrom(prefix, b, args).Success? && BuildFrom(prefix, b, args).value.hosts == b.hosts
    decreases |args|
  {
    if args != [] {
      assert args[0] in args && forall a | a in args[1..] :: a in args;
      SettledIsSkipped(prefix, b, args[0]);
      SettledIsFixed(prefix, StepHost(prefix, b, args[0]).value, args[1..]);
    }
  }

  lemma {:induction false} SettledIsSkipped(prefix: string, b: Batch, arg: string)
    requires Settled(b.hosts, arg)
    ensures StepHost(prefix, b, arg).Success? && StepHost(prefix, b, arg).value.hosts == b.hosts
  {
  }

  /** Adding the same addresses to the hosts they were added to changes nothing. */
  lemma {:induction false} RerunIsFixed(prefix: string, loaded: seq<Host>, args: seq<string>)
    requires '.' !in prefix && DistinctNames(loaded) && AddressesOnly(args)
    requires BuildHostnames(prefix, loaded, args).Success?
    ensures loaded <= BuildHostnames(prefix, loaded, args).value
    ensures BuildHostnames(prefix, BuildHostnames(prefix, loaded, args).value, args) == BuildHostnames(prefix, loaded, args)
  {
    var hosts := BuildHostnames(prefix, loaded, args).value;
    StartIsFresh(prefix, loaded);
    BuildSettles(prefix, Start(prefix, loaded).value, args);
    CounterRecomputed(prefix, loaded, args);
    SettledIsFixed(prefix, Start(prefix, hosts).value, args);
  }

  // ---------- What an argument records, and which arguments complete ----------

  /** `ip,access` records the ip and reaches the host at the access address; a plain address is both. */
  lemma {:induction false} AddressRecords(prefix: string, b: Batch, ip: string, access: string)
    requires IsAddress(ip) && ',' !in ip && ',' !in access
    requires HostName(prefix, b.nextId) !in Names(b.hosts)
    requires ip + "," + access !in Names(b.hosts) && ip !in Names(b.hosts) && ExistsIp(b.hosts, ip) == Success(false)
    ensures var r := StepHost(prefix, b, ip + "," + access);
            r.Success? && r.value.hosts == b.hosts +
              [Host(HostName(prefix, b.nextId), map["ansible_host" := access, "ip" := ip, "access_ip" := access])]
    ensures var r := StepHost(prefix, b, ip);
            r.Success? && r.value.hosts == b.hosts +
              [Host(HostName(prefix, b.nextId), map["ansible_host" := ip, "ip" := ip, "access_ip" := ip])]
  {
    var arg := ip + [','] + access;
    SplitAt(ip, ',', access);
    assert Split(access, ',') == [access] && Split(ip, ',') == [ip];
    assert arg[0] == ip[0];
    PutNew(b.hosts, HostName(prefix, b.nextId), Record(ip, access));
    PutNew(b.hosts, HostName(prefix, b.nextId), Record(ip, ip));
  }

  /** `name,ip,access` records the host under its name, in place if the name is known. */
  lemma {:induction false} NamedRecords(prefix: string, b: Batch, name: string, ip: string, access: string)
    requires IsNamed(name) && ',' !in name && ',' !in ip && ',' !in access
    requires name + "," + (ip + "," + access) !in Names(b.hosts) && ExistsIp(b.hosts, ip) == Success(false)
    ensures var r := StepHost(prefix, b, name + "," + (ip + "," + access));
            r.Success? && r.value.nextId == b.nextId &&
            r.value.hosts == Put(b.hosts, name, map["ansible_host" := access, "ip" := ip, "access_ip" := access])
  {
    var arg := name + [','] + (ip + [','] + access);
    SplitAt(name, ',', ip + [','] + access);
    SplitAt(ip, ',', access);
    assert Split(access, ',') == [access];
    assert arg[0] == name[0];
  }

  /** The arguments the loop can process: at most one comma after an address, one or two after a host name. */
  predicate WellFormed(arg: string) {
    && arg != ""
    && (IsAddress(arg) ==> |Split(arg, ',')| <= 2)
    && (IsNamed(arg) ==> 2 <= |Split(arg, ',')| <= 3)
  }

  ghost predicate AllHaveIp(hosts: seq<Host>) {
    forall h | h in hosts :: "ip" in h.opts
  }

  lemma {:induction false} StepCompletes(prefix: string, b: Batch, arg: string)
    requires AllHaveIp(b.hosts) && (IsNamed(arg) ==> ',' in arg)
    ensures StepHost(prefix, b, arg).Success? <==> WellFormed(arg)
  {
    if IsDelete(arg) {
      ExistsIpCorrect(b.hosts, arg[1..]);
      if ExistsIp(b.hosts, arg[1..]) == Success(true) {
        FoundIsDeleted(b.hosts, arg[1..]);
      }
    } else if IsAddress(arg) && ParseAddress(arg).Success? {
      ExistsIpCorrect(b.hosts, ParseAddress(arg).value.ip);
    } else if IsNamed(arg) && NamedLocals(b, arg).Success? {
      ExistsIpCorrect(b.hosts, NamedLocals(b, arg).value.address.value.ip);
    }
  }

  lemma {:induction false} StepKeepsIps(prefix: string, b: Batch, arg: string)
    requires DistinctNames(b.hosts) && AllHaveIp(b.hosts) && StepHost(prefix, b, arg).Success?
    ensures AllHaveIp(StepHost(prefix, b, arg).value.hosts)
  {
    var c := StepChange(prefix, b, arg);
    match c
    case Same =>
    case Drop(name) =>
      var i := NameOf(b.hosts, name);
      forall h { RemoveMembers(b.hosts, i, h); }
    case Generate(ip, access) =>
      forall h { PutRecord(b.hosts, HostName(prefix, b.nextId), Record(ip, access), h); }
    case Declare(name, ip, access) =>
      forall h { PutRecord(b.hosts, name, Record(ip, access), h); }
  }

  /** On hosts that all have an ip, a batch without bare host names completes if and only if its arguments are well formed. */
  lemma {:induction false} BuildCompletes(prefix: string, b: Batch, args: seq<string>)
    requires DistinctNames(b.hosts) && AllHaveIp(b.hosts) && forall a | a in args && IsNamed(a) :: ',' in a
    ensures BuildFrom(prefix, b, args).Success? <==> forall a | a in args :: WellFormed(a)
    decreases |args|
  {
    if args != [] {
      assert args[0] in args && forall a | a in args[1..] :: a in args;
      assert args == [args[0]] + args[1..];
      StepCompletes(prefix, b, args[0]);
      if StepHost(prefix, b, args[0]).Success? {
        StepDistinctNames(prefix, b, args[0]);
        StepKeepsIps(prefix, b, args[0]);
        BuildCompletes(prefix, StepHost(prefix, b, args[0]).value, args[1..]);
      }
    }
  }
}
