/** Whole runs: the roles of a new cluster, address ranges, running again, and growing in steps. */
module RunTheorems {
  import opened Wrappers
  import opened Strings
  import opened DottedQuad
  import opened Ordered
  import opened Hosts
  import opened Batch
  import opened HostIds
  import opened BatchInvariants
  import opened BatchTheorems
  import opened RangeTheorems
  import opened Roles
  import opened RoleTheorems
  import opened Histories

  // ---------- New clusters ----------

  /** A run that starts from nothing writes exactly the hosts it built. */
  lemma {:induction false} FreshRun(cfg: Settings, saved: Option<Inventory>, args: seq<string>) returns (hosts: seq<Host>)
    requires !LoadsFiles(args) && !LoadsPrevious(args) && Run(cfg, saved, args).Success?
    ensures Expand(ChangedHosts(args)).Success?
    ensures BuildHostnames(cfg.prefix, [], Expand(ChangedHosts(args)).value) == Success(hosts)
    ensures Base(saved, args).children == map[KubeControlPlane := [], KubeNode := [], Etcd := [], CalicoRr := []]
    ensures Assigned(cfg, Base(saved, args), hosts, Run(cfg, saved, args).value)
    ensures DistinctNames(hosts) && Run(cfg, saved, args).value.hosts == hosts
  {
    var batch;
    batch, hosts := RunWrites(cfg, saved, args);
    BaseIs(saved, args);
    BuildKeepsDistinct(cfg.prefix, Start(cfg.prefix, []).value, batch);
    AssignedHolds(cfg, Base(saved, args), hosts);
    PutAllOverPrefix([], hosts);
  }

  lemma {:induction false} AddToEmpty(names: seq<string>)
    requires Distinct(names)
    ensures AddAll([], names) == names
  {
    var none: seq<string> := [];
    AddAllAppends(none, names);
    FilterAll(names, Elements(names) - Elements(none));
  }

  lemma {:induction false} CandidatesDistinct(cfg: Settings, names: seq<string>, out: set<string>, g: Group)
    requires Distinct(names)
    ensures Distinct(Candidates(cfg, names, out, g))
  {
    var first := Take(names, EtcdCount(|names|));
    assert Distinct(first);
    FilterDistinct(names, Elements(names) - out);
    FilterDistinct(first, Elements(first) - GROUP_KEYS);
  }

  /** Every group is exactly its candidates, in host order. */
  ghost predicate NewCluster(cfg: Settings, r: Inventory) {
    && HasRoles(r) && DistinctNames(r.hosts)
    && forall g | g in ROLES :: r.children[g] == Candidates(cfg, Names(r.hosts), NotNodes(cfg, r), g)
  }

  lemma {:induction false} FreshGroups(cfg: Settings, base: Inventory, hosts: seq<Host>, r: Inventory)
    requires base.children == map[KubeControlPlane := [], KubeNode := [], Etcd := [], CalicoRr := []]
    requires Assigned(cfg, base, hosts, r) && DistinctNames(hosts) && r.hosts == hosts
    ensures NewCluster(cfg, r)
  {
    forall g | g in ROLES
      ensures r.children[g] == Candidates(cfg, Names(r.hosts), NotNodes(cfg, r), g)
    {
      CandidatesDistinct(cfg, Names(hosts), NotNodes(cfg, r), g);
      AddToEmpty(Candidates(cfg, Names(hosts), NotNodes(cfg, r), g));
    }
  }

  lemma {:induction false} FreshCluster(cfg: Settings, saved: Option<Inventory>, args: seq<string>, r: Inventory)
    requires !LoadsFiles(args) && !LoadsPrevious(args) && Run(cfg, saved, args) == Success(r)
    ensures NewCluster(cfg, r)
  {
    var hosts := FreshRun(cfg, saved, args);
    FreshGroups(cfg, Base(saved, args), hosts, r);
  }

  lemma {:induction false} BlocksAre(cfg: Settings, names: seq<string>) returns (i: nat, j: nat)
    requires |names| >= cfg.scale
    ensures i <= j <= |names|
    ensures Take(names, EtcdCount(|names|)) == names[..i] && ControlCandidates(cfg, names) == names[i..j]
  {
    i := |Take(names, EtcdCount(|names|))|;
    j := i + |ControlCandidates(cfg, names)|;
  }

  lemma {:induction false} ConsecutiveBlocks(names: seq<string>, i: nat, j: nat)
    requires Distinct(names) && i <= j <= |names|
    ensures names[..i] + Filter(names, Elements(names) - Elements(names[..i])) == names
    ensures names[i..j] <= Filter(names, Elements(names) - Elements(names[..i]))
  {
    SuffixFilter(names, i);
    assert names[i..j] == names[i..][..j - i];
  }

  lemma {:induction false} ThreeBlocks(names: seq<string>, i: nat, j: nat)
    requires Distinct(names) && i <= j <= |names|
    ensures names[..i] + names[i..j] + Filter(names, Elements(names) - (Elements(names[..i]) + Elements(names[i..j]))) == names
  {
    SuffixFilter(names, j);
    assert names[..j] == names[..i] + names[i..j];
    assert Elements(names[..i]) + Elements(names[i..j]) == Elements(names[..j]);
  }

  /** At massive scale etcd, control plane and workers are three consecutive blocks of the hosts. */
  lemma {:induction false} MassiveBlocks(cfg: Settings, names: seq<string>)
    requires Distinct(names) && |names| >= cfg.scale
    ensures var etcd, control := Take(names, EtcdCount(|names|)), ControlCandidates(cfg, names);
            && etcd + Filter(names, Elements(names) - Elements(etcd)) == names
            && control <= Filter(names, Elements(names) - Elements(etcd))
            && etcd + control + Filter(names, Elements(names) - (Elements(etcd) + Elements(control))) == names
  {
    var i, j := BlocksAre(cfg, names);
    ConsecutiveBlocks(names, i, j);
    ThreeBlocks(names, i, j);
  }

  lemma {:induction false} SuffixFilter(names: seq<string>, k: nat)
    requires Distinct(names) && k <= |names|
    ensures Filter(names, Elements(names) - Elements(names[..k])) == names[k..]
  {
    var keep := Elements(names) - Elements(names[..k]);
    assert names == names[..k] + names[k..];
    FilterConcat(names[..k], names[k..], keep);
    FilterNone(names[..k], keep);
    assert forall x | x in names[k..] :: x in names && x !in names[..k];
    FilterAll(names[k..], keep);
  }

  function Least(a: nat, b: nat): nat {
    if a < b then a else b
  }

  /** At scale the etcd hosts are the route reflectors, unless one of them is named "hosts". */
  lemma {:induction false} NewReflectors(cfg: Settings, r: Inventory)
    requires NewCluster(cfg, r) && |r.hosts| >= cfg.scale
    ensures r.children[CalicoRr] == r.children[Etcd] <==> "hosts" !in r.children[Etcd]
  {
    var etcd := r.children[Etcd];
    assert r.children[CalicoRr] == Filter(etcd, Elements(etcd) - GROUP_KEYS);
    if "hosts" !in etcd {
      FilterAll(etcd, Elements(etcd) - GROUP_KEYS);
    }
  }

  /** At both thresholds or above, the three roles partition the hosts, in order, and the etcd hosts reflect routes. */
  lemma {:induction false} MassivePartition(cfg: Settings, r: Inventory)
    requires NewCluster(cfg, r) && |r.hosts| >= cfg.scale && |r.hosts| >= cfg.massive
    ensures r.children[Etcd] + r.children[KubeControlPlane] + r.children[KubeNode] == Names(r.hosts)
    ensures |r.children[Etcd]| == if |r.hosts| >= 3 then 3 else Least(1, |r.hosts|)
    ensures |r.children[KubeControlPlane]| == Least(cfg.controlHosts, |r.hosts| - |r.children[Etcd]|)
    ensures r.children[CalicoRr] == r.children[Etcd] <==> "hosts" !in r.children[Etcd]
  {
    MassiveBlocks(cfg, Names(r.hosts));
    NewReflectors(cfg, r);
  }

  /** Between the thresholds: workers are the hosts without etcd, and the control plane is the first of the workers. */
  lemma {:induction false} LargeRoles(cfg: Settings, r: Inventory)
    requires NewCluster(cfg, r) && cfg.scale <= |r.hosts| < cfg.massive
    ensures r.children[Etcd] + r.children[KubeNode] == Names(r.hosts)
    ensures r.children[KubeControlPlane] <= r.children[KubeNode]
    ensures Elements(r.children[Etcd]) !! Elements(r.children[KubeControlPlane])
  {
    MassiveBlocks(cfg, Names(r.hosts));
    assert NotNodes(cfg, r) == Elements(r.children[Etcd]);
    assert forall x | x in r.children[KubeControlPlane] :: x in r.children[KubeNode];
  }

  /** Generated hosts never have a name that `set_calico_rr` mistakes for a key of a group. */
  lemma {:induction false} GeneratedNameIsNoKey(prefix: string, id: nat)
    ensures HostName(prefix, id) !in GROUP_KEYS
  {
    var name := HostName(prefix, id);
    assert name[|name| - 1] == Decimal(id)[|Decimal(id)| - 1];
    assert Decimal(id)[|Decimal(id)| - 1] in Decimal(id);
  }

  /** A run that starts from nothing gives the hosts the roles of a new cluster. */
  lemma {:induction false} FreshRoles(cfg: Settings, saved: Option<Inventory>, args: seq<string>, r: Inventory)
    requires !LoadsFiles(args) && !LoadsPrevious(args) && Run(cfg, saved, args) == Success(r)
    ensures NewCluster(cfg, r)
    ensures |r.hosts| >= cfg.scale && |r.hosts| >= cfg.massive ==>
              r.children[Etcd] + r.children[KubeControlPlane] + r.children[KubeNode] == Names(r.hosts)
    ensures cfg.scale <= |r.hosts| < cfg.massive ==> r.children[Etcd] + r.children[KubeNode] == Names(r.hosts)
  {
    FreshCluster(cfg, saved, args, r);
    if |r.hosts| >= cfg.scale && |r.hosts| >= cfg.massive {
      MassivePartition(cfg, r);
    } else if |r.hosts| >= cfg.scale {
      LargeRoles(cfg, r);
    }
  }

  lemma {:induction false} FreshNamesGenerated(prefix: string, batch: seq<string>)
    requires NoneNamed(batch) && Build(prefix, [], batch).Success?
    ensures "hosts" !in Names(Build(prefix, [], batch).value.hosts)
  {
    var b, b' := Start(prefix, []).value, Build(prefix, [], batch).value;
    BatchConserves(prefix, b, batch);
    if "hosts" in Names(b'.hosts) {
      var i := NameOf(b'.hosts, "hosts");
      var h := b'.hosts[i];
      assert Generated(prefix, b.nextId, b'.nextId, h.name);
      var k: nat :| b.nextId <= k < b'.nextId && h.name == HostName(prefix, k);
      GeneratedNameIsNoKey(prefix, k);
    }
  }

  /** A new cluster of addresses at scale has its etcd hosts, and no others, as route reflectors. */
  lemma {:induction false} FreshReflectors(cfg: Settings, saved: Option<Inventory>, args: seq<string>, r: Inventory)
    requires !LoadsFiles(args) && !LoadsPrevious(args) && Run(cfg, saved, args) == Success(r)
    requires NoneNamed(ChangedHosts(args)) && |r.hosts| >= cfg.scale
    ensures HasRoles(r) && r.children[CalicoRr] == r.children[Etcd]
  {
    FreshCluster(cfg, saved, args, r);
    NoHostIsKey(cfg, saved, args, r);
    assert forall x | x in r.children[Etcd] :: x in Names(r.hosts);
    NewReflectors(cfg, r);
  }

  lemma {:induction false} NoHostIsKey(cfg: Settings, saved: Option<Inventory>, args: seq<string>, r: Inventory)
    requires !LoadsFiles(args) && !LoadsPrevious(args) && Run(cfg, saved, args) == Success(r)
    requires NoneNamed(ChangedHosts(args))
    ensures "hosts" !in Names(r.hosts)
  {
    var hosts := FreshRun(cfg, saved, args);
    ExpandUnnamed(ChangedHosts(args));
    FreshNamesGenerated(cfg.prefix, Expand(ChangedHosts(args)).value);
  }

  /** A new cluster of addresses of at least both thresholds: etcd, control plane and workers are consecutive blocks of
      the stated sizes, and the etcd hosts are the route reflectors. */
  lemma {:induction false} MassiveAddresses(cfg: Settings, saved: Option<Inventory>, args: seq<string>, r: Inventory)
    requires !LoadsFiles(args) && !LoadsPrevious(args) && Run(cfg, saved, args) == Success(r)
    requires NoneNamed(ChangedHosts(args)) && |r.hosts| >= cfg.scale && |r.hosts| >= cfg.massive
    ensures HasRoles(r) && r.children[CalicoRr] == r.children[Etcd]
    ensures r.children[Etcd] + r.children[KubeControlPlane] + r.children[KubeNode] == Names(r.hosts)
    ensures |r.children[Etcd]| == if |r.hosts| >= 3 then 3 else Least(1, |r.hosts|)
    ensures |r.children[KubeControlPlane]| == Least(cfg.controlHosts, |r.hosts| - |r.children[Etcd]|)
  {
    FreshCluster(cfg, saved, args, r);
    FreshReflectors(cfg, saved, args, r);
    MassivePartition(cfg, r);
  }

  lemma {:induction false} RunIs(cfg: Settings, saved: Option<Inventory>, args: seq<string>, batch: seq<string>, hosts: seq<Host>)
    requires !LoadsFiles(args) && !Informs(args)
    requires ChangedHosts(args) != [] && ChangedHosts(args)[0] != ""
    requires LoadsPrevious(args) ==> saved.Some?
    requires Expand(ChangedHosts(args)) == Success(batch)
    requires BuildHostnames(cfg.prefix, Base(saved, args).hosts, batch) == Success(hosts)
    ensures Run(cfg, saved, args) == Success(Assign(cfg, Base(saved, args), hosts))
  {
  }

  lemma {:induction false} NewAddressesRun(cfg: Settings, saved: Option<Inventory>, args: seq<string>, ips: seq<string>)
    requires args != [] && IsAddress(args[0]) && Expand(args) == Success(ips) && PlainAddresses(cfg.prefix, ips)
    ensures !LoadsFiles(args) && !LoadsPrevious(args) && Run(cfg, saved, args).Success?
    ensures Run(cfg, saved, args).value.hosts == AddressHosts(cfg.prefix, ips)
  {
    FreshAddresses(cfg.prefix, ips);
    BaseIs(saved, args);
    RunIs(cfg, saved, args, ips, AddressHosts(cfg.prefix, ips));
    var hosts := FreshRun(cfg, saved, args);
  }

  /** A new cluster of different addresses holds one host per address, named in order. */
  lemma {:induction false} AddressRun(cfg: Settings, saved: Option<Inventory>, ips: seq<string>)
    requires PlainAddresses(cfg.prefix, ips) && ips != []
    ensures !LoadsFiles(ips) && !LoadsPrevious(ips) && Run(cfg, saved, ips).Success?
    ensures Run(cfg, saved, ips).value.hosts == AddressHosts(cfg.prefix, ips)
  {
    assert ips[0] in ips;
    PlainExpands(ips);
    NewAddressesRun(cfg, saved, ips, ips);
  }

  /** A new cluster over the range a-b holds one host per address, named in order. */
  lemma {:induction false} RangeRun(cfg: Settings, saved: Option<Inventory>, a: nat, b: nat, arg: string)
    requires a <= b < ADDRESS_LIMIT && NamesFree(cfg.prefix, QuadRange(a, b)) && arg == Quad(a) + "-" + Quad(b)
    ensures !LoadsFiles([arg]) && !LoadsPrevious([arg]) && Run(cfg, saved, [arg]).Success?
    ensures Run(cfg, saved, [arg]).value.hosts == AddressHosts(cfg.prefix, QuadRange(a, b))
    ensures |Run(cfg, saved, [arg]).value.hosts| == b - a + 1
  {
    RangeStartsInDigit(a, b, arg);
    RangeExpands(a, b);
    RangeAddresses(a, b, QuadRange(a, b));
    NewAddressesRun(cfg, saved, [arg], QuadRange(a, b));
  }

  lemma {:induction false} RangeStartsInDigit(a: nat, b: nat, arg: string)
    requires a < ADDRESS_LIMIT && b < ADDRESS_LIMIT && arg == Quad(a) + "-" + Quad(b)
    ensures IsAddress(arg)
  {
    QuadChars(a);
    assert arg[0] == Quad(a)[0];
  }

  /** A range of at least both thresholds: three hosts for etcd, K for the control plane, the rest workers. */
  lemma {:induction false} RangeCluster(cfg: Settings, saved: Option<Inventory>, a: nat, b: nat, arg: string, r: Inventory)
    requires a <= b < ADDRESS_LIMIT && NamesFree(cfg.prefix, QuadRange(a, b)) && arg == Quad(a) + "-" + Quad(b)
    requires !LoadsFiles([arg]) && Run(cfg, saved, [arg]) == Success(r)
    requires b - a + 1 >= cfg.scale && b - a + 1 >= cfg.massive
    ensures HasRoles(r) && r.hosts == AddressHosts(cfg.prefix, QuadRange(a, b))
    ensures r.children[Etcd] + r.children[KubeControlPlane] + r.children[KubeNode] == Names(r.hosts)
    ensures r.children[CalicoRr] == r.children[Etcd]
  {
    RangeStartsInDigit(a, b, arg);
    RangeRun(cfg, saved, a, b, arg);
    MassiveAddresses(cfg, saved, [arg], r);
  }

  // ---------- Running again ----------

  lemma {:induction false} ExpandAddresses(args: seq<string>)
    requires Expand(args).Success? && AddressesOnly(args)
    ensures AddressesOnly(Expand(args).value)
  {
    ExpandMembers(args);
  }

  lemma {:induction false} AddressesAreAdds(prefix: string, args: seq<string>)
    requires AddressesOnly(args)
    ensures NoDeletions(args) && DeclaresOutside(prefix, args)
    ensures forall a | a in args && IsNamed(a) :: ',' in a
  {
  }

  lemma {:induction false} PrefixNames(a: seq<Host>, b: seq<Host>)
    requires a <= b
    ensures Names(a) <= Names(b) && Elements(Names(a)) <= Elements(Names(b))
  {
    assert b == a + b[|a|..];
    NamesConcat(a, b[|a|..]);
  }

  /** Adding only: the written hosts are the built ones, the loaded ones first. */
  lemma {:induction false} AddingAssigns(cfg: Settings, base: Inventory, batch: seq<string>, hosts: seq<Host>)
    requires '.' !in cfg.prefix && AddressesOnly(batch) && HasRoles(base) && DistinctNames(base.hosts)
    requires BuildHostnames(cfg.prefix, base.hosts, batch) == Success(hosts)
    ensures DistinctNames(hosts) && base.hosts <= hosts
    ensures Assign(cfg, base, hosts).hosts == hosts
  {
    RerunIsFixed(cfg.prefix, base.hosts, batch);
    BuildKeepsDistinct(cfg.prefix, Start(cfg.prefix, base.hosts).value, batch);
    AssignedHolds(cfg, base, hosts);
    PrefixNames(base.hosts, hosts);
    KeepAll(base.hosts, KeptNames(Names(hosts)));
    PutAllOverPrefix(base.hosts, hosts);
  }

  lemma {:induction false} AddAgain(cfg: Settings, base: Inventory, changed: seq<string>, batch: seq<string>, hosts: seq<Host>)
    requires '.' !in cfg.prefix && AddressesOnly(batch) && HasRoles(base) && DistinctNames(base.hosts)
    requires changed != [] && changed[0] != "" && Expand(changed) == Success(batch)
    requires BuildHostnames(cfg.prefix, base.hosts, batch) == Success(hosts)
    ensures Run(cfg, Some(Assign(cfg, base, hosts)), ["add"] + changed) == Success(Assign(cfg, base, hosts))
  {
    var r := Assign(cfg, base, hosts);
    AddingAssigns(cfg, base, batch, hosts);
    AssignIdempotent(cfg, base, hosts);
    AddLoads(r, changed);
    RerunIsFixed(cfg.prefix, base.hosts, batch);
    RunIs(cfg, Some(r), ["add"] + changed, batch, hosts);
  }

  /** Adding the same addresses to the file they produced writes the same file: hosts, order and every group. */
  lemma {:induction false} RerunIsIdentity(cfg: Settings, saved: Option<Inventory>, args: seq<string>)
    requires '.' !in cfg.prefix && !LoadsFiles(args) && AddressesOnly(ChangedHosts(args))
    requires saved.Some? ==> DistinctNames(saved.value.hosts)
    requires Run(cfg, saved, args).Success?
    ensures Run(cfg, Some(Run(cfg, saved, args).value), ["add"] + ChangedHosts(args)) == Run(cfg, saved, args)
  {
    var batch, hosts := RunWrites(cfg, saved, args);
    BaseIs(saved, args);
    ExpandAddresses(ChangedHosts(args));
    AddAgain(cfg, Base(saved, args), ChangedHosts(args), batch, hosts);
  }

  // ---------- Growing in steps ----------

  lemma {:induction false} ExpandConcat(xs: seq<string>, ys: seq<string>)
    ensures Expand(xs + ys) ==
            if Expand(xs).Failure? then Expand(xs)
            else if Expand(ys).Failure? then Expand(ys)
            else Success(Expand(xs).value + Expand(ys).value)
  {
    if xs == [] {
      assert xs + ys == ys;
      if Expand(ys).Success? {
        assert [] + Expand(ys).value == Expand(ys).value;
      }
    } else {
      assert (xs + ys)[1..] == xs[1..] + ys;
      ExpandConcat(xs[1..], ys);
      if ExpandArg(xs[0]).Success? && Expand(xs[1..]).Success? && Expand(ys).Success? {
        var a, b, c := ExpandArg(xs[0]).value, Expand(xs[1..]).value, Expand(ys).value;
        assert a + (b + c) == (a + b) + c;
      }
    }
  }

  /** Adding a prefix first makes no difference. */
  lemma {:induction false} AddPrefixFirst(group: seq<string>, a: seq<string>, b: seq<string>)
    requires a <= b
    ensures AddAll(AddAll(group, a), b) == AddAll(group, b)
  {
    var rest := b[|a|..];
    assert b == a + rest;
    AddAllConcat(group, a, rest);
    AddAllConcat(AddAll(group, a), a, rest);
    AddAllPresent(AddAll(group, a), a) by {
      AddAllMembers(group, a);
    }
  }

  /** Below scale, what a first assignment offers a group is the beginning of what a later one offers. */
  lemma {:induction false} CandidatesGrow(cfg: Settings, a: seq<string>, b: seq<string>, g: Group)
    requires a <= b && |b| < cfg.scale
    ensures Candidates(cfg, a, {}, g) <= Candidates(cfg, b, {}, g)
  {
    FilterAll(a, Elements(a) - {});
    FilterAll(b, Elements(b) - {});
  }

  lemma {:induction false} GroupGrows(cfg: Settings, group: seq<string>, a: seq<string>, b: seq<string>, g: Group)
    requires a <= b && |b| < cfg.scale && Elements(group) <= Elements(a)
    ensures var ca, cb := Candidates(cfg, a, {}, g), Candidates(cfg, b, {}, g);
            AddAll(Filter(AddAll(Filter(group, KeptNames(a)), ca), KeptNames(b)), cb) == AddAll(Filter(group, KeptNames(b)), cb)
  {
    var ca, cb := Candidates(cfg, a, {}, g), Candidates(cfg, b, {}, g);
    assert forall x | x in a :: x in b;
    FilterAll(group, KeptNames(a));
    FilterAll(group, KeptNames(b));
    CandidatesAreHosts(cfg, a, {}, g);
    AddAllMembers(group, ca);
    FilterAll(AddAll(group, ca), KeptNames(b));
    CandidatesGrow(cfg, a, b, g);
    AddPrefixFirst(group, ca, cb);
  }

  /** Assigning fewer hosts first makes no difference to the groups below scale. */
  lemma {:induction false} AssignGrows(cfg: Settings, inv: Inventory, a: seq<Host>, b: seq<Host>, r: Inventory, ra: Inventory, rb: Inventory)
    requires HasRoles(inv) && HasRoles(ra) && forall g | g in inv.children :: Elements(inv.children[g]) <= Elements(Names(a))
    requires Names(a) <= Names(b) && |b| < cfg.scale && |b| < cfg.massive
    requires Assigned(cfg, inv, a, ra) && ra.hosts == a
    requires Assigned(cfg, ra, b, rb) && Assigned(cfg, inv, b, r) && r.hosts == rb.hosts == b
    ensures rb == r
  {
    forall g | g in inv.children
      ensures rb.children[g] == r.children[g]
    {
      AssignGrowsAt(cfg, inv, a, b, r, ra, rb, g);
    }
  }

  lemma {:induction false} AssignGrowsAt(cfg: Settings, inv: Inventory, a: seq<Host>, b: seq<Host>, r: Inventory, ra: Inventory, rb: Inventory, g: Group)
    requires HasRoles(inv) && HasRoles(ra) && g in inv.children && Elements(inv.children[g]) <= Elements(Names(a))
    requires Names(a) <= Names(b) && |b| < cfg.scale && |b| < cfg.massive
    requires Assigned(cfg, inv, a, ra) && ra.hosts == a
    requires Assigned(cfg, ra, b, rb) && Assigned(cfg, inv, b, r) && r.hosts == rb.hosts == b
    ensures rb.children[g] == r.children[g]
  {
    assert NotNodes(cfg, ra) == {} && NotNodes(cfg, rb) == {} && NotNodes(cfg, r) == {};
    GroupGrows(cfg, inv.children[g], Names(a), Names(b), g);
  }

  lemma {:induction false} StepsAssign(cfg: Settings, base: Inventory, a: seq<Host>, b: seq<Host>, ra: Inventory)
    requires HasRoles(base) && base.hosts <= a <= b
    requires forall g | g in base.children :: Elements(base.children[g]) <= Elements(Names(base.hosts))
    requires |b| < cfg.scale && |b| < cfg.massive
    requires ra == Assign(cfg, base, a) && HasRoles(ra) && ra.hosts == a
    requires Assign(cfg, base, b).hosts == b && Assign(cfg, ra, b).hosts == b
    ensures Assign(cfg, ra, b) == Assign(cfg, base, b)
  {
    PrefixNames(base.hosts, a);
    PrefixNames(a, b);
    AssignedHolds(cfg, base, a);
    AssignedHolds(cfg, ra, b);
    AssignedHolds(cfg, base, b);
    AssignGrows(cfg, base, a, b, Assign(cfg, base, b), ra, Assign(cfg, ra, b));
  }

  lemma {:induction false} AddressesInSteps(prefix: string, loaded: seq<Host>, xs: seq<string>, ys: seq<string>)
    requires '.' !in prefix && PrefixNumber(prefix) == 0 && DistinctNames(loaded)
    requires AddressesOnly(xs) && AddressesOnly(ys)
    ensures BuildHostnames(prefix, loaded, xs + ys) ==
            match BuildHostnames(prefix, loaded, xs)
            case Success(hosts) => BuildHostnames(prefix, hosts, ys)
            case Failure(e) => Failure(e)
  {
    AddressesAreAdds(prefix, xs);
    AddressesAreAdds(prefix, ys);
    BatchEqualsIncremental(prefix, loaded, xs, ys);
  }

  lemma {:induction false} StepsBuildAndAssign(cfg: Settings, base: Inventory, xs: seq<string>, ys: seq<string>,
                                               a: seq<Host>, b: seq<Host>, ra: Inventory)
    requires '.' !in cfg.prefix && PrefixNumber(cfg.prefix) == 0 && AddressesOnly(xs) && AddressesOnly(ys)
    requires HasRoles(base) && DistinctNames(base.hosts)
    requires forall g | g in base.children :: Elements(base.children[g]) <= Elements(Names(base.hosts))
    requires BuildHostnames(cfg.prefix, base.hosts, xs) == Success(a) && BuildHostnames(cfg.prefix, a, ys) == Success(b)
    requires |b| < cfg.scale && |b| < cfg.massive && ra == Assign(cfg, base, a) && HasRoles(ra)
    ensures ra.hosts == a && Assign(cfg, ra, b).hosts == b
    ensures BuildHostnames(cfg.prefix, base.hosts, xs + ys) == Success(b)
    ensures Assign(cfg, ra, b) == Assign(cfg, base, b)
  {
    AddressesInSteps(cfg.prefix, base.hosts, xs, ys);
    AddingAssigns(cfg, base, xs, a);
    AddingAssigns(cfg, ra, ys, b);
    AddingAssigns(cfg, base, xs + ys, b);
    StepsAssign(cfg, base, a, b, ra);
  }

  lemma {:induction false} AddLoads(saved: Inventory, changed: seq<string>)
    requires HasRoles(saved)
    ensures var args := ["add"] + changed;
            !LoadsFiles(args) && !Informs(args) && LoadsPrevious(args) && ChangedHosts(args) == changed
            && Base(Some(saved), args) == saved
  {
    assert (["add"] + changed)[1..] == changed;
    BaseIs(Some(saved), ["add"] + changed);
  }

  /** What an `add` run that writes has done. */
  lemma {:induction false} AddWrites(cfg: Settings, saved: Inventory, changed: seq<string>, r: Inventory)
    returns (batch: seq<string>, hosts: seq<Host>)
    requires HasRoles(saved) && Run(cfg, Some(saved), ["add"] + changed) == Success(r)
    ensures changed != [] && changed[0] != "" && Expand(changed) == Success(batch)
    ensures BuildHostnames(cfg.prefix, saved.hosts, batch) == Success(hosts) && r == Assign(cfg, saved, hosts)
  {
    AddLoads(saved, changed);
    batch, hosts := RunWrites(cfg, Some(saved), ["add"] + changed);
  }

  /** A cluster that stays below scale is the same file whether its addresses are added in one run or in two. */
  lemma {:induction false} GrowingInSteps(cfg: Settings, saved: Inventory, xs: seq<string>, ys: seq<string>, first: Inventory, second: Inventory)
    requires '.' !in cfg.prefix && PrefixNumber(cfg.prefix) == 0 && Consistent(saved)
    requires AddressesOnly(xs) && AddressesOnly(ys)
    requires Run(cfg, Some(saved), ["add"] + xs) == Success(first) && Run(cfg, Some(first), ["add"] + ys) == Success(second)
    requires |second.hosts| < cfg.scale && |second.hosts| < cfg.massive
    ensures Run(cfg, Some(saved), ["add"] + (xs + ys)) == Success(second)
  {
    var batchX, a := AddWrites(cfg, saved, xs, first);
    AssignHasRoles(cfg, saved, a);
    var batchY, b := AddWrites(cfg, first, ys, second);
    ExpandAddresses(xs);
    ExpandAddresses(ys);
    AddingAssigns(cfg, saved, batchX, a);
    AddingAssigns(cfg, first, batchY, b);
    StepsBuildAndAssign(cfg, saved, batchX, batchY, a, b, first);
    ExpandConcat(xs, ys);
    AddLoads(saved, xs + ys);
    RunIs(cfg, Some(saved), ["add"] + (xs + ys), batchX + batchY, b);
  }

  // ---------- Loading what a run wrote ----------

  lemma {:induction false} AddressesReload(prefix: string, ips: seq<string>)
    requires '.' !in prefix && PlainAddresses(prefix, ips)
    ensures Start(prefix, AddressHosts(prefix, ips)).Success?
    ensures DistinctNames(AddressHosts(prefix, ips))
  {
    FreshAddresses(prefix, ips);
    AddressesAreAdds(prefix, ips);
    CounterRecomputed(prefix, [], ips);
    BuildKeepsDistinct(prefix, Start(prefix, []).value, ips);
  }


  lemma {:induction false} DeletionIsKept(name: string, more: seq<string>)
    requires Expand(more) == Success(more)
    ensures var args := ["-" + name] + more;
            && Expand(args) == Success(args)
            && !LoadsFiles(args) && !Informs(args) && ChangedHosts(args) == args && LoadsPrevious(args) && args[0] != ""
  {
    var args := ["-" + name] + more;
    assert args[1..] == more && args[0][0] == '-';
  }
}
