/** What deleting a host and declaring it again in one run does to the groups of first hosts. */
module Readditions {
  import opened Wrappers
  import opened Strings
  import opened Ordered
  import opened Hosts
  import opened Batch
  import opened BatchTheorems
  import opened RangeTheorems
  import opened Roles
  import opened RoleTheorems
  import opened Histories
  import opened GroupPrefixes
  import opened RoleHistories
  import opened RunTheorems
  import Sequences

  // ---------- The batch ----------

  function Without(hosts: seq<Host>, i: nat): seq<Host>
    requires i < |hosts|
  {
    hosts[..i] + hosts[i + 1..]
  }

  lemma {:induction false} RemoveAt(hosts: seq<Host>, i: nat)
    requires DistinctNames(hosts) && i < |hosts|
    ensures Remove(hosts, hosts[i].name) == Without(hosts, i)
  {
    if i > 0 {
      assert Names(hosts)[0] != Names(hosts)[i] && Names(hosts)[1..] == Names(hosts[1..]);
      RemoveAt(hosts[1..], i - 1);
      Sequences.WithoutTail(hosts, i);
    }
  }

  lemma {:induction false} WithoutNames(hosts: seq<Host>, i: nat)
    requires DistinctNames(hosts) && i < |hosts|
    ensures Names(Without(hosts, i)) == Names(hosts)[..i] + Names(hosts)[i + 1..]
    ensures DistinctNames(Without(hosts, i)) && hosts[i].name !in Names(Without(hosts, i))
  {
    assert hosts[i].name == Names(hosts)[i];
  }

  /** The file can be loaded, and host i can be declared under its name with the ip. */
  ghost predicate CanReadd(prefix: string, hosts: seq<Host>, i: nat, name: string, ip: string) {
    && Start(prefix, hosts).Success? && DistinctNames(hosts)
    && i < |hosts| && name == hosts[i].name && IsNamed(name) && ',' !in name && ',' !in ip && name + "," + ip !in Names(hosts)
    && forall j | 0 <= j < |hosts| && j != i :: GetIp(hosts[j].opts).Success? && GetIp(hosts[j].opts).value != ip
  }

  lemma {:induction false} FirstStep(prefix: string, b: Batch, x: string, rest: seq<string>)
    requires StepHost(prefix, b, x).Success?
    ensures BuildFrom(prefix, b, [x] + rest) == BuildFrom(prefix, StepHost(prefix, b, x).value, rest)
  {
    Sequences.ConsTail(x, rest);
  }

  lemma {:induction false} DeleteAt(prefix: string, b: Batch, i: nat, gone: string)
    requires DistinctNames(b.hosts) && i < |b.hosts| && gone == "-" + b.hosts[i].name
    ensures StepHost(prefix, b, gone) == Success(b.(hosts := Without(b.hosts, i)))
  {
    assert gone[1..] == b.hosts[i].name == Names(b.hosts)[i];
    RemoveAt(b.hosts, i);
  }

  lemma {:induction false} NewDeclaration(prefix: string, b: Batch, name: string, ip: string)
    requires IsNamed(name) && ',' !in name && ',' !in ip
    requires name !in Names(b.hosts) && name + "," + ip !in Names(b.hosts) && ExistsIp(b.hosts, ip) == Success(false)
    ensures StepHost(prefix, b, name + "," + ip).Success?
    ensures StepHost(prefix, b, name + "," + ip).value.hosts == b.hosts + [Host(name, Record(ip, ip))]
  {
    var arg := name + [','] + ip;
    assert arg[0] == name[0];
    SplitAt(name, ',', ip);
    assert Split(ip, ',') == [ip];
    PutNew(b.hosts, name, Record(ip, ip));
  }

  /** Loaded hosts other than host i. */
  ghost predicate Others(hosts: seq<Host>, i: nat, some: seq<Host>) {
    forall h | h in some :: exists j :: 0 <= j < |hosts| && j != i && hosts[j] == h
  }

  lemma {:induction false} OthersOfTail(hosts: seq<Host>, i: nat)
    requires 0 < i < |hosts|
    ensures Others(hosts, i, Without(hosts[1..], i - 1))
  {
    var some := Without(hosts[1..], i - 1);
    forall h | h in some
      ensures exists j :: 0 <= j < |hosts| && j != i && hosts[j] == h
    {
      var k :| 0 <= k < |some| && some[k] == h;
      var j := if k < i - 1 then k + 1 else k + 2;
      assert hosts[j] == h;
    }
  }

  /** Hosts among the loaded ones that lack the declared one: the declaration appends it. */
  lemma {:induction false} DeclareBack(prefix: string, hosts: seq<Host>, i: nat, name: string, ip: string, b: Batch)
    requires CanReadd(prefix, hosts, i, name, ip) && Others(hosts, i, b.hosts)
    ensures BuildFrom(prefix, b, [name + "," + ip]).Success?
    ensures BuildFrom(prefix, b, [name + "," + ip]).value.hosts == b.hosts + [Host(name, Record(ip, ip))]
  {
    forall h | h in b.hosts
      ensures h.name != name && h.name != name + "," + ip && GetIp(h.opts).Success? && GetIp(h.opts).value != ip
    {
      var j :| 0 <= j < |hosts| && j != i && hosts[j] == h;
      assert Names(hosts)[j] != Names(hosts)[i] && Names(hosts)[j] in Names(hosts);
    }
    AllIpsDiffer(b.hosts, ip);
    NewDeclaration(prefix, b, name, ip);
    OneStep(prefix, b, name + "," + ip);
  }

  lemma {:induction false} ReaddBuilds(prefix: string, hosts: seq<Host>, i: nat, name: string, ip: string)
    requires CanReadd(prefix, hosts, i, name, ip)
    ensures BuildHostnames(prefix, hosts, ["-" + name] + [name + "," + ip]) ==
            Success(Without(hosts, i) + [Host(name, Record(ip, ip))])
  {
    var b := Start(prefix, hosts).value;
    DeleteAt(prefix, b, i, "-" + name);
    FirstStep(prefix, b, "-" + name, [name + "," + ip]);
    DeclareBack(prefix, hosts, i, name, ip, b.(hosts := Without(hosts, i)));
  }

  /** Deleting the first host, and then deleting a later one and declaring it again. */
  lemma {:induction false} DropAndReaddBuilds(prefix: string, hosts: seq<Host>, i: nat, name: string, ip: string)
    requires CanReadd(prefix, hosts, i, name, ip) && i > 0
    ensures BuildHostnames(prefix, hosts, ["-" + hosts[0].name] + (["-" + name] + [name + "," + ip])) ==
            Success(Without(hosts[1..], i - 1) + [Host(name, Record(ip, ip))])
  {
    var b := Start(prefix, hosts).value;
    var gone, more := "-" + name, [name + "," + ip];
    TwoDeleted(prefix, b, i, "-" + hosts[0].name, gone, more);
    OthersOfTail(hosts, i);
    DeclareBack(prefix, hosts, i, name, ip, b.(hosts := Without(hosts[1..], i - 1)));
  }

  lemma {:induction false} TwoDeleted(prefix: string, b: Batch, i: nat, first: string, gone: string, more: seq<string>)
    requires DistinctNames(b.hosts) && 0 < i < |b.hosts|
    requires first == "-" + b.hosts[0].name && gone == "-" + b.hosts[i].name
    ensures BuildFrom(prefix, b, [first] + ([gone] + more)) ==
            BuildFrom(prefix, b.(hosts := Without(b.hosts[1..], i - 1)), more)
  {
    assert Without(b.hosts, 0) == b.hosts[1..];
    WithoutNames(b.hosts, 0);
    DeleteAt(prefix, b, 0, first);
    FirstStep(prefix, b, first, [gone] + more);
    var b' := b.(hosts := b.hosts[1..]);
    DeleteAt(prefix, b', i - 1, gone);
    FirstStep(prefix, b', gone, more);
  }

  // ---------- The run ----------

  lemma {:induction false} DeletingRun(cfg: Settings, saved: Inventory, args: seq<string>, hosts: seq<Host>)
    requires HasRoles(saved) && args != [] && args[0] != "" && args[0][0] == '-' && Expand(args) == Success(args)
    requires BuildHostnames(cfg.prefix, saved.hosts, args) == Success(hosts)
    ensures !LoadsFiles(args) && Run(cfg, Some(saved), args) == Success(Assign(cfg, saved, hosts))
  {
    BaseIs(Some(saved), args);
    RunIs(cfg, Some(saved), args, args, hosts);
  }

  lemma {:induction false} ReaddExpands(name: string, ip: string)
    requires IsNamed(name)
    ensures var args := ["-" + name] + [name + "," + ip];
            args[0] != "" && args[0][0] == '-' && Expand(args) == Success(args)
  {
    var back := name + "," + ip;
    assert back[0] == name[0];
    ExpandSingle(back);
    DeletionIsKept(name, [back]);
  }

  lemma {:induction false} AssignIs(cfg: Settings, inv: Inventory, hosts: seq<Host>, r: Inventory)
    requires HasRoles(inv) && r == Assign(cfg, inv, hosts)
    ensures HasRoles(r) && Assigned(cfg, inv, hosts, r)
  {
    AssignHasRoles(cfg, inv, hosts);
    AssignedHolds(cfg, inv, hosts);
  }

  // ---------- Declaring the first host again: one member too many ----------

  lemma {:induction false} RotatedFirst(before: seq<string>, k: nat)
    requires Distinct(before) && 1 <= k < |before|
    ensures AddAll(before[..k], before[1..k + 1]) == before[..k + 1]
  {
    var group, middle, last := before[..k], before[1..k], before[k];
    assert before[1..k + 1] == middle + [last];
    AddAllConcat(group, middle, [last]);
    assert forall x | x in middle :: x in group;
    AddAllPresent(group, middle);
    assert [last][1..] == [];
    assert AddAll(group, [last]) == AddName(group, last);
    assert last !in group;
  }

  lemma {:induction false} RotatedElements(before: seq<string>, names: seq<string>)
    requires before != [] && names == before[1..] + [before[0]]
    ensures Elements(before) == Elements(names)
  {
    Sequences.HeadTail(before);
  }

  lemma {:induction false} RotatedGroup(before: seq<string>, names: seq<string>, group: seq<string>, k: nat)
    requires Distinct(before) && 1 <= k < |before| && names == before[1..] + [before[0]] && group == before[..k]
    ensures AddAll(Filter(group, KeptNames(names)), Take(names, k)) == before[..k + 1]
  {
    RotatedElements(before, names);
    assert Take(names, k) == before[1..k + 1];
    assert forall x | x in group :: x in before;
    FilterAll(group, KeptNames(names));
    RotatedFirst(before, k);
  }

  lemma {:induction false} RotatedHosts(before: seq<Host>, hosts: seq<Host>)
    requires DistinctNames(before) && Elements(Names(before)) == Elements(Names(hosts))
    ensures Names(PutAll(KeepHosts(before, KeptNames(Names(hosts))), hosts)) == Names(before)
  {
    KeepAll(before, KeptNames(Names(hosts)));
    PutAllNames(before, hosts);
    AddAllPresent(Names(before), Names(hosts));
  }

  lemma {:induction false} RotatedNames(hosts: seq<Host>, back: Host)
    requires DistinctNames(hosts) && hosts != [] && back.name == hosts[0].name
    ensures Names(Without(hosts, 0) + [back]) == Names(hosts)[1..] + [Names(hosts)[0]]
  {
    WithoutNames(hosts, 0);
    AppendNames(Without(hosts, 0), back);
    assert Names(hosts)[..0] == [];
    Sequences.EmptyUnit(Names(hosts)[1..]);
  }

  /** The hosts are where they were. */
  ghost predicate SamePlaces(saved: Inventory, r: Result<Inventory>) {
    r.Success? && HasRoles(r.value) && Names(r.value.hosts) == Names(saved.hosts)
  }

  lemma {:induction false} RotatedKeeps(cfg: Settings, inv: Inventory, hosts: seq<Host>, r: Inventory)
    requires HasRoles(inv) && DistinctNames(inv.hosts) && inv.hosts != [] && Assigned(cfg, inv, hosts, r)
    requires Names(hosts) == Names(inv.hosts)[1..] + [Names(inv.hosts)[0]]
    ensures Names(r.hosts) == Names(inv.hosts)
  {
    EtcdIs(cfg, inv, hosts, r);
    RotatedElements(Names(inv.hosts), Names(hosts));
    RotatedHosts(inv.hosts, hosts);
  }

  lemma {:induction false} EtcdOfMany(inv: Inventory)
    requires HasRoles(inv) && EtcdPrefix(inv) && |inv.hosts| >= 3
    ensures inv.children[Etcd] == Names(inv.hosts)[..3]
  {
  }

  lemma {:induction false} RotationGrowsEtcd(cfg: Settings, inv: Inventory, hosts: seq<Host>, r: Inventory)
    requires HasRoles(inv) && EtcdPrefix(inv) && DistinctNames(inv.hosts) && |inv.hosts| >= 4
    requires Names(hosts) == Names(inv.hosts)[1..] + [Names(inv.hosts)[0]]
    requires Assigned(cfg, inv, hosts, r)
    ensures r.children[Etcd] == Names(inv.hosts)[..4]
  {
    EtcdIs(cfg, inv, hosts, r);
    EtcdOfMany(inv);
    RotatedGroup(Names(inv.hosts), Names(hosts), inv.children[Etcd], 3);
  }

  /** Deleting the first of four or more hosts and declaring it again in one batch breaks the size of the etcd group:
      the batch lists the host last, so three others are added, while `all.hosts` and the group keep its place. */
  lemma {:induction false} ReaddingGrowsEtcd(cfg: Settings, saved: Inventory, name: string, ip: string, args: seq<string>)
    requires HasRoles(saved) && EtcdPrefix(saved) && |saved.hosts| >= 4 && CanReadd(cfg.prefix, saved.hosts, 0, name, ip)
    requires args == ["-" + name] + [name + "," + ip]
    ensures !LoadsFiles(args) && SamePlaces(saved, Run(cfg, Some(saved), args))
    ensures Run(cfg, Some(saved), args).value.children[Etcd] == Names(saved.hosts)[..4]
  {
    var back := Host(name, Record(ip, ip));
    var hosts := Without(saved.hosts, 0) + [back];
    var r := Assign(cfg, saved, hosts);
    ReaddBuilds(cfg.prefix, saved.hosts, 0, name, ip);
    ReaddExpands(name, ip);
    DeletingRun(cfg, saved, args, hosts);
    RotatedNames(saved.hosts, back);
    AssignIs(cfg, saved, hosts, r);
    RotatedKeeps(cfg, saved, hosts, r);
    RotationGrowsEtcd(cfg, saved, hosts, r);
  }

  lemma {:induction false} RotationGrowsControl(cfg: Settings, inv: Inventory, hosts: seq<Host>, r: Inventory)
    requires HasRoles(inv) && DistinctNames(inv.hosts) && SmallCluster(cfg.controlHosts, inv)
    requires 1 <= cfg.controlHosts < |inv.hosts| < cfg.scale && |hosts| == |inv.hosts|
    requires Names(hosts) == Names(inv.hosts)[1..] + [Names(inv.hosts)[0]]
    requires Assigned(cfg, inv, hosts, r)
    ensures r.children[KubeControlPlane] == Names(inv.hosts)[..cfg.controlHosts + 1]
  {
    RotatedGroup(Names(inv.hosts), Names(hosts), inv.children[KubeControlPlane], cfg.controlHosts);
  }

  /** Below scale it also breaks the size of the control plane: with K of more hosts in it, it gets K + 1. */
  lemma {:induction false} ReaddingGrowsControl(cfg: Settings, saved: Inventory, name: string, ip: string, args: seq<string>)
    requires HasRoles(saved) && SmallCluster(cfg.controlHosts, saved) && CanReadd(cfg.prefix, saved.hosts, 0, name, ip)
    requires 1 <= cfg.controlHosts < |saved.hosts| < cfg.scale
    requires args == ["-" + name] + [name + "," + ip]
    ensures !LoadsFiles(args) && SamePlaces(saved, Run(cfg, Some(saved), args))
    ensures Run(cfg, Some(saved), args).value.children[KubeControlPlane] == Names(saved.hosts)[..cfg.controlHosts + 1]
  {
    var back := Host(name, Record(ip, ip));
    var hosts := Without(saved.hosts, 0) + [back];
    var r := Assign(cfg, saved, hosts);
    ReaddBuilds(cfg.prefix, saved.hosts, 0, name, ip);
    ReaddExpands(name, ip);
    DeletingRun(cfg, saved, args, hosts);
    RotatedNames(saved.hosts, back);
    AssignIs(cfg, saved, hosts, r);
    RotatedKeeps(cfg, saved, hosts, r);
    RotationGrowsControl(cfg, saved, hosts, r);
  }

  // ---------- Declaring a later host again: the right size in the wrong place ----------

  lemma {:induction false} GapElements(before: seq<string>, names: seq<string>)
    requires Distinct(before) && |before| >= 5 && names == before[1..3] + before[4..] + [before[3]]
    ensures Elements(names) == Elements(before) - Elements(before[..1])
  {
    assert before == before[..1] + (before[1..3] + [before[3]] + before[4..]);
    assert forall x | x in names :: x in before && x != before[0];
    assert forall x | x in before && x != before[0] :: x in before[1..3] || x == before[3] || x in before[4..];
  }

  lemma {:induction false} GapSurvivors(before: seq<string>, names: seq<string>)
    requires Distinct(before) && |before| >= 5 && names == before[1..3] + before[4..] + [before[3]]
    ensures Filter(before, Elements(names)) == before[1..] && Filter(before[..3], Elements(names)) == before[1..3]
  {
    GapElements(before, names);
    SuffixFilter(before, 1);
    var keep := Elements(names);
    assert before[..3] == before[..1] + before[1..3];
    FilterConcat(before[..1], before[1..3], keep);
    FilterNone(before[..1], keep);
    assert forall x | x in before[1..3] :: x in names;
    FilterAll(before[1..3], keep);
  }

  lemma {:induction false} GapListed(before: seq<string>, names: seq<string>)
    requires Distinct(before) && |before| >= 5 && names == before[1..3] + before[4..] + [before[3]]
    ensures Listed(before, names) == before[1..]
  {
    GapSurvivors(before, names);
    assert forall x | x in names :: x in before[1..];
    FilterNone(names, Elements(names) - Elements(before[1..]));
    Sequences.EmptyUnit(before[1..]);
  }

  lemma {:induction false} GapRegrouped(before: seq<string>, names: seq<string>)
    requires Distinct(before) && |before| >= 5 && names == before[1..3] + before[4..] + [before[3]]
    ensures Regrouped(before[..3], names, Take(names, 3)) == [before[1], before[2], before[4]]
  {
    GapSurvivors(before, names);
    var kept, first, next := before[1..3], Take(names, 3), [before[4]];
    var keep := Elements(first) - Elements(kept);
    assert first == kept + next;
    FilterConcat(kept, next, keep);
    FilterNone(kept, keep);
    FilterAll(next, keep);
  }

  lemma {:induction false} GapNames(hosts: seq<Host>, back: Host)
    requires DistinctNames(hosts) && |hosts| >= 5 && back.name == hosts[3].name
    ensures var before := Names(hosts);
            Names(Without(hosts[1..], 2) + [back]) == before[1..3] + before[4..] + [before[3]]
    ensures DistinctNames(Without(hosts[1..], 2) + [back])
  {
    WithoutNames(hosts, 0);
    assert hosts[1..] == Without(hosts, 0) && hosts[1..][2] == hosts[3];
    assert Names(hosts[1..]) == Names(hosts)[1..];
    WithoutNames(hosts[1..], 2);
    GapRest(Names(hosts), Names(hosts[1..]));
    AppendNames(Without(hosts[1..], 2), back);
  }

  lemma {:induction false} GapRest(before: seq<string>, tail: seq<string>)
    requires |before| >= 5 && tail == before[1..]
    ensures tail[..2] + tail[2 + 1..] == before[1..3] + before[4..]
  {
  }

  lemma {:induction false} AppendNames(hosts: seq<Host>, back: Host)
    requires DistinctNames(hosts) && back.name !in Names(hosts)
    ensures Names(hosts + [back]) == Names(hosts) + [back.name] && DistinctNames(hosts + [back])
  {
    NamesConcat(hosts, [back]);
    assert Names([back]) == [back.name];
    ConcatDistinct(Names(hosts), [back.name]);
  }

  /** The first host is gone, and etcd holds the next two and the one after the next three. */
  ghost predicate EtcdHasGap(saved: Inventory, r: Result<Inventory>) {
    var before := Names(saved.hosts);
    && r.Success? && HasRoles(r.value) && |before| >= 5 && Names(r.value.hosts) == before[1..]
    && r.value.children[Etcd] == [before[1], before[2], before[4]] && !EtcdPrefix(r.value)
  }

  lemma {:induction false} GapAssigned(cfg: Settings, inv: Inventory, hosts: seq<Host>, r: Inventory)
    requires Sound(inv) && EtcdPrefix(inv) && |inv.hosts| >= 5 && DistinctNames(hosts) && HasRoles(r)
    requires var before := Names(inv.hosts); Names(hosts) == before[1..3] + before[4..] + [before[3]]
    requires Assigned(cfg, inv, hosts, r)
    ensures EtcdHasGap(inv, Success(r))
  {
    var before, names := Names(inv.hosts), Names(hosts);
    EtcdRegrouped(cfg, inv, hosts, r);
    HostsAreListed(cfg, inv, hosts, r);
    EtcdOfMany(inv);
    GapRegrouped(before, names);
    GapListed(before, names);
    assert r.children[Etcd][2] == before[4] && Names(r.hosts)[2] == before[3];
  }

  /** With five hosts or more, deleting the first, and deleting the fourth and declaring it again, leaves etcd three members
      that are not the first three: the fourth host keeps its place in `all.hosts`, but the batch lists it last. */
  lemma {:induction false} ReaddingLeavesGap(cfg: Settings, saved: Inventory, name: string, ip: string, args: seq<string>)
    requires Sound(saved) && EtcdPrefix(saved) && |saved.hosts| >= 5 && CanReadd(cfg.prefix, saved.hosts, 3, name, ip)
    requires args == ["-" + saved.hosts[0].name] + (["-" + name] + [name + "," + ip])
    ensures !LoadsFiles(args) && EtcdHasGap(saved, Run(cfg, Some(saved), args))
  {
    var back := Host(name, Record(ip, ip));
    var hosts := Without(saved.hosts[1..], 2) + [back];
    DropAndReaddBuilds(cfg.prefix, saved.hosts, 3, name, ip);
    ReaddExpands(name, ip);
    DeletionIsKept(saved.hosts[0].name, ["-" + name] + [name + "," + ip]);
    DeletingRun(cfg, saved, args, hosts);
    GapNames(saved.hosts, back);
    AssignIs(cfg, saved, hosts, Assign(cfg, saved, hosts));
    GapAssigned(cfg, saved, hosts, Assign(cfg, saved, hosts));
  }

  // ---------- From nothing ----------

  /** A first run of addresses writes a sound file with a sound etcd group. */
  lemma {:induction false} FirstFile(cfg: Settings, ips: seq<string>, first: Inventory)
    requires '.' !in cfg.prefix && PlainAddresses(cfg.prefix, ips) && ips != []
    requires !LoadsFiles(ips) && Run(cfg, None, ips) == Success(first)
    ensures Sound(first) && EtcdPrefix(first)
  {
    var i := Invocation(cfg, ips);
    UnnamedIsOrderly(None, i);
    OrderlyRunKeepsEtcd(None, i);
  }

  lemma {:induction false} OtherHosts(prefix: string, ips: seq<string>, i: nat, x: string)
    requires PlainAddresses(prefix, ips) && i < |ips| && ',' !in prefix && ',' in x
    ensures x !in Names(AddressHosts(prefix, ips))
    ensures var hosts := AddressHosts(prefix, ips);
            forall j | 0 <= j < |hosts| && j != i :: GetIp(hosts[j].opts).Success? && GetIp(hosts[j].opts).value != ips[i]
  {
    var hosts := AddressHosts(prefix, ips);
    forall k | 0 <= k < |ips|
      ensures Names(hosts)[k] != x
    {
      assert ',' !in Decimal(k + 1);
      assert ',' !in prefix + Decimal(k + 1);
    }
    assert forall k | 0 <= k < |ips| :: GetIp(hosts[k].opts) == Success(ips[k]) && (k != i ==> ips[k] != ips[i]);
  }

  lemma {:induction false} NameCanBeDeclared(prefix: string, id: nat, name: string)
    requires ',' !in prefix && prefix != "" && IsAlpha(prefix[0]) && name == HostName(prefix, id)
    ensures IsNamed(name) && ',' !in name
  {
    assert name[0] == prefix[0];
    assert ',' !in Decimal(id);
  }

  lemma {:induction false} AddressesCanReadd(prefix: string, ips: seq<string>, i: nat, name: string)
    requires '.' !in prefix && ',' !in prefix && prefix != "" && IsAlpha(prefix[0]) && name == HostName(prefix, i + 1)
    requires PlainAddresses(prefix, ips) && i < |ips|
    ensures CanReadd(prefix, AddressHosts(prefix, ips), i, name, ips[i])
  {
    AddressesReload(prefix, ips);
    NameCanBeDeclared(prefix, i + 1, name);
    OtherHosts(prefix, ips, i, name + "," + ips[i]);
    assert ips[i] in ips;
  }

  /** Every new cluster of four or more addresses whose names a declaration can spell gets four etcd members this way. */
  lemma {:induction false} ReaddingExample(cfg: Settings, ips: seq<string>, first: Inventory, name: string, args: seq<string>)
    requires '.' !in cfg.prefix && ',' !in cfg.prefix && cfg.prefix != "" && IsAlpha(cfg.prefix[0])
    requires PlainAddresses(cfg.prefix, ips) && |ips| >= 4
    requires !LoadsFiles(ips) && Run(cfg, None, ips) == Success(first)
    requires name == HostName(cfg.prefix, 1) && args == ["-" + name] + [name + "," + ips[0]]
    ensures HasRoles(first) && EtcdPrefix(first)
    ensures !LoadsFiles(args) && SamePlaces(first, Run(cfg, Some(first), args))
    ensures |Run(cfg, Some(first), args).value.children[Etcd]| == 4
  {
    AddressRun(cfg, None, ips);
    FirstFile(cfg, ips, first);
    ReaddedAddress(cfg, ips, first, name, args);
  }

  lemma {:induction false} ReaddedAddress(cfg: Settings, ips: seq<string>, first: Inventory, name: string, args: seq<string>)
    requires '.' !in cfg.prefix && ',' !in cfg.prefix && cfg.prefix != "" && IsAlpha(cfg.prefix[0])
    requires PlainAddresses(cfg.prefix, ips) && |ips| >= 4 && first.hosts == AddressHosts(cfg.prefix, ips)
    requires HasRoles(first) && EtcdPrefix(first)
    requires name == HostName(cfg.prefix, 1) && args == ["-" + name] + [name + "," + ips[0]]
    ensures !LoadsFiles(args) && SamePlaces(first, Run(cfg, Some(first), args))
    ensures |Run(cfg, Some(first), args).value.children[Etcd]| == 4
  {
    AddressesCanReadd(cfg.prefix, ips, 0, name);
    ReaddingGrowsEtcd(cfg, first, name, ips[0], args);
  }

  /** Every such cluster of five or more gets an etcd group with a gap. */
  lemma {:induction false} GapExample(cfg: Settings, ips: seq<string>, first: Inventory, name: string, args: seq<string>)
    requires '.' !in cfg.prefix && ',' !in cfg.prefix && cfg.prefix != "" && IsAlpha(cfg.prefix[0])
    requires PlainAddresses(cfg.prefix, ips) && |ips| >= 5
    requires !LoadsFiles(ips) && Run(cfg, None, ips) == Success(first)
    requires name == HostName(cfg.prefix, 4)
    requires args == ["-" + HostName(cfg.prefix, 1)] + (["-" + name] + [name + "," + ips[3]])
    ensures HasRoles(first) && EtcdPrefix(first)
    ensures !LoadsFiles(args) && EtcdHasGap(first, Run(cfg, Some(first), args))
  {
    AddressRun(cfg, None, ips);
    FirstFile(cfg, ips, first);
    GapOfAddresses(cfg, ips, first, name, args);
  }

  lemma {:induction false} GapOfAddresses(cfg: Settings, ips: seq<string>, first: Inventory, name: string, args: seq<string>)
    requires '.' !in cfg.prefix && ',' !in cfg.prefix && cfg.prefix != "" && IsAlpha(cfg.prefix[0])
    requires PlainAddresses(cfg.prefix, ips) && |ips| >= 5 && first.hosts == AddressHosts(cfg.prefix, ips)
    requires Sound(first) && EtcdPrefix(first)
    requires name == HostName(cfg.prefix, 4)
    requires args == ["-" + HostName(cfg.prefix, 1)] + (["-" + name] + [name + "," + ips[3]])
    ensures !LoadsFiles(args) && EtcdHasGap(first, Run(cfg, Some(first), args))
  {
    AddressesCanReadd(cfg.prefix, ips, 3, name);
    ReaddingLeavesGap(cfg, first, name, ips[3], args);
  }

  lemma {:induction false} FirstIsSmall(cfg: Settings, ips: seq<string>, first: Inventory)
    requires PlainAddresses(cfg.prefix, ips) && ips != [] && |ips| < cfg.scale && |ips| < cfg.massive
    requires !LoadsFiles(ips) && Run(cfg, None, ips) == Success(first)
    ensures HasRoles(first) && SmallCluster(cfg.controlHosts, first)
  {
    AddressRun(cfg, None, ips);
    FreshCluster(cfg, None, ips, first);
    NewIsSmall(cfg, first);
  }

  lemma {:induction false} NewIsSmall(cfg: Settings, r: Inventory)
    requires NewCluster(cfg, r) && |r.hosts| < cfg.scale && |r.hosts| < cfg.massive
    ensures SmallCluster(cfg.controlHosts, r)
  {
    var names := Names(r.hosts);
    assert NotNodes(cfg, r) == {};
    FilterAll(names, Elements(names) - {});
  }

  /** Every such cluster below scale with more than K hosts gets K + 1 control plane hosts this way. */
  lemma {:induction false} ControlExample(cfg: Settings, ips: seq<string>, first: Inventory, name: string, args: seq<string>)
    requires '.' !in cfg.prefix && ',' !in cfg.prefix && cfg.prefix != "" && IsAlpha(cfg.prefix[0])
    requires PlainAddresses(cfg.prefix, ips) && 1 <= cfg.controlHosts < |ips| < cfg.scale && |ips| < cfg.massive
    requires !LoadsFiles(ips) && Run(cfg, None, ips) == Success(first)
    requires name == HostName(cfg.prefix, 1) && args == ["-" + name] + [name + "," + ips[0]]
    ensures HasRoles(first) && SmallCluster(cfg.controlHosts, first)
    ensures !LoadsFiles(args) && SamePlaces(first, Run(cfg, Some(first), args))
    ensures |Run(cfg, Some(first), args).value.children[KubeControlPlane]| == cfg.controlHosts + 1
  {
    AddressRun(cfg, None, ips);
    FirstIsSmall(cfg, ips, first);
    ReaddedControl(cfg, ips, first, name, args);
  }

  lemma {:induction false} ReaddedControl(cfg: Settings, ips: seq<string>, first: Inventory, name: string, args: seq<string>)
    requires '.' !in cfg.prefix && ',' !in cfg.prefix && cfg.prefix != "" && IsAlpha(cfg.prefix[0])
    requires PlainAddresses(cfg.prefix, ips) && 1 <= cfg.controlHosts < |ips| < cfg.scale
    requires HasRoles(first) && SmallCluster(cfg.controlHosts, first) && first.hosts == AddressHosts(cfg.prefix, ips)
    requires name == HostName(cfg.prefix, 1) && args == ["-" + name] + [name + "," + ips[0]]
    ensures !LoadsFiles(args) && SamePlaces(first, Run(cfg, Some(first), args))
    ensures |Run(cfg, Some(first), args).value.children[KubeControlPlane]| == cfg.controlHosts + 1
  {
    AddressesCanReadd(cfg.prefix, ips, 0, name);
    ReaddingGrowsControl(cfg, first, name, ips[0], args);
  }
}
