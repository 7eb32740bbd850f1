/** When route reflectors are also control plane hosts or workers, which the guards of `set_calico_rr` should prevent. */
module RouteReflectors {
  import opened Wrappers
  import opened Ordered
  import opened Hosts
  import opened Batch
  import opened BatchInvariants
  import opened BatchTheorems
  import opened RangeTheorems
  import opened Roles
  import opened RoleTheorems
  import opened Histories
  import opened RoleHistories
  import opened RunTheorems

  // ---------- Route reflectors and the control plane ----------

  lemma {:induction false} ReflectorCandidates(cfg: Settings, names: seq<string>, out: set<string>, x: string)
    ensures x in Candidates(cfg, names, out, CalicoRr) <==>
            |names| >= cfg.scale && x in Take(names, EtcdCount(|names|)) && x != "hosts"
  {
  }

  lemma {:induction false} ReflectorsAre(cfg: Settings, inv: Inventory, hosts: seq<Host>, r: Inventory, x: string)
    requires HasRoles(inv) && Assigned(cfg, inv, hosts, r)
    ensures x in r.children[CalicoRr] <==>
            || (x in inv.children[CalicoRr] && x in KeptNames(Names(hosts)))
            || (|hosts| >= cfg.scale && x in Take(Names(hosts), EtcdCount(|hosts|)) && x != "hosts")
  {
    var names := Names(hosts);
    var kept, added := Filter(inv.children[CalicoRr], KeptNames(names)), Candidates(cfg, names, NotNodes(cfg, r), CalicoRr);
    ReflectorCandidates(cfg, names, NotNodes(cfg, r), x);
    AddAllMembers(kept, added);
    assert x in r.children[CalicoRr] <==> x in Elements(kept) + Elements(added);
  }

  lemma {:induction false} ControlPlaneIs(cfg: Settings, inv: Inventory, hosts: seq<Host>, r: Inventory, x: string)
    requires HasRoles(inv) && Assigned(cfg, inv, hosts, r)
    ensures x in r.children[KubeControlPlane] <==>
            || (x in inv.children[KubeControlPlane] && x in KeptNames(Names(hosts)))
            || x in ControlCandidates(cfg, Names(hosts))
  {
    var names := Names(hosts);
    var kept, added := Filter(inv.children[KubeControlPlane], KeptNames(names)), ControlCandidates(cfg, names);
    AddAllMembers(kept, added);
    assert x in r.children[KubeControlPlane] <==> x in Elements(kept) + Elements(added);
  }

  lemma {:induction false} EtcdIsNoCandidate(cfg: Settings, names: seq<string>, x: string)
    requires Distinct(names) && |names| >= cfg.scale && x in Take(names, EtcdCount(|names|))
    ensures x in names && x !in ControlCandidates(cfg, names)
  {
    MassiveBlocks(cfg, names);
    var first := Take(names, EtcdCount(|names|));
    assert forall y | y in ControlCandidates(cfg, names) :: y in Filter(names, Elements(names) - Elements(first));
  }

  /** Whether a run may make the host a route reflector and a control plane host at once. */
  ghost predicate Conflicting(cfg: Settings, inv: Inventory, names: seq<string>, x: string)
    requires HasRoles(inv)
  {
    || (|names| >= cfg.scale && x in Take(names, EtcdCount(|names|)) && x != "hosts" && x in inv.children[KubeControlPlane])
    || (x in inv.children[CalicoRr] && x in KeptNames(names)
        && (x in inv.children[KubeControlPlane] || x in ControlCandidates(cfg, names)))
  }

  lemma {:induction false} ConflictAt(cfg: Settings, inv: Inventory, hosts: seq<Host>, r: Inventory, x: string)
    requires HasRoles(inv) && DistinctNames(hosts) && Assigned(cfg, inv, hosts, r)
    ensures x in r.children[CalicoRr] && x in r.children[KubeControlPlane] <==> Conflicting(cfg, inv, Names(hosts), x)
  {
    ReflectorsAre(cfg, inv, hosts, r, x);
    ControlPlaneIs(cfg, inv, hosts, r, x);
    if |hosts| >= cfg.scale && x in Take(Names(hosts), EtcdCount(|hosts|)) {
      EtcdIsNoCandidate(cfg, Names(hosts), x);
    }
  }

  /** At scale no etcd host, other than one named "hosts", was in the control plane, and no surviving reflector was or
      becomes a control plane host. */
  ghost predicate Separate(cfg: Settings, inv: Inventory, names: seq<string>)
    requires HasRoles(inv)
  {
    && (|names| >= cfg.scale ==> forall x | x in Take(names, EtcdCount(|names|)) && x != "hosts" ::
                                   x !in inv.children[KubeControlPlane])
    && (forall x | x in inv.children[CalicoRr] && x in KeptNames(names) ::
          x !in inv.children[KubeControlPlane] && x !in ControlCandidates(cfg, names))
  }

  lemma {:induction false} SeparateIff(cfg: Settings, inv: Inventory, names: seq<string>, reflectors: set<string>, control: set<string>)
    requires HasRoles(inv) && forall x :: x in reflectors && x in control <==> Conflicting(cfg, inv, names, x)
    ensures reflectors !! control <==> Separate(cfg, inv, names)
  {
    if reflectors !! control {
      forall x | |names| >= cfg.scale && x in Take(names, EtcdCount(|names|)) && x != "hosts"
        ensures x !in inv.children[KubeControlPlane]
      {
        assert !Conflicting(cfg, inv, names, x);
      }
      forall x | x in inv.children[CalicoRr] && x in KeptNames(names)
        ensures x !in inv.children[KubeControlPlane] && x !in ControlCandidates(cfg, names)
      {
        assert !Conflicting(cfg, inv, names, x);
      }
    }
  }

  /** Whatever file a run starts from and on either side of the thresholds, it keeps route reflectors out of the control
      plane if and only if the file and the new hosts are separate: the guard that should skip such hosts searches the
      group's dictionary instead of its host list (inventory.py:356). */
  lemma {:induction false} CalicoConflicts(cfg: Settings, inv: Inventory, hosts: seq<Host>, r: Inventory)
    requires HasRoles(inv) && DistinctNames(hosts) && Assigned(cfg, inv, hosts, r)
    ensures Elements(r.children[CalicoRr]) !! Elements(r.children[KubeControlPlane]) <==> Separate(cfg, inv, Names(hosts))
  {
    var reflectors, control := Elements(r.children[CalicoRr]), Elements(r.children[KubeControlPlane]);
    forall x
      ensures x in reflectors && x in control <==> Conflicting(cfg, inv, Names(hosts), x)
    {
      ConflictAt(cfg, inv, hosts, r, x);
    }
    SeparateIff(cfg, inv, Names(hosts), reflectors, control);
  }

  // ---------- Route reflectors and workers ----------

  lemma {:induction false} EtcdMembersAre(cfg: Settings, inv: Inventory, hosts: seq<Host>, r: Inventory, x: string)
    requires HasRoles(inv) && Assigned(cfg, inv, hosts, r)
    ensures x in r.children[Etcd] <==>
            (x in inv.children[Etcd] && x in KeptNames(Names(hosts))) || x in Take(Names(hosts), EtcdCount(|hosts|))
  {
    var kept, added := Filter(inv.children[Etcd], KeptNames(Names(hosts))), Take(Names(hosts), EtcdCount(|hosts|));
    AddAllMembers(kept, added);
    assert x in r.children[Etcd] <==> x in Elements(kept) + Elements(added);
  }

  lemma {:induction false} WorkersAre(cfg: Settings, inv: Inventory, hosts: seq<Host>, r: Inventory, x: string)
    requires HasRoles(inv) && Assigned(cfg, inv, hosts, r)
    ensures x in r.children[KubeNode] <==>
            (x in inv.children[KubeNode] && x in KeptNames(Names(hosts))) || (x in Names(hosts) && x !in NotNodes(cfg, r))
  {
    var names := Names(hosts);
    var kept, added := Filter(inv.children[KubeNode], KeptNames(names)), Filter(names, Elements(names) - NotNodes(cfg, r));
    AddAllMembers(kept, added);
    assert x in r.children[KubeNode] <==> x in Elements(kept) + Elements(added);
  }

  /** The scale rules leave the host out of the new workers: at scale the surviving and the new etcd members, and at massive
      scale the surviving and the new control plane members too. */
  ghost predicate LeftOut(cfg: Settings, inv: Inventory, names: seq<string>, x: string)
    requires HasRoles(inv)
  {
    || (|names| >= cfg.scale && (x in inv.children[Etcd] || x in Take(names, EtcdCount(|names|))))
    || (|names| >= cfg.massive && (x in inv.children[KubeControlPlane] || x in ControlCandidates(cfg, names)))
  }

  lemma {:induction false} LeftOutIs(cfg: Settings, inv: Inventory, hosts: seq<Host>, r: Inventory, x: string)
    requires Sound(inv) && DistinctNames(hosts) && Assigned(cfg, inv, hosts, r) && x in Names(hosts)
    ensures x in NotNodes(cfg, r) <==> LeftOut(cfg, inv, Names(hosts), x)
  {
    HostsAreListed(cfg, inv, hosts, r);
    EtcdMembersAre(cfg, inv, hosts, r, x);
    ControlPlaneIs(cfg, inv, hosts, r, x);
  }

  /** Whether a run makes the host a route reflector and a worker at once. */
  ghost predicate WorkerConflict(cfg: Settings, inv: Inventory, names: seq<string>, x: string)
    requires HasRoles(inv)
  {
    || (|names| >= cfg.scale && x in Take(names, EtcdCount(|names|)) && x != "hosts" && x in inv.children[KubeNode])
    || (x in inv.children[CalicoRr] && x in names && (x in inv.children[KubeNode] || !LeftOut(cfg, inv, names, x)))
  }

  lemma {:induction false} SoundMember(inv: Inventory, g: Group, names: seq<string>, x: string)
    requires Sound(inv) && g in inv.children && x in inv.children[g]
    ensures x in KeptNames(names) <==> x in names
  {
    assert x in Elements(inv.children[g]);
  }

  lemma {:induction false} WorkerConflictAt(cfg: Settings, inv: Inventory, hosts: seq<Host>, r: Inventory, x: string)
    requires Sound(inv) && DistinctNames(hosts) && Assigned(cfg, inv, hosts, r)
    ensures x in r.children[CalicoRr] && x in r.children[KubeNode] <==> WorkerConflict(cfg, inv, Names(hosts), x)
  {
    ReflectorsAre(cfg, inv, hosts, r, x);
    WorkersAre(cfg, inv, hosts, r, x);
    if x in inv.children[CalicoRr] {
      SoundMember(inv, CalicoRr, Names(hosts), x);
    }
    if x in Names(hosts) {
      LeftOutIs(cfg, inv, hosts, r, x);
    }
  }

  /** At scale no etcd host, other than one named "hosts", was a worker, and every surviving reflector was none and is left
      out of the new workers. */
  ghost predicate WorkersSeparate(cfg: Settings, inv: Inventory, names: seq<string>)
    requires HasRoles(inv)
  {
    && (|names| >= cfg.scale ==> forall x | x in Take(names, EtcdCount(|names|)) && x != "hosts" :: x !in inv.children[KubeNode])
    && (forall x | x in inv.children[CalicoRr] && x in names :: x !in inv.children[KubeNode] && LeftOut(cfg, inv, names, x))
  }

  lemma {:induction false} WorkersSeparateIff(cfg: Settings, inv: Inventory, names: seq<string>, reflectors: set<string>, workers: set<string>)
    requires HasRoles(inv) && forall x :: x in reflectors && x in workers <==> WorkerConflict(cfg, inv, names, x)
    ensures reflectors !! workers <==> WorkersSeparate(cfg, inv, names)
  {
    if reflectors !! workers {
      forall x | |names| >= cfg.scale && x in Take(names, EtcdCount(|names|)) && x != "hosts"
        ensures x !in inv.children[KubeNode]
      {
        assert !WorkerConflict(cfg, inv, names, x);
      }
      forall x | x in inv.children[CalicoRr] && x in names
        ensures x !in inv.children[KubeNode] && LeftOut(cfg, inv, names, x)
      {
        assert !WorkerConflict(cfg, inv, names, x);
      }
    }
  }

  /** From any sound file and on either side of the thresholds, a run keeps route reflectors and workers apart if and only if
      the file and the new hosts are separate in this sense: the second guard searches the group's dictionary too
      (inventory.py:361). */
  lemma {:induction false} CalicoWorkerConflicts(cfg: Settings, inv: Inventory, hosts: seq<Host>, r: Inventory)
    requires Sound(inv) && DistinctNames(hosts) && Assigned(cfg, inv, hosts, r)
    ensures Elements(r.children[CalicoRr]) !! Elements(r.children[KubeNode]) <==> WorkersSeparate(cfg, inv, Names(hosts))
  {
    var reflectors, workers := Elements(r.children[CalicoRr]), Elements(r.children[KubeNode]);
    forall x
      ensures x in reflectors && x in workers <==> WorkerConflict(cfg, inv, Names(hosts), x)
    {
      WorkerConflictAt(cfg, inv, hosts, r, x);
    }
    WorkersSeparateIff(cfg, inv, Names(hosts), reflectors, workers);
  }

  /** A cluster that grows to scale from below, where every host is a worker: each old etcd host that stays one becomes a
      route reflector and remains a worker. */
  lemma {:induction false} GrowingToScale(cfg: Settings, inv: Inventory, hosts: seq<Host>, r: Inventory, x: string)
    requires Sound(inv) && DistinctNames(hosts) && Assigned(cfg, inv, hosts, r)
    requires inv.children[KubeNode] == Names(inv.hosts) && |hosts| >= cfg.scale
    requires x in Names(inv.hosts) && x in Take(Names(hosts), EtcdCount(|hosts|)) && x != "hosts"
    ensures x in r.children[CalicoRr] && x in r.children[KubeNode]
  {
    WorkerConflictAt(cfg, inv, hosts, r, x);
  }

  // ---------- Adding to a cluster below scale ----------

  lemma {:induction false} TwoAddresses(prefix: string, x: string, y: string)
    requires PlainAddresses(prefix, [x, y])
    ensures PlainAddresses(prefix, [x]) && PlainAddresses(prefix, [y])
    ensures x != y && HostName(prefix, 1) != y && IsAddress(y) && ',' !in y
  {
    var both := [x, y];
    assert both[0] == x && both[1] == y && x in both && y in both;
  }

  lemma {:induction false} OtherAddressIsNew(prefix: string, x: string, y: string)
    requires PlainAddresses(prefix, [x, y])
    ensures y !in Names(AddressHosts(prefix, [x])) && ExistsIp(AddressHosts(prefix, [x]), y) == Success(false)
  {
    TwoAddresses(prefix, x, y);
    AllIpsDiffer(AddressHosts(prefix, [x]), y);
  }

  /** A second address joins the host of the first under another name. */
  lemma {:induction false} SecondAddressBuilds(prefix: string, x: string, y: string) returns (hosts: seq<Host>)
    requires '.' !in prefix && PlainAddresses(prefix, [x, y])
    ensures BuildHostnames(prefix, AddressHosts(prefix, [x]), [y]) == Success(hosts)
    ensures |hosts| == 2 && DistinctNames(hosts) && hosts[0].name == HostName(prefix, 1)
  {
    var one := AddressHosts(prefix, [x]);
    TwoAddresses(prefix, x, y);
    AddressesReload(prefix, [x]);
    OtherAddressIsNew(prefix, x, y);
    StartIsFresh(prefix, one);
    var start := Start(prefix, one).value;
    PlainAddressStep(prefix, start, y);
    OneStep(prefix, start, y);
    BuildKeepsDistinct(prefix, start, [y]);
    hosts := BuildHostnames(prefix, one, [y]).value;
  }

  lemma {:induction false} FirstIsControl(cfg: Settings, r: Inventory, name: string)
    requires NewCluster(cfg, r) && Names(r.hosts) == [name] && cfg.scale == 2 && cfg.controlHosts >= 1
    ensures name in r.children[KubeControlPlane]
  {
    assert ControlCandidates(cfg, [name]) == [name];
  }

  lemma {:induction false} FirstIsWorker(cfg: Settings, r: Inventory, name: string)
    requires NewCluster(cfg, r) && Names(r.hosts) == [name] && cfg.scale == 2 && cfg.massive > 1
    ensures name in r.children[KubeNode]
  {
    assert NotNodes(cfg, r) == {};
    FilterAll([name], Elements([name]) - {});
  }

  lemma {:induction false} FirstReflects(cfg: Settings, one: Inventory, hosts: seq<Host>)
    requires HasRoles(one) && |hosts| == 2 && DistinctNames(hosts) && cfg.scale <= 2
    requires hosts[0].name in one.children[KubeControlPlane] && hosts[0].name != "hosts"
    ensures Conflicts(Success(Assign(cfg, one, hosts)), hosts[0].name)
    ensures hosts[0].name in one.children[KubeNode] ==> hosts[0].name in Assign(cfg, one, hosts).children[KubeNode]
  {
    var name := hosts[0].name;
    AssignHasRoles(cfg, one, hosts);
    AssignedHolds(cfg, one, hosts);
    assert Take(Names(hosts), EtcdCount(2))[0] == name && name == Names(hosts)[0];
    ConflictAt(cfg, one, hosts, Assign(cfg, one, hosts), name);
    WorkersAre(cfg, one, hosts, Assign(cfg, one, hosts), name);
  }

  lemma {:induction false} AddressJoins(cfg: Settings, one: Inventory, y: string, hosts: seq<Host>)
    requires HasRoles(one) && PlainAddresses(cfg.prefix, [y]) && BuildHostnames(cfg.prefix, one.hosts, [y]) == Success(hosts)
    ensures Run(cfg, Some(one), ["add"] + [y]) == Success(Assign(cfg, one, hosts))
  {
    assert y in [y];
    PlainExpands([y]);
    AddLoads(one, [y]);
    RunIs(cfg, Some(one), ["add"] + [y], [y], hosts);
  }

  /** The run wrote the host into both groups. */
  ghost predicate Conflicts(r: Result<Inventory>, name: string) {
    r.Success? && HasRoles(r.value) && name in r.value.children[CalicoRr] && name in r.value.children[KubeControlPlane]
  }

  /** The conflicts occur: with a scale of two, the host of the first address is the control plane and the worker, and when a
      second address is added it also reflects routes. */
  lemma {:induction false} CalicoConflictExample(cfg: Settings, saved: Option<Inventory>, x: string, y: string,
                                                 first: Inventory, second: Result<Inventory>)
    requires '.' !in cfg.prefix && PlainAddresses(cfg.prefix, [x, y])
    requires cfg.scale == 2 && cfg.controlHosts >= 1
    requires !LoadsFiles([x]) && Run(cfg, saved, [x]) == Success(first)
    requires second == Run(cfg, Some(first), ["add"] + [y])
    ensures Conflicts(second, HostName(cfg.prefix, 1))
    ensures cfg.massive > 1 ==> HostName(cfg.prefix, 1) in second.value.children[KubeNode]
  {
    TwoAddresses(cfg.prefix, x, y);
    AddressRun(cfg, saved, [x]);
    FreshCluster(cfg, saved, [x], first);
    GrowingConflicts(cfg, x, y, first);
  }

  lemma {:induction false} GrowingConflicts(cfg: Settings, x: string, y: string, first: Inventory)
    requires '.' !in cfg.prefix && PlainAddresses(cfg.prefix, [x, y])
    requires cfg.scale == 2 && cfg.controlHosts >= 1
    requires NewCluster(cfg, first) && first.hosts == AddressHosts(cfg.prefix, [x])
    ensures var second := Run(cfg, Some(first), ["add"] + [y]);
            && Conflicts(second, HostName(cfg.prefix, 1))
            && (cfg.massive > 1 ==> HostName(cfg.prefix, 1) in second.value.children[KubeNode])
  {
    var name := HostName(cfg.prefix, 1);
    TwoAddresses(cfg.prefix, x, y);
    assert Names(first.hosts) == [name];
    FirstIsControl(cfg, first, name);
    if cfg.massive > 1 {
      FirstIsWorker(cfg, first, name);
    }
    GeneratedNameIsNoKey(cfg.prefix, 1);
    var hosts := SecondAddressBuilds(cfg.prefix, x, y);
    AddressJoins(cfg, first, y, hosts);
    FirstReflects(cfg, first, hosts);
  }

  // ---------- Deleting from a cluster at scale ----------

  lemma {:induction false} DeleteFirstBuilds(prefix: string, hosts: seq<Host>)
    requires hosts != [] && Start(prefix, hosts).Success?
    ensures BuildHostnames(prefix, hosts, ["-" + hosts[0].name]) == Success(hosts[1..])
  {
    var arg := "-" + hosts[0].name;
    assert arg[1..] == hosts[0].name == Names(hosts)[0];
    OneStep(prefix, Start(prefix, hosts).value, arg);
  }

  lemma {:induction false} FourthIsControl(cfg: Settings, r: Inventory)
    requires NewCluster(cfg, r) && |r.hosts| == 5 && cfg.scale <= 4 && cfg.controlHosts >= 1
    ensures r.hosts[3].name in r.children[KubeControlPlane]
  {
    assert ControlCandidates(cfg, Names(r.hosts))[0] == Names(r.hosts)[3];
  }

  lemma {:induction false} FourthReflects(cfg: Settings, inv: Inventory, hosts: seq<Host>)
    requires HasRoles(inv) && |hosts| == 4 && DistinctNames(hosts) && cfg.scale <= 4
    requires hosts[2].name in inv.children[KubeControlPlane] && hosts[2].name != "hosts"
    ensures HasRoles(Assign(cfg, inv, hosts))
    ensures hosts[2].name in Assign(cfg, inv, hosts).children[CalicoRr]
    ensures hosts[2].name in Assign(cfg, inv, hosts).children[KubeControlPlane]
  {
    AssignHasRoles(cfg, inv, hosts);
    AssignedHolds(cfg, inv, hosts);
    assert Take(Names(hosts), EtcdCount(4))[2] == hosts[2].name;
    ConflictAt(cfg, inv, hosts, Assign(cfg, inv, hosts), hosts[2].name);
  }

  lemma {:induction false} FirstIsDeleted(cfg: Settings, inv: Inventory, gone: string)
    requires HasRoles(inv) && inv.hosts != [] && DistinctNames(inv.hosts) && Start(cfg.prefix, inv.hosts).Success?
    requires gone == "-" + inv.hosts[0].name
    ensures !LoadsFiles([gone]) && DistinctNames(inv.hosts[1..])
    ensures Run(cfg, Some(inv), [gone]) == Success(Assign(cfg, inv, inv.hosts[1..]))
  {
    DeleteFirstBuilds(cfg.prefix, inv.hosts);
    assert [gone] + [] == [gone];
    BaseIs(Some(inv), [gone]);
    BuildKeepsDistinct(cfg.prefix, Start(cfg.prefix, inv.hosts).value, [gone]);
    RunIs(cfg, Some(inv), [gone], [gone], inv.hosts[1..]);
  }

  lemma {:induction false} FiveHosts(prefix: string, ips: seq<string>, hosts: seq<Host>)
    requires '.' !in prefix && PlainAddresses(prefix, ips) && |ips| == 5 && hosts == AddressHosts(prefix, ips)
    ensures |hosts| == 5 && hosts[0].name == HostName(prefix, 1) && hosts[3].name == HostName(prefix, 4)
    ensures Start(prefix, hosts).Success?
  {
    AddressesReload(prefix, ips);
  }

  /** It also occurs in a cluster that was at scale all the time: of five hosts the fourth is the control plane, and when
      the first is deleted it becomes a route reflector too. */
  lemma {:induction false} DeletionConflictExample(cfg: Settings, saved: Option<Inventory>, ips: seq<string>, gone: string,
                                                   first: Inventory, second: Result<Inventory>)
    requires '.' !in cfg.prefix && PlainAddresses(cfg.prefix, ips) && |ips| == 5
    requires cfg.scale <= 4 && cfg.controlHosts >= 1
    requires !LoadsFiles(ips) && Run(cfg, saved, ips) == Success(first)
    requires gone == "-" + HostName(cfg.prefix, 1) && !LoadsFiles([gone]) && second == Run(cfg, Some(first), [gone])
    ensures Conflicts(second, HostName(cfg.prefix, 4))
  {
    AddressRun(cfg, saved, ips);
    FreshCluster(cfg, saved, ips, first);
    FiveHosts(cfg.prefix, ips, first.hosts);
    DeletionConflicts(cfg, gone, first);
  }

  lemma {:induction false} DeletionConflicts(cfg: Settings, gone: string, first: Inventory)
    requires cfg.scale <= 4 && cfg.controlHosts >= 1
    requires NewCluster(cfg, first) && |first.hosts| == 5 && Start(cfg.prefix, first.hosts).Success?
    requires first.hosts[3].name == HostName(cfg.prefix, 4) && gone == "-" + first.hosts[0].name
    ensures !LoadsFiles([gone]) && Conflicts(Run(cfg, Some(first), [gone]), HostName(cfg.prefix, 4))
  {
    FourthIsControl(cfg, first);
    GeneratedNameIsNoKey(cfg.prefix, 4);
    FirstIsDeleted(cfg, first, gone);
    FourthReflects(cfg, first, first.hosts[1..]);
  }
}
