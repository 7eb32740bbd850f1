/** What one assignment of roles leaves in the inventory, and what a second one changes. */
module RoleTheorems {
  import opened Ordered
  import opened Hosts
  import opened BatchInvariants
  import opened Roles

  /** The hosts an assignment offers to a group; `out` are those the worker group leaves out. */
  function Candidates(cfg: Settings, names: seq<string>, out: set<string>, g: Group): seq<string> {
    var first := Take(names, EtcdCount(|names|));
    match g
    case Etcd => first
    case KubeControlPlane => ControlCandidates(cfg, names)
    case KubeNode => Filter(names, Elements(names) - out)
    case CalicoRr => if |names| >= cfg.scale then Filter(first, Elements(first) - GROUP_KEYS) else []
    case Custom(_) => []
  }

  /** The state after an assignment: each group is what the purge left of it and then its new candidates, in order. */
  ghost predicate Assigned(cfg: Settings, inv: Inventory, hosts: seq<Host>, r: Inventory)
    requires HasRoles(inv)
  {
    var names, keep := Names(hosts), KeptNames(Names(hosts));
    && r.hosts == PutAll(KeepHosts(inv.hosts, keep), hosts)
    && r.k8sCluster == [KubeControlPlane, KubeNode]
    && r.children.Keys == inv.children.Keys
    && forall g | g in inv.children ::
         r.children[g] == AddAll(Filter(inv.children[g], keep), Candidates(cfg, names, NotNodes(cfg, r), g))
  }

  lemma {:induction false} AssignWorkersIs(cfg: Settings, inv: Inventory, names: seq<string>)
    requires HasRoles(inv)
    ensures var out := NotNodes(cfg, inv);
            AssignWorkers(cfg, inv, names) ==
            inv.(children := inv.children
                 [KubeNode := AddAll(inv.children[KubeNode], Candidates(cfg, names, out, KubeNode))]
                 [CalicoRr := AddAll(inv.children[CalicoRr], Candidates(cfg, names, out, CalicoRr))])
  {
    var withNodes := SetKubeNode(cfg, inv, names);
    SetKubeNodeIs(cfg, inv, names);
    if |names| >= cfg.scale {
      SetCalicoRrIs(withNodes, Take(names, EtcdCount(|names|)));
    } else {
      assert withNodes.children[CalicoRr := inv.children[CalicoRr]] == withNodes.children;
    }
  }

  ghost predicate Stages(cfg: Settings, inv: Inventory, hosts: seq<Host>, all: Inventory, masters: Inventory, r: Inventory)
  {
    var names := Names(hosts);
    && HasRoles(inv) && all == AssignAll(inv, hosts) && HasRoles(all)
    && masters == all.(children := all.children
                       [Etcd := AddAll(all.children[Etcd], Take(names, EtcdCount(|names|)))]
                       [KubeControlPlane := AddAll(all.children[KubeControlPlane], ControlCandidates(cfg, names))])
    && HasRoles(masters)
    && var out := NotNodes(cfg, masters);
       r == masters.(children := masters.children
                     [KubeNode := AddAll(masters.children[KubeNode], Candidates(cfg, names, out, KubeNode))]
                     [CalicoRr := AddAll(masters.children[CalicoRr], Candidates(cfg, names, out, CalicoRr))])
  }

  lemma {:induction false} GroupFromStages(cfg: Settings, inv: Inventory, hosts: seq<Host>, all: Inventory, masters: Inventory, r: Inventory, g: Group)
    requires Stages(cfg, inv, hosts, all, masters, r) && g in inv.children
    ensures g in r.children
    ensures var kept := Filter(inv.children[g], KeptNames(Names(hosts)));
            r.children[g] == AddAll(kept, Candidates(cfg, Names(hosts), NotNodes(cfg, masters), g))
  {
    var kept := Filter(inv.children[g], KeptNames(Names(hosts)));
    assert all.children[g] == kept;
    match g
    case Etcd => assert r.children[g] == masters.children[g];
    case KubeControlPlane => assert r.children[g] == masters.children[g];
    case KubeNode => assert masters.children[g] == kept;
    case CalicoRr => assert masters.children[g] == kept;
    case Custom(_) => assert r.children[g] == kept;
  }

  lemma {:induction false} StagesKeep(cfg: Settings, inv: Inventory, hosts: seq<Host>, all: Inventory, masters: Inventory, r: Inventory)
    requires Stages(cfg, inv, hosts, all, masters, r)
    ensures r.hosts == all.hosts && r.k8sCluster == all.k8sCluster
    ensures r.children.Keys == inv.children.Keys && HasRoles(r) && NotNodes(cfg, masters) == NotNodes(cfg, r)
  {
    var names, out := Names(hosts), NotNodes(cfg, masters);
    assert all.children.Keys == inv.children.Keys;
    WorkersKeep(cfg, masters, AddAll(masters.children[KubeNode], Candidates(cfg, names, out, KubeNode)),
                AddAll(masters.children[CalicoRr], Candidates(cfg, names, out, CalicoRr)), r);
  }

  lemma {:induction false} WorkersKeep(cfg: Settings, inv: Inventory, nodes: seq<string>, reflectors: seq<string>, r: Inventory)
    requires HasRoles(inv) && r == inv.(children := inv.children[KubeNode := nodes][CalicoRr := reflectors])
    ensures HasRoles(r) && r.children.Keys == inv.children.Keys && NotNodes(cfg, inv) == NotNodes(cfg, r)
  {
  }

  lemma {:induction false} AssignedFrom(cfg: Settings, inv: Inventory, hosts: seq<Host>, all: Inventory, masters: Inventory, r: Inventory)
    requires Stages(cfg, inv, hosts, all, masters, r)
    ensures Assigned(cfg, inv, hosts, r)
  {
    StagesKeep(cfg, inv, hosts, all, masters, r);
    forall g | g in inv.children
      ensures r.children[g] ==
              AddAll(Filter(inv.children[g], KeptNames(Names(hosts))), Candidates(cfg, Names(hosts), NotNodes(cfg, r), g))
    {
      GroupFromStages(cfg, inv, hosts, all, masters, r, g);
    }
  }

  lemma {:induction false} AssignedHolds(cfg: Settings, inv: Inventory, hosts: seq<Host>)
    requires HasRoles(inv)
    ensures Assigned(cfg, inv, hosts, Assign(cfg, inv, hosts))
  {
    var all := AssignAll(inv, hosts);
    AssignMastersIs(cfg, all, Names(hosts));
    var masters := AssignMasters(cfg, all, Names(hosts));
    AssignWorkersIs(cfg, masters, Names(hosts));
    AssignedFrom(cfg, inv, hosts, all, masters, Assign(cfg, inv, hosts));
  }

  // ---------- Membership ----------

  ghost predicate Unprotected(hosts: seq<Host>) {
    Elements(Names(hosts)) !! PROTECTED_NAMES
  }

  /** `all.hosts` holds exactly the new records, and otherwise only old hosts under protected names. */
  lemma {:induction false} AssignedHosts(cfg: Settings, inv: Inventory, hosts: seq<Host>, r: Inventory)
    requires HasRoles(inv) && DistinctNames(inv.hosts) && DistinctNames(hosts)
    requires Assigned(cfg, inv, hosts, r)
    ensures DistinctNames(r.hosts)
    ensures forall h :: h in r.hosts <==>
              h in hosts || (h in inv.hosts && h.name in PROTECTED_NAMES && h.name !in Names(hosts))
  {
    var keep := KeptNames(Names(hosts));
    var kept := KeepHosts(inv.hosts, keep);
    KeepNames(inv.hosts, keep);
    FilterDistinct(Names(inv.hosts), keep);
    KeepMembers(inv.hosts, keep);
    PutAllNames(kept, hosts);
    PutAllRecords(kept, hosts);
  }

  lemma {:induction false} NamesOfMembers(a: seq<Host>, b: seq<Host>)
    requires forall h | h in a :: h in b
    ensures Elements(Names(a)) <= Elements(Names(b))
  {
    forall x | x in Names(a)
      ensures x in Names(b)
    {
      var i := NameOf(a, x);
      assert a[i] in b;
      var j :| 0 <= j < |b| && b[j] == a[i];
      assert Names(b)[j] == x;
    }
  }

  lemma {:induction false} CandidatesAreHosts(cfg: Settings, names: seq<string>, out: set<string>, g: Group)
    ensures Elements(Candidates(cfg, names, out, g)) <= Elements(names)
  {
  }

  /** Every member of every group is a current host or a protected name. */
  lemma {:induction false} AssignedMembers(cfg: Settings, inv: Inventory, hosts: seq<Host>, r: Inventory, g: Group)
    requires HasRoles(inv) && Assigned(cfg, inv, hosts, r) && g in r.children
    ensures Elements(r.children[g]) <= Elements(Names(hosts)) + PROTECTED_NAMES
  {
    var kept := Filter(inv.children[g], KeptNames(Names(hosts)));
    assert Elements(kept) <= KeptNames(Names(hosts));
    CandidatesAreHosts(cfg, Names(hosts), NotNodes(cfg, r), g);
    AddAllMembers(kept, Candidates(cfg, Names(hosts), NotNodes(cfg, r), g));
  }

  /** Every host has a role: it is a worker unless the scale rules make it an etcd or control plane member only. */
  lemma {:induction false} AssignedCovers(cfg: Settings, inv: Inventory, hosts: seq<Host>, r: Inventory, name: string)
    requires HasRoles(inv) && Assigned(cfg, inv, hosts, r) && name in Names(hosts)
    ensures name in r.children[KubeNode] || name in r.children[Etcd] || name in r.children[KubeControlPlane]
  {
    var names := Names(hosts);
    AddAllMembers(Filter(inv.children[KubeNode], KeptNames(names)), Filter(names, Elements(names) - NotNodes(cfg, r)));
    if name !in NotNodes(cfg, r) {
      assert name in Filter(names, Elements(names) - NotNodes(cfg, r));
      assert name in Elements(r.children[KubeNode]);
    }
  }

  // ---------- Assigning twice ----------

  lemma {:induction false} FilterKeepsAdded(group: seq<string>, added: seq<string>, keep: set<string>)
    requires Elements(added) <= keep
    ensures Filter(AddAll(Filter(group, keep), added), keep) == AddAll(Filter(group, keep), added)
    ensures AddAll(AddAll(Filter(group, keep), added), added) == AddAll(Filter(group, keep), added)
  {
    AddAllMembers(Filter(group, keep), added);
    FilterAll(AddAll(Filter(group, keep), added), keep);
    AddAllPresent(AddAll(Filter(group, keep), added), added);
  }

  lemma {:induction false} HostsAssignedTwice(inv: Inventory, hosts: seq<Host>)
    requires DistinctNames(inv.hosts) && DistinctNames(hosts)
    ensures var once := PutAll(KeepHosts(inv.hosts, KeptNames(Names(hosts))), hosts);
            PutAll(KeepHosts(once, KeptNames(Names(hosts))), hosts) == once
  {
    var keep := KeptNames(Names(hosts));
    var kept := KeepHosts(inv.hosts, keep);
    var once := PutAll(kept, hosts);
    KeepNames(inv.hosts, keep);
    FilterDistinct(Names(inv.hosts), keep);
    PutAllNames(kept, hosts);
    AddAllMembers(Names(kept), Names(hosts));
    KeepAll(once, keep);
    PutAllRecords(kept, hosts);
    PutAllPresent(once, hosts);
  }

  lemma {:induction false} GroupAssignedTwice(cfg: Settings, inv: Inventory, hosts: seq<Host>, r: Inventory, r': Inventory, g: Group)
    requires HasRoles(inv) && Assigned(cfg, inv, hosts, r) && HasRoles(r) && Assigned(cfg, r, hosts, r')
    requires g in inv.children && NotNodes(cfg, r) == NotNodes(cfg, r')
    ensures r'.children[g] == r.children[g]
  {
    var keep := KeptNames(Names(hosts));
    CandidatesAreHosts(cfg, Names(hosts), NotNodes(cfg, r), g);
    FilterKeepsAdded(inv.children[g], Candidates(cfg, Names(hosts), NotNodes(cfg, r), g), keep);
  }

  lemma {:induction false} MastersAssignedTwice(cfg: Settings, inv: Inventory, hosts: seq<Host>, r: Inventory, r': Inventory, g: Group)
    requires HasRoles(inv) && Assigned(cfg, inv, hosts, r) && HasRoles(r) && Assigned(cfg, r, hosts, r')
    requires g == Etcd || g == KubeControlPlane
    ensures r'.children[g] == r.children[g]
  {
    var keep := KeptNames(Names(hosts));
    CandidatesAreHosts(cfg, Names(hosts), {}, g);
    FilterKeepsAdded(inv.children[g], Candidates(cfg, Names(hosts), {}, g), keep);
  }

  lemma {:induction false} GroupsAssignedTwice(cfg: Settings, inv: Inventory, hosts: seq<Host>, r: Inventory, r': Inventory)
    requires HasRoles(inv) && Assigned(cfg, inv, hosts, r) && HasRoles(r) && Assigned(cfg, r, hosts, r')
    requires NotNodes(cfg, r) == NotNodes(cfg, r')
    ensures r'.children == r.children
  {
    forall g | g in r.children
      ensures r'.children[g] == r.children[g]
    {
      GroupAssignedTwice(cfg, inv, hosts, r, r', g);
    }
  }

  lemma {:induction false} AssignedTwice(cfg: Settings, inv: Inventory, hosts: seq<Host>, r: Inventory, r': Inventory)
    requires DistinctNames(inv.hosts) && DistinctNames(hosts)
    requires HasRoles(inv) && Assigned(cfg, inv, hosts, r) && HasRoles(r) && Assigned(cfg, r, hosts, r')
    ensures r' == r
  {
    HostsAssignedTwice(inv, hosts);
    MastersAssignedTwice(cfg, inv, hosts, r, r', Etcd);
    MastersAssignedTwice(cfg, inv, hosts, r, r', KubeControlPlane);
    GroupsAssignedTwice(cfg, inv, hosts, r, r');
  }

  lemma {:induction false} AssignHasRoles(cfg: Settings, inv: Inventory, hosts: seq<Host>)
    requires HasRoles(inv)
    ensures HasRoles(Assign(cfg, inv, hosts))
  {
    AssignedHolds(cfg, inv, hosts);
  }

  /** Assigning the same hosts again changes neither the hosts nor any group, on either side of the thresholds. */
  lemma {:induction false} AssignIdempotent(cfg: Settings, inv: Inventory, hosts: seq<Host>)
    requires HasRoles(inv) && DistinctNames(inv.hosts) && DistinctNames(hosts)
    ensures HasRoles(Assign(cfg, inv, hosts))
    ensures Assign(cfg, Assign(cfg, inv, hosts), hosts) == Assign(cfg, inv, hosts)
  {
    AssignHasRoles(cfg, inv, hosts);
    var r := Assign(cfg, inv, hosts);
    AssignedHolds(cfg, inv, hosts);
    AssignedHolds(cfg, r, hosts);
    AssignedTwice(cfg, inv, hosts, r, Assign(cfg, r, hosts));
  }

  lemma {:induction false} EtcdIs(cfg: Settings, inv: Inventory, hosts: seq<Host>, r: Inventory)
    requires HasRoles(inv) && Assigned(cfg, inv, hosts, r)
    ensures r.children[Etcd] == AddAll(Filter(inv.children[Etcd], KeptNames(Names(hosts))), Take(Names(hosts), EtcdCount(|hosts|)))
    ensures r.hosts == PutAll(KeepHosts(inv.hosts, KeptNames(Names(hosts))), hosts)
  {
  }
}
