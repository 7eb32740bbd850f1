/** The saved inventory, the assignment of roles, and one whole run as a function of the saved file and the arguments. */
module Roles {
  import opened Wrappers
  import opened Ordered
  import opened Hosts
  import opened Batch
  import opened BatchInvariants

  /** The children of `all` that list hosts; `Custom` covers groups a user or the load command created. */
  datatype Group = Etcd | KubeControlPlane | KubeNode | CalicoRr | Custom(name: string)

  /** `yaml_config`: `all.hosts`, the host lists of the children of `all`, and the children of k8s_cluster. */
  datatype Inventory = Inventory(hosts: seq<Host>, children: map<Group, seq<string>>, k8sCluster: seq<Group>)

  /** HOST_PREFIX, KUBE_CONTROL_HOSTS, SCALE_THRESHOLD and MASSIVE_SCALE_THRESHOLD. */
  datatype Settings = Settings(prefix: string, controlHosts: nat, scale: int, massive: int)

  const EMPTY := Inventory([], map[], [])
  const ROLES := [KubeControlPlane, KubeNode, Etcd, CalicoRr]

  /** The keys of a group's own dictionary, which `set_calico_rr` searches (inventory.py:356, :361). */
  const GROUP_KEYS := {"hosts"}

  function EnsureGroups(inv: Inventory, groups: seq<Group>): Inventory
    decreases |groups|
  {
    if groups == [] then inv
    else
      var g := groups[0];
      EnsureGroups(if g in inv.children then inv else inv.(children := inv.children[g := []]), groups[1..])
  }

  ghost predicate HasRoles(inv: Inventory) {
    forall g | g in ROLES :: g in inv.children
  }

  function KeptNames(names: seq<string>): set<string> {
    Elements(names) + PROTECTED_NAMES
  }

  function Purge(inv: Inventory, names: seq<string>): Inventory {
    inv.(children := map g | g in inv.children :: Filter(inv.children[g], KeptNames(names)),
         hosts := KeepHosts(inv.hosts, KeptNames(names)))
  }

  function AddToGroup(inv: Inventory, g: Group, name: string): Inventory
    requires g in inv.children
  {
    inv.(children := inv.children[g := AddName(inv.children[g], name)])
  }

  function SetGroup(inv: Inventory, g: Group, names: seq<string>): Inventory
    requires g in inv.children
    decreases |names|
  {
    if names == [] then inv else SetGroup(AddToGroup(inv, g, names[0]), g, names[1..])
  }

  function SetAll(inv: Inventory, hosts: seq<Host>): Inventory {
    inv.(hosts := PutAll(inv.hosts, hosts))
  }

  function SetK8sCluster(inv: Inventory): Inventory {
    inv.(k8sCluster := [KubeControlPlane, KubeNode])
  }

  /** The hosts `set_kube_node` leaves out at scale. */
  function NotNodes(cfg: Settings, inv: Inventory): set<string>
    requires HasRoles(inv)
  {
    (if |inv.hosts| >= cfg.scale then Elements(inv.children[Etcd]) else {}) +
    (if |inv.hosts| >= cfg.massive then Elements(inv.children[KubeControlPlane]) else {})
  }

  function SetKubeNode(cfg: Settings, inv: Inventory, names: seq<string>): Inventory
    requires HasRoles(inv)
    decreases |names|
  {
    if names == [] then inv
    else SetKubeNode(cfg, if names[0] in NotNodes(cfg, inv) then inv else AddToGroup(inv, KubeNode, names[0]), names[1..])
  }

  function SetCalicoRr(inv: Inventory, names: seq<string>): Inventory
    requires CalicoRr in inv.children
    decreases |names|
  {
    if names == [] then inv
    else SetCalicoRr(if names[0] in GROUP_KEYS then inv else AddToGroup(inv, CalicoRr, names[0]), names[1..])
  }

  function EtcdCount(n: nat): nat {
    if n >= 3 then 3 else 1
  }

  function ControlCandidates(cfg: Settings, names: seq<string>): seq<string> {
    var e := EtcdCount(|names|);
    if |names| >= cfg.scale then Slice(names, e, e + cfg.controlHosts) else Take(names, cfg.controlHosts)
  }

  lemma {:induction false} SetGroupIs(inv: Inventory, g: Group, names: seq<string>)
    requires g in inv.children
    ensures SetGroup(inv, g, names) == inv.(children := inv.children[g := AddAll(inv.children[g], names)])
    decreases |names|
  {
    if names == [] {
      assert inv.children[g := inv.children[g]] == inv.children;
    } else {
      SetGroupIs(AddToGroup(inv, g, names[0]), g, names[1..]);
    }
  }

  lemma {:induction false} SetKubeNodeIs(cfg: Settings, inv: Inventory, names: seq<string>)
    requires HasRoles(inv)
    ensures SetKubeNode(cfg, inv, names) ==
            inv.(children := inv.children[KubeNode := AddAll(inv.children[KubeNode], Filter(names, Elements(names) - NotNodes(cfg, inv)))])
    decreases |names|
  {
    var out := NotNodes(cfg, inv);
    if names == [] {
      assert inv.children[KubeNode := inv.children[KubeNode]] == inv.children;
    } else {
      var inv' := if names[0] in out then inv else AddToGroup(inv, KubeNode, names[0]);
      assert NotNodes(cfg, inv') == out;
      SetKubeNodeIs(cfg, inv', names[1..]);
      FilterCong(names[1..], Elements(names[1..]) - out, Elements(names) - out);
    }
  }

  lemma {:induction false} SetCalicoRrIs(inv: Inventory, names: seq<string>)
    requires CalicoRr in inv.children
    ensures SetCalicoRr(inv, names) ==
            inv.(children := inv.children[CalicoRr := AddAll(inv.children[CalicoRr], Filter(names, Elements(names) - GROUP_KEYS))])
    decreases |names|
  {
    if names == [] {
      assert inv.children[CalicoRr := inv.children[CalicoRr]] == inv.children;
    } else {
      var inv' := if names[0] in GROUP_KEYS then inv else AddToGroup(inv, CalicoRr, names[0]);
      SetCalicoRrIs(inv', names[1..]);
      FilterCong(names[1..], Elements(names[1..]) - GROUP_KEYS, Elements(names) - GROUP_KEYS);
    }
  }

  /** The purge and the copy of the hosts into `all` (inventory.py:122-124). */
  function AssignAll(inv: Inventory, hosts: seq<Host>): Inventory {
    SetK8sCluster(SetAll(Purge(inv, Names(hosts)), hosts))
  }

  /** The etcd and control plane groups (inventory.py:125-132). */
  function AssignMasters(cfg: Settings, inv: Inventory, names: seq<string>): Inventory
    requires HasRoles(inv)
  {
    SetGroupIs(inv, Etcd, Take(names, EtcdCount(|names|)));
    SetGroup(SetGroup(inv, Etcd, Take(names, EtcdCount(|names|))), KubeControlPlane, ControlCandidates(cfg, names))
  }

  lemma {:induction false} AssignMastersIs(cfg: Settings, inv: Inventory, names: seq<string>)
    requires HasRoles(inv)
    ensures AssignMasters(cfg, inv, names) ==
            inv.(children := inv.children
                 [Etcd := AddAll(inv.children[Etcd], Take(names, EtcdCount(|names|)))]
                 [KubeControlPlane := AddAll(inv.children[KubeControlPlane], ControlCandidates(cfg, names))])
  {
    SetGroupIs(inv, Etcd, Take(names, EtcdCount(|names|)));
    SetGroupIs(SetGroup(inv, Etcd, Take(names, EtcdCount(|names|))), KubeControlPlane, ControlCandidates(cfg, names));
  }

  /** The worker and route reflector groups (inventory.py:133-135). */
  function AssignWorkers(cfg: Settings, inv: Inventory, names: seq<string>): Inventory
    requires HasRoles(inv)
  {
    SetKubeNodeIs(cfg, inv, names);
    var withNodes := SetKubeNode(cfg, inv, names);
    if |names| >= cfg.scale then SetCalicoRr(withNodes, Take(names, EtcdCount(|names|))) else withNodes
  }

  function Assign(cfg: Settings, inv: Inventory, hosts: seq<Host>): Inventory
    requires HasRoles(inv)
  {
    AssignMastersIs(cfg, AssignAll(inv, hosts), Names(hosts));
    AssignWorkers(cfg, AssignMasters(cfg, AssignAll(inv, hosts), Names(hosts)), Names(hosts))
  }

  lemma {:induction false} EnsureGroupsIs(inv: Inventory, groups: seq<Group>)
    ensures var r := EnsureGroups(inv, groups);
            && r.hosts == inv.hosts && r.k8sCluster == inv.k8sCluster
            && (forall g :: g in r.children <==> g in inv.children || g in groups)
            && forall g | g in r.children :: r.children[g] == if g in inv.children then inv.children[g] else []
    decreases |groups|
  {
    if groups != [] {
      var g := groups[0];
      EnsureGroupsIs(if g in inv.children then inv else inv.(children := inv.children[g := []]), groups[1..]);
      assert groups == [g] + groups[1..];
    }
  }

  function Ensure(inv: Inventory): (r: Inventory)
    ensures HasRoles(r)
  {
    EnsureGroupsIs(inv, ROLES);
    EnsureGroups(inv, ROLES)
  }

  predicate Informs(args: seq<string>) {
    args != [] && args[0] in {"help", "print_cfg", "print_ips", "print_hostnames"}
  }

  predicate LoadsFiles(args: seq<string>) {
    args != [] && args[0] == "load"
  }

  function ChangedHosts(args: seq<string>): seq<string> {
    if args != [] && args[0] == "add" then args[1..] else args
  }

  /** Whether the run starts from the saved file: for `add` and when the first change is a deletion. */
  predicate LoadsPrevious(args: seq<string>) {
    (args != [] && args[0] == "add") || (ChangedHosts(args) != [] && IsDelete(ChangedHosts(args)[0]))
  }

  /** What a run starts from: the saved file, or nothing. */
  function Base(saved: Option<Inventory>, args: seq<string>): Inventory {
    Ensure(if LoadsPrevious(args) && saved.Some? then saved.value else EMPTY)
  }

  /** The ranges are expanded, the hosts built from the loaded ones, and the roles assigned (inventory.py:119-135). */
  function Changed(cfg: Settings, inv: Inventory, loaded: seq<Host>, changed: seq<string>): Result<Inventory>
    requires HasRoles(inv)
  {
    var batch :- Expand(changed);
    var hosts :- BuildHostnames(cfg.prefix, loaded, batch);
    Success(Assign(cfg, inv, hosts))
  }

  /** One run: the inventory it writes, or why it writes none (inventory.py:82-140). */
  function Run(cfg: Settings, saved: Option<Inventory>, args: seq<string>): Result<Inventory>
    requires !LoadsFiles(args)
  {
    var changed := ChangedHosts(args);
    if Informs(args) then Failure(SystemExit)
    else if changed != [] && changed[0] == "" then Failure(IndexError)
    else if LoadsPrevious(args) && saved.None? then Failure(SystemExit)
    else if changed == [] then Failure(SystemExit)
    else
      Changed(cfg, Base(saved, args), Base(saved, args).hosts, changed)
  }
}
