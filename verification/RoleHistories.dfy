/** Role groups over every sequence of runs: the order of the hosts, the etcd prefix, and clusters below scale. */
module RoleHistories {
  import opened Wrappers
  import opened Ordered
  import opened Hosts
  import opened Batch
  import opened HostIds
  import opened BatchInvariants
  import opened Roles
  import opened RoleTheorems
  import opened Histories
  import opened GroupPrefixes
  import Sequences

  // ---------- Orderly runs ----------

  /** The hosts the run builds begin with the surviving loaded ones, in their order, and it declares no role name. */
  ghost predicate Orderly(saved: Option<Inventory>, i: Invocation)
    requires !LoadsFiles(i.args)
  {
    && DeclaresNoRole(i)
    && (Run(i.cfg, saved, i.args).Success? ==> OrderKept(Names(Base(saved, i.args).hosts), Names(Built(saved, i))))
  }

  ghost predicate OrderlyHistory(saved: Option<Inventory>, history: seq<Invocation>)
    requires NoLoads(history)
    decreases |history|
  {
    history == [] || (Orderly(saved, history[0]) && OrderlyHistory(Next(saved, history[0]), history[1..]))
  }

  /** A run that brings back no host it deleted is orderly. */
  lemma {:induction false} NeverReaddingIsOrderly(saved: Option<Inventory>, i: Invocation)
    requires !LoadsFiles(i.args) && (saved.Some? ==> Consistent(saved.value))
    requires DeclaresNone(ChangedHosts(i.args), PROTECTED_NAMES)
    requires var loaded, batch := Base(saved, i.args).hosts, Expand(ChangedHosts(i.args));
             batch.Success? && Start(i.cfg.prefix, loaded).Success? ==>
               NeverReadds(i.cfg.prefix, Names(loaded), Start(i.cfg.prefix, loaded).value, batch.value)
    ensures Orderly(saved, i)
  {
    BaseIsSound(saved, i.args);
    if Run(i.cfg, saved, i.args).Success? {
      BuildKeepsOrder(i.cfg.prefix, Base(saved, i.args).hosts, Expand(ChangedHosts(i.args)).value);
    }
  }

  /** A run without deletions is orderly, whatever it declares but a role, and with any prefix. */
  lemma {:induction false} AddsAreOrderly(saved: Option<Inventory>, i: Invocation)
    requires !LoadsFiles(i.args) && (saved.Some? ==> Consistent(saved.value))
    requires NoDeletions(ChangedHosts(i.args)) && DeclaresNone(ChangedHosts(i.args), PROTECTED_NAMES)
    ensures Orderly(saved, i)
  {
    BaseIsSound(saved, i.args);
    var loaded, batch := Base(saved, i.args).hosts, Expand(ChangedHosts(i.args));
    if batch.Success? && Start(i.cfg.prefix, loaded).Success? {
      ExpandAdds(ChangedHosts(i.args));
      AddsFromStart(i.cfg.prefix, loaded, batch.value);
    }
    NeverReaddingIsOrderly(saved, i);
  }

  lemma {:induction false} AddsFromStart(prefix: string, loaded: seq<Host>, batch: seq<string>)
    requires DistinctNames(loaded) && NoDeletions(batch) && Start(prefix, loaded).Success?
    ensures NeverReadds(prefix, Names(loaded), Start(prefix, loaded).value, batch)
  {
    AddsNeverReadd(prefix, Names(loaded), Start(prefix, loaded).value, batch);
  }

  /** A run that only informs, or one of addresses, ranges and deletions with a prefix that host ids can be read back from. */
  ghost predicate Unnamed(i: Invocation) {
    Informs(i.args) || ('.' !in i.cfg.prefix && NoneNamed(ChangedHosts(i.args)))
  }

  lemma {:induction false} UnnamedIsOrderly(saved: Option<Inventory>, i: Invocation)
    requires !LoadsFiles(i.args) && (saved.Some? ==> Consistent(saved.value)) && Unnamed(i)
    ensures Orderly(saved, i)
  {
    if !Informs(i.args) {
      BaseIsSound(saved, i.args);
      var loaded, batch := Base(saved, i.args).hosts, Expand(ChangedHosts(i.args));
      if batch.Success? && Start(i.cfg.prefix, loaded).Success? {
        ExpandUnnamed(ChangedHosts(i.args));
        UnnamedFromStart(i.cfg.prefix, loaded, batch.value);
      }
      NeverReaddingIsOrderly(saved, i);
    }
  }

  lemma {:induction false} UnnamedFromStart(prefix: string, loaded: seq<Host>, batch: seq<string>)
    requires '.' !in prefix && DistinctNames(loaded) && NoneNamed(batch) && Start(prefix, loaded).Success?
    ensures NeverReadds(prefix, Names(loaded), Start(prefix, loaded).value, batch)
  {
    var b := Start(prefix, loaded).value;
    LoadedNamesAreBelow(prefix, Names(loaded));
    UnnamedIsPresent(prefix, Names(loaded), b, batch);
    PresentNeverReadds(prefix, Names(loaded), b, batch);
  }

  /** Every history of runs that inform and runs of addresses, ranges and deletions is orderly. */
  lemma {:induction false} AddressesAndDeletionsAreOrderly(saved: Option<Inventory>, history: seq<Invocation>)
    requires NoLoads(history) && (saved.Some? ==> Consistent(saved.value))
    requires forall i | i in history :: Unnamed(i)
    ensures OrderlyHistory(saved, history)
    decreases |history|
  {
    if history != [] {
      var i := history[0];
      assert i in history && forall j | j in history[1..] :: j in history;
      UnnamedIsOrderly(saved, i);
      NextIsConsistent(saved, i);
      AddressesAndDeletionsAreOrderly(Next(saved, i), history[1..]);
    }
  }

  // ---------- What a run leaves of groups and hosts ----------

  lemma {:induction false} GroupRegrouped(group: seq<string>, names: seq<string>, first: seq<string>)
    requires Elements(group) !! PROTECTED_NAMES && Distinct(first)
    ensures AddAll(Filter(group, KeptNames(names)), first) == Regrouped(group, names, first)
  {
    FilterUnprotected(group, names);
    AddAllAppends(Filter(group, Elements(names)), first);
  }

  lemma {:induction false} HostsAreListed(cfg: Settings, inv: Inventory, hosts: seq<Host>, r: Inventory)
    requires Sound(inv) && DistinctNames(hosts) && Assigned(cfg, inv, hosts, r)
    ensures Names(r.hosts) == Listed(Names(inv.hosts), Names(hosts)) && |r.hosts| == |hosts|
  {
    var before, names := Names(inv.hosts), Names(hosts);
    var kept := KeepHosts(inv.hosts, KeptNames(names));
    KeepNames(inv.hosts, KeptNames(names));
    FilterUnprotected(before, names);
    FilterDistinct(before, Elements(names));
    PutAllNames(kept, hosts);
    AddAllAppends(Names(kept), names);
    ListedIsNames(before, names);
  }

  /** `all.hosts` lists the built hosts in the order they were built, if and only if that order has the surviving loaded
      hosts first: the group keeps the place of a host that the batch deletes and declares again at the end. */
  lemma {:induction false} HostsInOrderIff(cfg: Settings, inv: Inventory, hosts: seq<Host>, r: Inventory)
    requires Sound(inv) && DistinctNames(hosts) && Assigned(cfg, inv, hosts, r)
    ensures r.hosts == hosts <==> OrderKept(Names(inv.hosts), Names(hosts))
  {
    var before, names := Names(inv.hosts), Names(hosts);
    var kept := KeepHosts(inv.hosts, KeptNames(names));
    FilterUnprotected(before, names);
    KeepNames(inv.hosts, KeptNames(names));
    if OrderKept(before, names) {
      PutAllOverPrefix(kept, hosts);
    }
    if r.hosts == hosts {
      FilterDistinct(before, Elements(names));
      PutAllNames(kept, hosts);
      NamesInOrder(before, names);
    }
  }

  lemma {:induction false} NamesInOrder(before: seq<string>, names: seq<string>)
    requires Distinct(names) && AddAll(Filter(before, Elements(names)), names) == names
    ensures OrderKept(before, names)
  {
    var kept := Filter(before, Elements(names));
    AddAllAppends(kept, names);
    assert names[|kept|..] == Filter(names, Elements(names) - Elements(kept));
  }

  // ---------- The etcd group ----------

  /** The etcd members are the first hosts: three of three or more, all of fewer, except that two hosts may have one. */
  ghost predicate EtcdOf(names: seq<string>, etcd: seq<string>) {
    var n, m := |names|, |etcd|;
    && etcd <= names
    && (n >= 3 ==> m == 3) && (n == 1 ==> m == 1) && (n == 2 ==> 1 <= m <= 2)
  }

  ghost predicate EtcdPrefix(inv: Inventory)
    requires HasRoles(inv)
  {
    EtcdOf(Names(inv.hosts), inv.children[Etcd])
  }

  /** The exact condition for a run that builds `names`: with three hosts or more every surviving etcd member is among the
      first three built, and the surviving members with the new ones follow the order of `all.hosts`. */
  ghost predicate EtcdStays(before: seq<string>, etcd: seq<string>, names: seq<string>) {
    var first := Take(names, EtcdCount(|names|));
    && (|names| >= 3 ==> SurvivorsAmong(etcd, names, first))
    && Regrouped(etcd, names, first) <= Listed(before, names)
  }

  lemma {:induction false} EtcdOfIff(before: seq<string>, etcd: seq<string>, names: seq<string>)
    requires Distinct(before) && Distinct(names) && Distinct(etcd)
    ensures EtcdOf(Listed(before, names), Regrouped(etcd, names, Take(names, EtcdCount(|names|)))) <==> EtcdStays(before, etcd, names)
  {
    var first := Take(names, EtcdCount(|names|));
    TakeDistinct(names, EtcdCount(|names|));
    RegroupedSize(etcd, names, first);
    ListedIsNames(before, names);
  }

  lemma {:induction false} EtcdRegrouped(cfg: Settings, inv: Inventory, hosts: seq<Host>, r: Inventory)
    requires Sound(inv) && DistinctNames(hosts) && Assigned(cfg, inv, hosts, r)
    ensures r.children[Etcd] == Regrouped(inv.children[Etcd], Names(hosts), Take(Names(hosts), EtcdCount(|hosts|)))
  {
    TakeDistinct(Names(hosts), EtcdCount(|hosts|));
    GroupRegrouped(inv.children[Etcd], Names(hosts), Take(Names(hosts), EtcdCount(|hosts|)));
  }

  /** With three hosts or more, etcd has three members if and only if every surviving one is among the first three built. */
  lemma {:induction false} EtcdSizeIff(cfg: Settings, inv: Inventory, hosts: seq<Host>, r: Inventory)
    requires Sound(inv) && Distinct(inv.children[Etcd]) && DistinctNames(hosts) && |hosts| >= 3
    requires Assigned(cfg, inv, hosts, r)
    ensures |r.children[Etcd]| == 3 <==> forall x | x in inv.children[Etcd] && x in Names(hosts) :: x in Names(hosts)[..3]
  {
    EtcdRegrouped(cfg, inv, hosts, r);
    TakeDistinct(Names(hosts), 3);
    RegroupedSize(inv.children[Etcd], Names(hosts), Take(Names(hosts), 3));
  }

  /** From a sound etcd group, a run that may delete, add and declare anything leaves one if and only if `EtcdStays`. */
  lemma {:induction false} EtcdPrefixIff(cfg: Settings, inv: Inventory, hosts: seq<Host>, r: Inventory)
    requires Sound(inv) && EtcdPrefix(inv) && DistinctNames(hosts) && Assigned(cfg, inv, hosts, r)
    ensures HasRoles(r) && (EtcdPrefix(r) <==> EtcdStays(Names(inv.hosts), inv.children[Etcd], Names(hosts)))
  {
    EtcdRegrouped(cfg, inv, hosts, r);
    HostsAreListed(cfg, inv, hosts, r);
    PrefixDistinct(inv.children[Etcd], Names(inv.hosts));
    EtcdOfIff(Names(inv.hosts), inv.children[Etcd], Names(hosts));
  }

  /** When the survivors come first, the group of first hosts loses some of its front and is filled up again. */
  lemma {:induction false} PrefixRegrouped(before: seq<string>, names: seq<string>, group: seq<string>, k: nat)
    requires Distinct(names) && OrderKept(before, names) && group <= before
    ensures var kept, first := Filter(group, Elements(names)), Take(names, k);
            && |kept| <= |group| && kept <= names
            && Regrouped(group, names, first) == (if |kept| < |first| then first else kept)
  {
    var kept, first := Filter(group, Elements(names)), Take(names, k);
    assert group == before[..|group|];
    FilterPrefix(before, |group|, Elements(names));
    assert kept == names[..|kept|] && first == names[..|first|];
    TakeDistinct(names, k);
    AddAllPrefix(names, |kept|, |first|);
    AddAllAppends(kept, first);
  }

  lemma {:induction false} OrderKeepsEtcd(before: seq<string>, etcd: seq<string>, names: seq<string>)
    requires Distinct(before) && Distinct(names) && OrderKept(before, names) && EtcdOf(before, etcd)
    ensures EtcdStays(before, etcd, names)
  {
    PrefixRegrouped(before, names, etcd, EtcdCount(|names|));
    ListedInOrder(before, names);
    PrefixDistinct(etcd, before);
    EtcdOfIff(before, etcd, names);
  }

  lemma {:induction false} AssignKeepsEtcdPrefix(cfg: Settings, inv: Inventory, hosts: seq<Host>, r: Inventory)
    requires Sound(inv) && DistinctNames(hosts) && OrderKept(Names(inv.hosts), Names(hosts))
    requires Assigned(cfg, inv, hosts, r) && EtcdPrefix(inv)
    ensures r.hosts == hosts && HasRoles(r) && EtcdPrefix(r)
  {
    HostsInOrderIff(cfg, inv, hosts, r);
    OrderKeepsEtcd(Names(inv.hosts), inv.children[Etcd], Names(hosts));
    EtcdPrefixIff(cfg, inv, hosts, r);
  }

  ghost predicate EtcdFile(saved: Option<Inventory>) {
    saved.Some? ==> Consistent(saved.value) && EtcdPrefix(saved.value)
  }

  /** The run writes nothing, or the hosts it builds meet the condition. */
  ghost predicate KeepsEtcd(saved: Option<Inventory>, i: Invocation)
    requires !LoadsFiles(i.args)
  {
    var base := Base(saved, i.args);
    Run(i.cfg, saved, i.args).Success? ==> EtcdStays(Names(base.hosts), base.children[Etcd], Names(Built(saved, i)))
  }

  lemma {:induction false} BaseKeepsEtcd(saved: Option<Inventory>, args: seq<string>)
    requires EtcdFile(saved)
    ensures Sound(Base(saved, args)) && EtcdPrefix(Base(saved, args))
  {
    BaseIsSound(saved, args);
    BaseIs(saved, args);
  }

  lemma {:induction false} RunEtcdIff(saved: Option<Inventory>, i: Invocation)
    requires !LoadsFiles(i.args) && DeclaresNoRole(i) && EtcdFile(saved)
    ensures EtcdFile(Next(saved, i)) <==> KeepsEtcd(saved, i)
  {
    if Run(i.cfg, saved, i.args).Success? {
      RunIsAssigned(saved, i);
      RunIsConsistent(i.cfg, saved, i.args);
      BaseKeepsEtcd(saved, i.args);
      EtcdPrefixIff(i.cfg, Base(saved, i.args), Built(saved, i), Run(i.cfg, saved, i.args).value);
    }
  }

  ghost predicate AllKeepEtcd(saved: Option<Inventory>, history: seq<Invocation>)
    requires NoLoads(history)
    decreases |history|
  {
    history == [] || (KeepsEtcd(saved, history[0]) && AllKeepEtcd(Next(saved, history[0]), history[1..]))
  }

  /** The file has a sound etcd group now and after every run. */
  ghost predicate EtcdAlways(saved: Option<Inventory>, history: seq<Invocation>)
    requires NoLoads(history)
    decreases |history|
  {
    EtcdFile(saved) && (history == [] || EtcdAlways(Next(saved, history[0]), history[1..]))
  }

  /** Over every history that declares no role name, the etcd group is always a prefix of the hosts of the stated size, if
      and only if each run meets the condition. */
  lemma {:induction false} HistoryEtcdIff(saved: Option<Inventory>, history: seq<Invocation>)
    requires NoLoads(history) && DeclareNoRole(history) && EtcdFile(saved)
    ensures EtcdAlways(saved, history) <==> AllKeepEtcd(saved, history)
    decreases |history|
  {
    if history != [] {
      assert history[0] in history && forall j | j in history[1..] :: j in history;
      RunEtcdIff(saved, history[0]);
      if KeepsEtcd(saved, history[0]) {
        HistoryEtcdIff(Next(saved, history[0]), history[1..]);
      } else {
      }
    }
  }

  /** Over every history whose runs meet the condition the etcd group stays a prefix of the hosts of the stated size. */
  lemma {:induction false} HistoryKeepsEtcdPrefix(saved: Option<Inventory>, history: seq<Invocation>)
    requires NoLoads(history) && DeclareNoRole(history) && AllKeepEtcd(saved, history) && EtcdFile(saved)
    ensures EtcdFile(RunAll(saved, history))
    decreases |history|
  {
    if history != [] {
      assert history[0] in history && forall j | j in history[1..] :: j in history;
      RunEtcdIff(saved, history[0]);
      HistoryKeepsEtcdPrefix(Next(saved, history[0]), history[1..]);
    }
  }

  lemma {:induction false} OrderlyRunKeepsEtcd(saved: Option<Inventory>, i: Invocation)
    requires !LoadsFiles(i.args) && Orderly(saved, i) && EtcdFile(saved)
    ensures KeepsEtcd(saved, i) && EtcdFile(Next(saved, i))
  {
    if Run(i.cfg, saved, i.args).Success? {
      RunIsAssigned(saved, i);
      BaseKeepsEtcd(saved, i.args);
      OrderKeepsEtcd(Names(Base(saved, i.args).hosts), Base(saved, i.args).children[Etcd], Names(Built(saved, i)));
    }
    RunEtcdIff(saved, i);
  }

  /** Orderly histories meet the condition. */
  lemma {:induction false} OrderlyKeepsEtcd(saved: Option<Inventory>, history: seq<Invocation>)
    requires NoLoads(history) && OrderlyHistory(saved, history) && EtcdFile(saved)
    ensures DeclareNoRole(history) && AllKeepEtcd(saved, history)
    decreases |history|
  {
    if history != [] {
      assert history[0] in history;
      OrderlyRunKeepsEtcd(saved, history[0]);
      OrderlyKeepsEtcd(Next(saved, history[0]), history[1..]);
      Sequences.HeadTail(history);
    }
  }

  /** From nothing, whatever addresses are added and deleted, in any number of runs. */
  lemma {:induction false} AddressHistoryKeepsEtcdPrefix(history: seq<Invocation>)
    requires NoLoads(history) && forall i | i in history :: Unnamed(i)
    ensures EtcdFile(RunAll(None, history))
  {
    AddressesAndDeletionsAreOrderly(None, history);
    OrderlyKeepsEtcd(None, history);
    HistoryKeepsEtcdPrefix(None, history);
  }

  // ---------- Clusters below scale ----------

  /** The first K hosts are the control plane, every host is a worker and there is no route reflector. */
  ghost predicate SmallCluster(controlHosts: nat, inv: Inventory)
    requires HasRoles(inv)
  {
    var names := Names(inv.hosts);
    && inv.children[KubeControlPlane] == Take(names, controlHosts)
    && inv.children[KubeNode] == names
    && inv.children[CalicoRr] == []
  }

  /** The exact condition for the control plane: every survivor of it is among the first k built, and the survivors with
      the new members follow the order of `all.hosts`. */
  ghost predicate ControlStays(before: seq<string>, names: seq<string>, k: nat) {
    && SurvivorsAmong(Take(before, k), names, Take(names, k))
    && Regrouped(Take(before, k), names, Take(names, k)) <= Listed(before, names)
  }

  lemma {:induction false} NodesListed(before: seq<string>, names: seq<string>)
    requires Elements(before) !! PROTECTED_NAMES && Distinct(names)
    ensures AddAll(Filter(before, KeptNames(names)), Filter(names, Elements(names) - {})) == Listed(before, names)
  {
    FilterAll(names, Elements(names) - {});
    GroupRegrouped(before, names, names);
  }

  lemma {:induction false} BelowScaleAre(cfg: Settings, inv: Inventory, hosts: seq<Host>, r: Inventory)
    requires HasRoles(inv) && Assigned(cfg, inv, hosts, r) && |hosts| < cfg.scale
    requires |r.hosts| < cfg.scale && |r.hosts| < cfg.massive
    ensures var names := Names(hosts);
            && HasRoles(r)
            && r.children[KubeControlPlane] ==
                 AddAll(Filter(inv.children[KubeControlPlane], KeptNames(names)), Take(names, cfg.controlHosts))
            && r.children[KubeNode] == AddAll(Filter(inv.children[KubeNode], KeptNames(names)), Filter(names, Elements(names) - {}))
            && r.children[CalicoRr] == Filter(inv.children[CalicoRr], KeptNames(names))
  {
    assert NotNodes(cfg, r) == {};
  }

  /** Below both thresholds a run leaves the roles of a new cluster, if and only if the control plane stays the first K
      hosts; the workers and the route reflectors always stay right. */
  lemma {:induction false} SmallClusterIff(cfg: Settings, inv: Inventory, hosts: seq<Host>, r: Inventory)
    requires Sound(inv) && DistinctNames(hosts) && Assigned(cfg, inv, hosts, r) && SmallCluster(cfg.controlHosts, inv)
    requires |hosts| < cfg.scale && |hosts| < cfg.massive
    ensures HasRoles(r) && r.children[KubeNode] == Names(r.hosts) && r.children[CalicoRr] == []
    ensures SmallCluster(cfg.controlHosts, r) <==> ControlStays(Names(inv.hosts), Names(hosts), cfg.controlHosts)
  {
    var before, names, k := Names(inv.hosts), Names(hosts), cfg.controlHosts;
    HostsAreListed(cfg, inv, hosts, r);
    BelowScaleAre(cfg, inv, hosts, r);
    NodesListed(before, names);
    TakeDistinct(names, k);
    GroupRegrouped(Take(before, k), names, Take(names, k));
    FirstAgain(before, names, k);
  }

  lemma {:induction false} OrderKeepsControl(before: seq<string>, names: seq<string>, k: nat)
    requires Distinct(before) && Distinct(names) && OrderKept(before, names)
    ensures ControlStays(before, names, k)
  {
    PrefixRegrouped(before, names, Take(before, k), k);
    ListedInOrder(before, names);
    FirstAgain(before, names, k);
  }

  lemma {:induction false} AssignKeepsSmall(cfg: Settings, inv: Inventory, hosts: seq<Host>, r: Inventory)
    requires Sound(inv) && DistinctNames(hosts) && OrderKept(Names(inv.hosts), Names(hosts))
    requires Assigned(cfg, inv, hosts, r) && SmallCluster(cfg.controlHosts, inv)
    requires |hosts| < cfg.scale && |hosts| < cfg.massive
    ensures r.hosts == hosts && HasRoles(r) && SmallCluster(cfg.controlHosts, r)
  {
    HostsInOrderIff(cfg, inv, hosts, r);
    OrderKeepsControl(Names(inv.hosts), Names(hosts), cfg.controlHosts);
    SmallClusterIff(cfg, inv, hosts, r);
  }

  ghost predicate SmallFile(controlHosts: nat, saved: Option<Inventory>) {
    saved.Some? ==> Consistent(saved.value) && SmallCluster(controlHosts, saved.value)
  }

  ghost predicate BelowScale(saved: Option<Inventory>, i: Invocation)
    requires !LoadsFiles(i.args)
  {
    Run(i.cfg, saved, i.args).Success? ==>
      |Run(i.cfg, saved, i.args).value.hosts| < i.cfg.scale && |Run(i.cfg, saved, i.args).value.hosts| < i.cfg.massive
  }

  /** Runs with the same number of control plane hosts, none of which writes a cluster at scale. */
  ghost predicate SmallHistory(controlHosts: nat, saved: Option<Inventory>, history: seq<Invocation>)
    requires NoLoads(history)
    decreases |history|
  {
    history == [] ||
    (&& history[0].cfg.controlHosts == controlHosts && BelowScale(saved, history[0])
     && SmallHistory(controlHosts, Next(saved, history[0]), history[1..]))
  }

  /** The run writes nothing, or the hosts it builds meet the condition. */
  ghost predicate KeepsControl(saved: Option<Inventory>, i: Invocation)
    requires !LoadsFiles(i.args)
  {
    Run(i.cfg, saved, i.args).Success? ==>
      ControlStays(Names(Base(saved, i.args).hosts), Names(Built(saved, i)), i.cfg.controlHosts)
  }

  lemma {:induction false} BaseIsSmall(controlHosts: nat, saved: Option<Inventory>, args: seq<string>)
    requires SmallFile(controlHosts, saved)
    ensures HasRoles(Base(saved, args)) && SmallCluster(controlHosts, Base(saved, args))
  {
    BaseIs(saved, args);
  }

  lemma {:induction false} RunSmallIff(saved: Option<Inventory>, i: Invocation)
    requires !LoadsFiles(i.args) && DeclaresNoRole(i) && SmallFile(i.cfg.controlHosts, saved) && BelowScale(saved, i)
    ensures SmallFile(i.cfg.controlHosts, Next(saved, i)) <==> KeepsControl(saved, i)
  {
    if Run(i.cfg, saved, i.args).Success? {
      var r := Run(i.cfg, saved, i.args).value;
      RunIsAssigned(saved, i);
      RunIsConsistent(i.cfg, saved, i.args);
      BaseIsSmall(i.cfg.controlHosts, saved, i.args);
      HostsAreListed(i.cfg, Base(saved, i.args), Built(saved, i), r);
      SmallClusterIff(i.cfg, Base(saved, i.args), Built(saved, i), r);
    }
  }

  ghost predicate AllKeepControl(saved: Option<Inventory>, history: seq<Invocation>)
    requires NoLoads(history)
    decreases |history|
  {
    history == [] || (KeepsControl(saved, history[0]) && AllKeepControl(Next(saved, history[0]), history[1..]))
  }

  /** The file has the roles of a new cluster now and after every run. */
  ghost predicate SmallAlways(controlHosts: nat, saved: Option<Inventory>, history: seq<Invocation>)
    requires NoLoads(history)
    decreases |history|
  {
    SmallFile(controlHosts, saved) && (history == [] || SmallAlways(controlHosts, Next(saved, history[0]), history[1..]))
  }

  /** Over every history below scale that declares no role name, the roles are always those of a new cluster, if and only if
      each run meets the condition. */
  lemma {:induction false} HistorySmallIff(controlHosts: nat, saved: Option<Inventory>, history: seq<Invocation>)
    requires NoLoads(history) && DeclareNoRole(history)
    requires SmallHistory(controlHosts, saved, history) && SmallFile(controlHosts, saved)
    ensures SmallAlways(controlHosts, saved, history) <==> AllKeepControl(saved, history)
    decreases |history|
  {
    if history != [] {
      assert history[0] in history && forall j | j in history[1..] :: j in history;
      RunSmallIff(saved, history[0]);
      if KeepsControl(saved, history[0]) {
        HistorySmallIff(controlHosts, Next(saved, history[0]), history[1..]);
      } else {
      }
    }
  }

  /** Whatever is deleted and added back, a cluster that stays below scale and whose runs meet the condition keeps exactly
      the roles of a new one. */
  lemma {:induction false} HistoryKeepsSmall(controlHosts: nat, saved: Option<Inventory>, history: seq<Invocation>)
    requires NoLoads(history) && DeclareNoRole(history) && AllKeepControl(saved, history)
    requires SmallHistory(controlHosts, saved, history) && SmallFile(controlHosts, saved)
    ensures SmallFile(controlHosts, RunAll(saved, history))
    decreases |history|
  {
    if history != [] {
      assert history[0] in history && forall j | j in history[1..] :: j in history;
      RunSmallIff(saved, history[0]);
      HistoryKeepsSmall(controlHosts, Next(saved, history[0]), history[1..]);
    }
  }

  lemma {:induction false} OrderlyRunKeepsControl(saved: Option<Inventory>, i: Invocation)
    requires !LoadsFiles(i.args) && Orderly(saved, i) && (saved.Some? ==> Consistent(saved.value))
    ensures KeepsControl(saved, i)
  {
    if Run(i.cfg, saved, i.args).Success? {
      RunIsAssigned(saved, i);
      OrderKeepsControl(Names(Base(saved, i.args).hosts), Names(Built(saved, i)), i.cfg.controlHosts);
    }
  }

  /** Orderly histories meet the condition. */
  lemma {:induction false} OrderlyKeepsControl(saved: Option<Inventory>, history: seq<Invocation>)
    requires NoLoads(history) && OrderlyHistory(saved, history) && (saved.Some? ==> Consistent(saved.value))
    ensures DeclareNoRole(history) && AllKeepControl(saved, history)
    decreases |history|
  {
    if history != [] {
      assert history[0] in history;
      OrderlyRunKeepsControl(saved, history[0]);
      NextIsConsistent(saved, history[0]);
      OrderlyKeepsControl(Next(saved, history[0]), history[1..]);
      Sequences.HeadTail(history);
    }
  }

  /** From nothing, whatever addresses are added and deleted, as long as every file written is below scale. */
  lemma {:induction false} AddressHistoryKeepsSmall(controlHosts: nat, history: seq<Invocation>)
    requires NoLoads(history) && forall i | i in history :: Unnamed(i)
    requires SmallHistory(controlHosts, None, history)
    ensures SmallFile(controlHosts, RunAll(None, history))
  {
    AddressesAndDeletionsAreOrderly(None, history);
    OrderlyKeepsControl(None, history);
    HistoryKeepsSmall(controlHosts, None, history);
  }
}
