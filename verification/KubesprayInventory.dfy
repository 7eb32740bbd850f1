/** The inventory builder itself: the object whose fields every run updates in place, step by step. */
module KubesprayInventoryBuilder {
  import opened Wrappers
  import opened Strings
  import opened DottedQuad
  import opened Ordered
  import opened Hosts
  import opened Batch
  import opened BatchInvariants
  import opened Roles
  import Sequences

  /** inventory.py:298-302 */
  method ScanForIp(hosts: seq<Host>, ip: string) returns (r: Result<bool>)
    ensures r == ExistsIp(hosts, ip)
  {
    for i := 0 to |hosts|
      invariant ExistsIp(hosts[i..], ip) == ExistsIp(hosts, ip)
    {
      assert hosts[i..][0] == hosts[i] && hosts[i..][1..] == hosts[i + 1..];
      var opts := hosts[i].opts;
      if "ip" !in opts {
        return Failure(ValueError);
      }
      if ip == opts["ip"] {
        return Success(true);
      }
    }
    return Success(false);
  }

  /** inventory.py:304-309: deletes the first host with the ip. */
  method DeleteHostByIp(hosts: seq<Host>, ip: string) returns (r: Result<seq<Host>>)
    ensures r == DeleteByIp(hosts, ip)
  {
    assert hosts[0..] == hosts;
    assert DeleteByIp(hosts, ip).Success? ==> hosts[..0] + DeleteByIp(hosts, ip).value == DeleteByIp(hosts, ip).value;
    for i := 0 to |hosts|
      invariant DeleteByIp(hosts, ip) ==
                match DeleteByIp(hosts[i..], ip)
                case Success(rest) => Success(hosts[..i] + rest)
                case Failure(e) => Failure(e)
    {
      Sequences.SuffixStep(hosts, i);
      var opts := hosts[i].opts;
      if "ip" !in opts {
        return Failure(ValueError);
      }
      if ip == opts["ip"] {
        return Success(hosts[..i] + hosts[i + 1..]);
      }
      if DeleteByIp(hosts[i + 1..], ip).Success? {
        Sequences.Assoc(hosts[..i], [hosts[i]], DeleteByIp(hosts[i + 1..], ip).value);
      }
    }
    assert hosts[|hosts|..] == [];
    return Failure(ValueError);
  }

  /** inventory.py:270-293 */
  method RangeToIps(args: seq<string>) returns (r: Result<seq<string>>)
    ensures r == Expand(args)
  {
    var reworked := [];
    assert args[0..] == args;
    assert Expand(args).Success? ==> reworked + Expand(args).value == Expand(args).value;
    for i := 0 to |args|
      invariant Expand(args) ==
                match Expand(args[i..])
                case Success(rest) => Success(reworked + rest)
                case Failure(e) => Failure(e)
    {
      Sequences.SuffixStep(args, i);
      var arg := args[i];
      ghost var before, later := reworked, Expand(args[i + 1..]);
      if '-' in arg && !(arg[0] == '-' || IsAlpha(arg[0])) {
        var ends := Split(Strip(arg), '-');
        if |ends| != 2 {
          return Failure(ValueError);
        }
        var start, end := ParseQuad(ends[0]), ParseQuad(ends[1]);
        if start.Failure? || end.Failure? {
          return Failure(ValueError);
        }
        reworked := reworked + QuadRange(start.value, end.value);
        if later.Success? {
          Sequences.Assoc(before, QuadRange(start.value, end.value), later.value);
        }
      } else {
        reworked := reworked + [arg];
        if later.Success? {
          Sequences.Assoc(before, [arg], later.value);
        }
      }
    }
    assert args[|args|..] == [] && reworked + [] == reworked;
    return Success(reworked);
  }

  class KubesprayInventory {
    const cfg: Settings
    var hosts: seq<Host>
    var children: map<Group, seq<string>>
    var k8sCluster: seq<Group>
    /** The inventory `write_config` stored, or why the run stored none. */
    var written: Result<Inventory>

    ghost function Config(): Inventory
      reads this
    {
      Inventory(hosts, children, k8sCluster)
    }

    /** inventory.py:161-172 */
    method EnsureRequiredGroups(groups: seq<Group>)
      modifies this`children
      ensures Config() == EnsureGroups(old(Config()), groups)
    {
      for i := 0 to |groups|
        invariant EnsureGroups(Config(), groups[i..]) == EnsureGroups(old(Config()), groups)
        invariant hosts == old(hosts) && k8sCluster == old(k8sCluster)
      {
        assert groups[i..][0] == groups[i] && groups[i..][1..] == groups[i + 1..];
        if groups[i] !in children {
          children := children[groups[i] := []];
        }
      }
      assert groups[|groups|..] == [];
    }

    /** The first loop of `build_hostnames` (inventory.py:188-204). */
    method LoadExisting(loadPreviousConfig: bool) returns (r: Result<nat>, existing: seq<Host>)
      ensures existing == (if loadPreviousConfig then hosts else []) || r.Failure?
      ensures match HighestFrom(cfg.prefix, Names(if loadPreviousConfig then hosts else []), 0)
              case Success(highest) => r == Success(highest)
              case Failure(_) => r == Failure(SystemExit)
    {
      existing := [];
      var highestHostId := 0;
      if loadPreviousConfig {
        for i := 0 to |hosts|
          invariant existing == hosts[..i]
          invariant HighestFrom(cfg.prefix, Names(hosts)[i..], highestHostId) == HighestFrom(cfg.prefix, Names(hosts), 0)
        {
          var host := hosts[i].name;
          Sequences.SuffixStep(Names(hosts), i);
          Sequences.SuffixStep(hosts, i);
          existing := existing + [hosts[i]];
          if StartsWith(host, cfg.prefix) {
            var hostId := GetHostId(host);
            if hostId.Failure? {
              return Failure(SystemExit), [];
            }
            if hostId.value > highestHostId {
              highestHostId := hostId.value;
            }
          }
        }
        assert Names(hosts)[|hosts|..] == [];
      }
      r := Success(highestHostId);
    }

    /** One turn of the second loop of `build_hostnames` (inventory.py:211-266). */
    method ProcessHost(b: Batch, host: string) returns (r: Result<Batch>)
      ensures r == StepHost(cfg.prefix, b, host)
    {
      if host == "" {
        return Failure(IndexError);
      }
      if host[0] == '-' {
        var realhost := host[1..];
        if realhost in Names(b.hosts) {
          return Success(b.(hosts := Remove(b.hosts, realhost)));
        }
        var found := ScanForIp(b.hosts, realhost);
        if found.Failure? {
          return Failure(found.error);
        }
        if found.value {
          var rest := DeleteHostByIp(b.hosts, realhost);
          return if rest.Success? then Success(b.(hosts := rest.value)) else Failure(rest.error);
        }
        return Success(b);
      }
      if IsDigit(host[0]) {
        var ip, access := host, host;
        if ',' in host {
          var parts := Split(host, ',');
          if |parts| != 2 {
            return Failure(ValueError);
          }
          ip, access := parts[0], parts[1];
        }
        var b' := b.(address := Some(Address(ip, access)));
        if host in Names(b.hosts) {
          return Success(b');
        }
        var found := ScanForIp(b.hosts, ip);
        if found.Failure? {
          return Failure(found.error);
        }
        if found.value {
          return Success(b');
        }
        var nextHost := cfg.prefix + Decimal(b.nextId);
        return Success(b'.(hosts := Put(b.hosts, nextHost, Record(ip, access)), nextId := b.nextId + 1));
      }
      if IsAlpha(host[0]) {
        var b' := b;
        if ',' in host {
          var parts := Split(host, ',');
          if |parts| == 3 {
            b' := b.(hostname := Some(parts[0]), address := Some(Address(parts[1], parts[2])));
          } else if |parts| == 2 {
            b' := b.(hostname := Some(parts[0]), address := Some(Address(parts[1], parts[1])));
          } else {
            return Failure(ValueError);
          }
        }
        if host in Names(b.hosts) {
          return Success(b');
        }
        if b'.address.None? {
          return Failure(UnboundLocalError);
        }
        var found := ScanForIp(b.hosts, b'.address.value.ip);
        if found.Failure? {
          return Failure(found.error);
        }
        if found.value {
          return Success(b');
        }
        if b'.hostname.None? {
          return Failure(UnboundLocalError);
        }
        var opts := Record(b'.address.value.ip, b'.address.value.access);
        return Success(b'.(hosts := Put(b.hosts, b'.hostname.value, opts)));
      }
      return Success(b);
    }

    /** inventory.py:184-267 */
    method BuildHostNames(changedHosts: seq<string>, loadPreviousConfig: bool) returns (r: Result<seq<Host>>)
      ensures r == BuildHostnames(cfg.prefix, if loadPreviousConfig then hosts else [], changedHosts)
    {
      var highest, existing := LoadExisting(loadPreviousConfig);
      if highest.Failure? {
        return Failure(SystemExit);
      }
      var b := Batch(existing, highest.value + 1, None, None);
      assert Start(cfg.prefix, existing) == Success(b);
      for i := 0 to |changedHosts|
        invariant BuildFrom(cfg.prefix, b, changedHosts[i..]) == Build(cfg.prefix, existing, changedHosts)
      {
        assert changedHosts[i..][0] == changedHosts[i] && changedHosts[i..][1..] == changedHosts[i + 1..];
        var next := ProcessHost(b, changedHosts[i]);
        if next.Failure? {
          return Failure(next.error);
        }
        b := next.value;
      }
      assert changedHosts[|changedHosts|..] == [];
      return Success(b.hosts);
    }

    /** The hosts of one role that are still there, or protected (inventory.py:313-319). */
    method PurgeRole(role: Group, hostnames: seq<string>)
      requires role in children
      modifies this`children
      ensures children == old(children)[role := Filter(old(children)[role], KeptNames(hostnames))]
    {
      var members, kept := children[role], [];
      for i := 0 to |members|
        invariant kept + Filter(members[i..], KeptNames(hostnames)) == Filter(members, KeptNames(hostnames))
        invariant children == old(children)
      {
        assert members[i..][0] == members[i] && members[i..][1..] == members[i + 1..];
        if members[i] in hostnames || members[i] in PROTECTED_NAMES {
          kept := kept + [members[i]];
        }
      }
      assert members[|members|..] == [] && kept + [] == kept;
      children := children[role := kept];
    }

    /** inventory.py:312-319 */
    method PurgeRoles(hostnames: seq<string>)
      modifies this`children
      ensures children == Purge(old(Config()), hostnames).children
    {
      var todo := children.Keys;
      while todo != {}
        invariant todo <= children.Keys == old(children).Keys
        invariant forall g | g in children ::
                    children[g] == if g in todo then old(children)[g] else Filter(old(children)[g], KeptNames(hostnames))
        decreases |todo|
      {
        var role :| role in todo;
        PurgeRole(role, hostnames);
        todo := todo - {role};
      }
    }

    /** inventory.py:320-326 */
    method PurgeAll(hostnames: seq<string>)
      modifies this`hosts
      ensures hosts == KeepHosts(old(hosts), KeptNames(hostnames))
    {
      var kept := [];
      for i := 0 to |hosts|
        invariant kept + KeepHosts(hosts[i..], KeptNames(hostnames)) == KeepHosts(hosts, KeptNames(hostnames))
        invariant hosts == old(hosts)
      {
        assert hosts[i..][0] == hosts[i] && hosts[i..][1..] == hosts[i + 1..];
        if hosts[i].name in hostnames || hosts[i].name in PROTECTED_NAMES {
          kept := kept + [hosts[i]];
        }
      }
      assert hosts[|hosts|..] == [] && kept + [] == kept;
      hosts := kept;
    }

    /** inventory.py:311-326 */
    method PurgeInvalidHosts(hostnames: seq<string>)
      modifies this`hosts, this`children
      ensures Config() == Purge(old(Config()), hostnames)
    {
      PurgeRoles(hostnames);
      PurgeAll(hostnames);
    }

    /** inventory.py:328-339, on a group other than `all` */
    method AddHostToGroup(group: Group, host: string)
      requires group in children
      modifies this`children
      ensures Config() == AddToGroup(old(Config()), group, host)
    {
      if host !in children[group] {
        children := children[group := children[group] + [host]];
      } else {
        assert children == children[group := children[group]];
      }
    }

    /** The loops of `set_etcd` and `set_kube_control_plane` (inventory.py:341-343, :383-385). */
    method SetMembers(group: Group, names: seq<string>)
      requires group in children
      modifies this`children
      ensures Config() == SetGroup(old(Config()), group, names)
    {
      for i := 0 to |names|
        invariant group in children
        invariant SetGroup(Config(), group, names[i..]) == SetGroup(old(Config()), group, names)
      {
        assert names[i..][0] == names[i] && names[i..][1..] == names[i + 1..];
        AddHostToGroup(group, names[i]);
      }
      assert names[|names|..] == [];
    }

    /** inventory.py:345-347 */
    method SetAllHosts(added: seq<Host>)
      modifies this`hosts
      ensures Config() == SetAll(old(Config()), added)
    {
      for i := 0 to |added|
        invariant PutAll(hosts, added[i..]) == PutAll(old(hosts), added)
      {
        assert added[i..][0] == added[i] && added[i..][1..] == added[i + 1..];
        hosts := Put(hosts, added[i].name, added[i].opts);
      }
      assert added[|added|..] == [];
    }

    /** inventory.py:367-381 */
    method SetKubeNodes(names: seq<string>)
      requires HasRoles(Config())
      modifies this`children
      ensures Config() == SetKubeNode(cfg, old(Config()), names)
    {
      for i := 0 to |names|
        invariant HasRoles(Config()) && hosts == old(hosts)
        invariant SetKubeNode(cfg, Config(), names[i..]) == SetKubeNode(cfg, old(Config()), names)
      {
        assert names[i..][0] == names[i] && names[i..][1..] == names[i + 1..];
        if |hosts| >= cfg.scale && names[i] in children[Etcd] {
          continue;
        }
        if |hosts| >= cfg.massive && names[i] in children[KubeControlPlane] {
          continue;
        }
        AddHostToGroup(KubeNode, names[i]);
      }
      assert names[|names|..] == [];
    }

    /** inventory.py:354-365 */
    method SetRouteReflectors(names: seq<string>)
      requires HasRoles(Config())
      modifies this`children
      ensures Config() == SetCalicoRr(old(Config()), names)
    {
      for i := 0 to |names|
        invariant HasRoles(Config())
        invariant SetCalicoRr(Config(), names[i..]) == SetCalicoRr(old(Config()), names)
      {
        assert names[i..][0] == names[i] && names[i..][1..] == names[i + 1..];
        if names[i] in GROUP_KEYS {
          continue;
        }
        AddHostToGroup(CalicoRr, names[i]);
      }
      assert names[|names|..] == [];
    }

    /** inventory.py:122-124 */
    method SetHosts(built: seq<Host>)
      modifies this`hosts, this`children, this`k8sCluster
      ensures Config() == AssignAll(old(Config()), built)
    {
      PurgeInvalidHosts(Names(built));
      SetAllHosts(built);
      k8sCluster := [KubeControlPlane, KubeNode];
    }

    /** inventory.py:125-132 */
    method SetMasters(names: seq<string>)
      requires HasRoles(Config())
      modifies this`children
      ensures Config() == AssignMasters(cfg, old(Config()), names)
    {
      var etcdHostsCount := if |names| >= 3 then 3 else 1;
      SetGroupIs(Config(), Etcd, Take(names, etcdHostsCount));
      SetMembers(Etcd, Take(names, etcdHostsCount));
      if |names| >= cfg.scale {
        SetMembers(KubeControlPlane, Slice(names, etcdHostsCount, etcdHostsCount + cfg.controlHosts));
      } else {
        SetMembers(KubeControlPlane, Take(names, cfg.controlHosts));
      }
    }

    /** inventory.py:133-135 */
    method SetWorkers(names: seq<string>)
      requires HasRoles(Config())
      modifies this`children
      ensures Config() == AssignWorkers(cfg, old(Config()), names)
    {
      var etcdHostsCount := if |names| >= 3 then 3 else 1;
      SetKubeNodeIs(cfg, Config(), names);
      SetKubeNodes(names);
      if |names| >= cfg.scale {
        SetRouteReflectors(Take(names, etcdHostsCount));
      }
    }

    /** inventory.py:122-135 */
    method AssignRoles(built: seq<Host>)
      requires HasRoles(Config())
      modifies this`hosts, this`children, this`k8sCluster
      ensures Config() == Assign(cfg, old(Config()), built)
    {
      SetHosts(built);
      AssignMastersIs(cfg, Config(), Names(built));
      SetMasters(Names(built));
      SetWorkers(Names(built));
    }

    /** inventory.py:119-135 */
    method ChangeHosts(changedHosts: seq<string>, loadPreviousConfig: bool) returns (r: Result<Inventory>)
      requires HasRoles(Config())
      modifies this`hosts, this`children, this`k8sCluster
      ensures r == Changed(cfg, old(Config()), if loadPreviousConfig then old(hosts) else [], changedHosts)
      ensures r.Success? ==> Config() == r.value
    {
      var batch := RangeToIps(changedHosts);
      if batch.Failure? {
        return Failure(batch.error);
      }
      var built := BuildHostNames(batch.value, loadPreviousConfig);
      if built.Failure? {
        return Failure(built.error);
      }
      AssignRoles(built.value);
      return Success(Inventory(hosts, children, k8sCluster));
    }

    /** One run (inventory.py:82-140); `saved` is the content of the configuration file, if it can be opened. */
    constructor (cfg: Settings, saved: Option<Inventory>, args: seq<string>)
      requires !LoadsFiles(args)
      ensures this.cfg == cfg && written == Run(cfg, saved, args)
      ensures written.Success? ==> Config() == written.value
    {
      this.cfg := cfg;
      hosts, children, k8sCluster := [], map[], [];
      written := Failure(SystemExit);
      new;
      var changedHosts, loadPreviousConfig := args, false;
      if args != [] && args[0] in {"help", "print_cfg", "print_ips", "print_hostnames"} {
        return;
      }
      if args != [] && args[0] == "add" {
        loadPreviousConfig, changedHosts := true, args[1..];
      }
      if changedHosts != [] {
        if changedHosts[0] == "" {
          written := Failure(IndexError);
          return;
        }
        if changedHosts[0][0] == '-' {
          loadPreviousConfig := true;
        }
      }
      assert loadPreviousConfig == LoadsPrevious(args) && changedHosts == ChangedHosts(args);
      if loadPreviousConfig {
        if saved.None? {
          return;
        }
        hosts, children, k8sCluster := saved.value.hosts, saved.value.children, saved.value.k8sCluster;
      }
      EnsureRequiredGroups(ROLES);
      assert Config() == Base(saved, args);
      if changedHosts == [] {
        return;
      }
      written := ChangeHosts(changedHosts, loadPreviousConfig);
    }
  }
}
