/** What every batch keeps: distinct names, distinct ips, the order of the survivors, unprotected names. */
module BatchInvariants {
  import opened Wrappers
  import opened Strings
  import opened Ordered
  import opened Hosts
  import opened Batch
  import opened HostIds

  /** inventory.py:47-49 */
  const PROTECTED_NAMES: set<string> := {"all", "kube_control_plane", "kube_node", "etcd", "k8s_cluster", "calico_rr"}

  /** The host name an argument declares with a comma. */
  function ExplicitName(arg: string): Option<string> {
    if IsNamed(arg) && ',' in arg then Some(Split(arg, ',')[0]) else None
  }

  /** What one argument does to the hosts. */
  datatype Change =
    | Same
    | Drop(name: string)
    | Generate(ip: string, access: string)
    | Declare(name: string, ip: string, access: string)

  ghost predicate Applies(prefix: string, b: Batch, arg: string, b': Batch, c: Change) {
    && (b'.hostname == b.hostname || (ExplicitName(arg).Some? && b'.hostname == ExplicitName(arg)))
    && b'.nextId == (if c.Generate? then b.nextId + 1 else b.nextId)
    && match c
       case Same => b'.hosts == b.hosts
       case Drop(name) => IsDelete(arg) && name in Names(b.hosts) && b'.hosts == Remove(b.hosts, name)
       case Generate(ip, access) =>
         && IsAddress(arg) && ExistsIp(b.hosts, ip) == Success(false)
         && b'.hosts == Put(b.hosts, HostName(prefix, b.nextId), Record(ip, access))
       case Declare(name, ip, access) =>
         && IsNamed(arg) && ExistsIp(b.hosts, ip) == Success(false) && b'.hostname == Some(name)
         && b'.hosts == Put(b.hosts, name, Record(ip, access))
  }

  lemma {:induction false} StepChange(prefix: string, b: Batch, arg: string) returns (c: Change)
    requires DistinctNames(b.hosts) && StepHost(prefix, b, arg).Success?
    ensures Applies(prefix, b, arg, StepHost(prefix, b, arg).value, c)
  {
    var b' := StepHost(prefix, b, arg).value;
    c := Same;
    if IsDelete(arg) {
      var target := arg[1..];
      if target in Names(b.hosts) {
        c := Drop(target);
      } else if ExistsIp(b.hosts, target).value {
        FoundIsDeleted(b.hosts, target);
        var i :| 0 <= i < |b.hosts| && DeleteByIp(b.hosts, target) == Success(Remove(b.hosts, b.hosts[i].name));
        assert Names(b.hosts)[i] == b.hosts[i].name;
        c := Drop(b.hosts[i].name);
      }
    } else if IsAddress(arg) {
      var a := ParseAddress(arg).value;
      if arg !in Names(b.hosts) && !ExistsIp(b.hosts, a.ip).value {
        c := Generate(a.ip, a.access);
      }
    } else if IsNamed(arg) {
      var l := NamedLocals(b, arg).value;
      if arg !in Names(b.hosts) && !ExistsIp(b.hosts, l.address.value.ip).value {
        c := Declare(l.hostname.value, l.address.value.ip, l.address.value.access);
      }
    }
  }

  lemma {:induction false} DropNames(hosts: seq<Host>, name: string)
    requires DistinctNames(hosts)
    ensures Names(Remove(hosts, name)) == Filter(Names(hosts), Elements(Names(hosts)) - {name})
    ensures DistinctNames(Remove(hosts, name))
  {
    RemoveIsKeep(hosts, name);
    KeepNames(hosts, Elements(Names(hosts)) - {name});
    FilterDistinct(Names(hosts), Elements(Names(hosts)) - {name});
  }

  lemma {:induction false} StepDistinctNames(prefix: string, b: Batch, arg: string)
    requires DistinctNames(b.hosts) && StepHost(prefix, b, arg).Success?
    ensures DistinctNames(StepHost(prefix, b, arg).value.hosts)
  {
    var c := StepChange(prefix, b, arg);
    match c
    case Same =>
    case Drop(name) => DropNames(b.hosts, name);
    case Generate(ip, access) => PutDistinctNames(b.hosts, HostName(prefix, b.nextId), Record(ip, access));
    case Declare(name, ip, access) => PutDistinctNames(b.hosts, name, Record(ip, access));
  }

  /** Deletions, generated hosts and declared hosts, overwriting or not, all keep ips distinct. */
  lemma {:induction false} StepDistinctIps(prefix: string, b: Batch, arg: string)
    requires DistinctNames(b.hosts) && DistinctIps(b.hosts) && StepHost(prefix, b, arg).Success?
    ensures DistinctIps(StepHost(prefix, b, arg).value.hosts)
  {
    var c := StepChange(prefix, b, arg);
    match c
    case Same =>
    case Drop(name) =>
      RemoveIsKeep(b.hosts, name);
      KeepDistinctIps(b.hosts, Elements(Names(b.hosts)) - {name});
    case Generate(ip, access) =>
      ExistsIpCorrect(b.hosts, ip);
      PutDistinctIps(b.hosts, HostName(prefix, b.nextId), ip, access);
    case Declare(name, ip, access) =>
      ExistsIpCorrect(b.hosts, ip);
      PutDistinctIps(b.hosts, name, ip, access);
  }

  /** Every batch that completes keeps names distinct and, when the loaded ips were distinct, ips too. */
  lemma {:induction false} BuildKeepsDistinct(prefix: string, b: Batch, args: seq<string>)
    requires DistinctNames(b.hosts) && BuildFrom(prefix, b, args).Success?
    ensures DistinctNames(BuildFrom(prefix, b, args).value.hosts)
    ensures DistinctIps(b.hosts) ==> DistinctIps(BuildFrom(prefix, b, args).value.hosts)
    decreases |args|
  {
    if args != [] {
      StepDistinctNames(prefix, b, args[0]);
      if DistinctIps(b.hosts) {
        StepDistinctIps(prefix, b, args[0]);
      }
      BuildKeepsDistinct(prefix, StepHost(prefix, b, args[0]).value, args[1..]);
    }
  }

  lemma {:induction false} RemoveMembers(hosts: seq<Host>, i: nat, h: Host)
    requires DistinctNames(hosts) && i < |hosts|
    ensures h in Remove(hosts, hosts[i].name) <==> h in hosts && h != hosts[i]
  {
    var keep := Elements(Names(hosts)) - {hosts[i].name};
    RemoveIsKeep(hosts, hosts[i].name);
    KeepMembers(hosts, keep);
  }

  lemma {:induction false} OnlyThatIp(hosts: seq<Host>, i: nat, h: Host)
    requires DistinctIps(hosts) && i < |hosts| && h in hosts
    ensures GetIp(h.opts) == GetIp(hosts[i].opts) <==> h == hosts[i]
  {
  }

  /** After `-target`, when target is not a host name, no host has that ip; the deletion never raises. */
  lemma {:induction false} DeletedIpIsGone(b: Batch, target: string)
    requires DistinctNames(b.hosts) && DistinctIps(b.hosts) && target !in Names(b.hosts)
    ensures DeleteStep(b, target).Success?
    ensures forall h :: h in DeleteStep(b, target).value.hosts <==> h in b.hosts && GetIp(h.opts) != Success(target)
  {
    ExistsIpCorrect(b.hosts, target);
    if HasIp(b.hosts, target) {
      FoundIsDeleted(b.hosts, target);
      var i :| 0 <= i < |b.hosts| && GetIp(b.hosts[i].opts) == Success(target)
        && DeleteByIp(b.hosts, target) == Success(Remove(b.hosts, b.hosts[i].name));
      forall h
        ensures h in DeleteStep(b, target).value.hosts <==> h in b.hosts && GetIp(h.opts) != Success(target)
      {
        RemoveMembers(b.hosts, i, h);
        if h in b.hosts {
          OnlyThatIp(b.hosts, i, h);
        }
      }
    }
  }

  // ---------- Order ----------

  ghost predicate NoDeletions(args: seq<string>) {
    forall a | a in args :: !IsDelete(a)
  }

  ghost predicate NoneNamed(args: seq<string>) {
    forall a | a in args :: !IsNamed(a)
  }

  ghost predicate DeclaresNone(args: seq<string>, names: set<string>) {
    forall a | a in args && ExplicitName(a).Some? :: ExplicitName(a).value !in names
  }

  /** No argument brings back a loaded name that is absent at that point of the batch. */
  ghost predicate NeverReadds(prefix: string, loaded: seq<string>, b: Batch, args: seq<string>)
    decreases |args|
  {
    args == [] || StepHost(prefix, b, args[0]).Failure? ||
    (var b' := StepHost(prefix, b, args[0]).value;
     && (forall x | x in loaded && x in Names(b'.hosts) :: x in Names(b.hosts))
     && NeverReadds(prefix, loaded, b', args[1..]))
  }

  lemma {:induction false} PutKeepsOrder(loaded: seq<string>, hosts: seq<Host>, name: string, opts: Opts)
    requires DistinctNames(hosts) && OrderKept(loaded, Names(hosts))
    requires forall x | x in loaded && x in Names(Put(hosts, name, opts)) :: x in Names(hosts)
    ensures OrderKept(loaded, Names(Put(hosts, name, opts)))
  {
    PutDistinctNames(hosts, name, opts);
    if name !in Names(hosts) {
      OrderKeptAppend(loaded, Names(hosts), name);
    }
  }

  lemma {:induction false} StepKeepsOrder(prefix: string, loaded: seq<string>, b: Batch, arg: string)
    requires DistinctNames(b.hosts) && OrderKept(loaded, Names(b.hosts)) && StepHost(prefix, b, arg).Success?
    requires forall x | x in loaded && x in Names(StepHost(prefix, b, arg).value.hosts) :: x in Names(b.hosts)
    ensures OrderKept(loaded, Names(StepHost(prefix, b, arg).value.hosts))
  {
    var c := StepChange(prefix, b, arg);
    match c
    case Same =>
    case Drop(name) =>
      DropNames(b.hosts, name);
      OrderKeptDrop(loaded, Names(b.hosts), name);
    case Generate(ip, access) => PutKeepsOrder(loaded, b.hosts, HostName(prefix, b.nextId), Record(ip, access));
    case Declare(name, ip, access) => PutKeepsOrder(loaded, b.hosts, name, Record(ip, access));
  }

  lemma {:induction false} BuildFromKeepsOrder(prefix: string, loaded: seq<string>, b: Batch, args: seq<string>)
    requires DistinctNames(b.hosts) && OrderKept(loaded, Names(b.hosts)) && BuildFrom(prefix, b, args).Success?
    requires NeverReadds(prefix, loaded, b, args)
    ensures OrderKept(loaded, Names(BuildFrom(prefix, b, args).value.hosts))
    decreases |args|
  {
    if args != [] {
      StepDistinctNames(prefix, b, args[0]);
      StepKeepsOrder(prefix, loaded, b, args[0]);
      BuildFromKeepsOrder(prefix, loaded, StepHost(prefix, b, args[0]).value, args[1..]);
    }
  }

  /** A batch that brings back no deleted host lists the surviving loaded hosts first, in their order. */
  lemma {:induction false} BuildKeepsOrder(prefix: string, loaded: seq<Host>, args: seq<string>)
    requires DistinctNames(loaded) && BuildHostnames(prefix, loaded, args).Success?
    requires NeverReadds(prefix, Names(loaded), Start(prefix, loaded).value, args)
    ensures OrderKept(Names(loaded), Names(BuildHostnames(prefix, loaded, args).value))
  {
    OrderKeptSame(Names(loaded));
    BuildFromKeepsOrder(prefix, Names(loaded), Start(prefix, loaded).value, args);
  }

  /** A batch without deletions brings nothing back, whatever it declares. */
  lemma {:induction false} AddsNeverReadd(prefix: string, loaded: seq<string>, b: Batch, args: seq<string>)
    requires DistinctNames(b.hosts) && NoDeletions(args) && Elements(loaded) <= Elements(Names(b.hosts))
    ensures NeverReadds(prefix, loaded, b, args)
    decreases |args|
  {
    if args != [] && StepHost(prefix, b, args[0]).Success? {
      var b' := StepHost(prefix, b, args[0]).value;
      var c := StepChange(prefix, b, args[0]);
      StepDistinctNames(prefix, b, args[0]);
      assert args[0] in args && forall a | a in args[1..] :: a in args;
      match c {
        case Same =>
        case Generate(ip, access) => PutDistinctNames(b.hosts, HostName(prefix, b.nextId), Record(ip, access));
        case Declare(name, ip, access) => PutDistinctNames(b.hosts, name, Record(ip, access));
      }
      assert forall x | x in loaded :: x in Elements(loaded) && x in Elements(Names(b.hosts));
      AddsNeverReadd(prefix, loaded, b', args[1..]);
    }
  }

  lemma {:induction false} StepReaddsNone(prefix: string, loaded: seq<string>, b: Batch, arg: string)
    requires DistinctNames(b.hosts) && StepHost(prefix, b, arg).Success?
    requires HostName(prefix, b.nextId) !in loaded
    requires var h := StepHost(prefix, b, arg).value.hostname;
             IsNamed(arg) && h.Some? && h.value in loaded ==> h.value in Names(b.hosts)
    ensures forall x | x in loaded && x in Names(StepHost(prefix, b, arg).value.hosts) :: x in Names(b.hosts)
  {
    var c := StepChange(prefix, b, arg);
    match c
    case Same =>
    case Drop(name) => DropNames(b.hosts, name);
    case Generate(ip, access) => PutDistinctNames(b.hosts, HostName(prefix, b.nextId), Record(ip, access));
    case Declare(name, ip, access) => PutDistinctNames(b.hosts, name, Record(ip, access));
  }

  /** No named argument is processed with a loaded host name that is absent at that point. */
  ghost predicate DeclaresPresent(prefix: string, loaded: seq<string>, b: Batch, args: seq<string>)
    decreases |args|
  {
    args == [] || StepHost(prefix, b, args[0]).Failure? ||
    (var b' := StepHost(prefix, b, args[0]).value;
     && (IsNamed(args[0]) && b'.hostname.Some? && b'.hostname.value in loaded ==> b'.hostname.value in Names(b.hosts))
     && DeclaresPresent(prefix, loaded, b', args[1..]))
  }

  /** With generated names above the loaded ones, only a declaration can bring back a deleted host. */
  lemma {:induction false} PresentNeverReadds(prefix: string, loaded: seq<string>, b: Batch, args: seq<string>)
    requires DistinctNames(b.hosts) && NoneGenerated(prefix, loaded, b.nextId) && DeclaresPresent(prefix, loaded, b, args)
    ensures NeverReadds(prefix, loaded, b, args)
    decreases |args|
  {
    if args != [] && StepHost(prefix, b, args[0]).Success? {
      var c := StepChange(prefix, b, args[0]);
      StepDistinctNames(prefix, b, args[0]);
      StepReaddsNone(prefix, loaded, b, args[0]);
      PresentNeverReadds(prefix, loaded, StepHost(prefix, b, args[0]).value, args[1..]);
    }
  }

  /** Addresses and deletions bring nothing back, however they are mixed. */
  lemma {:induction false} UnnamedIsPresent(prefix: string, loaded: seq<string>, b: Batch, args: seq<string>)
    requires NoneNamed(args)
    ensures DeclaresPresent(prefix, loaded, b, args)
    decreases |args|
  {
    if args != [] && StepHost(prefix, b, args[0]).Success? {
      assert args[0] in args && forall a | a in args[1..] :: a in args;
      UnnamedIsPresent(prefix, loaded, StepHost(prefix, b, args[0]).value, args[1..]);
    }
  }

  // ---------- Names ----------

  lemma {:induction false} HostNameUnprotected(prefix: string, n: nat)
    ensures HostName(prefix, n) !in PROTECTED_NAMES
  {
    var name := HostName(prefix, n);
    assert name[|name| - 1] == Decimal(n)[|Decimal(n)| - 1];
    assert Decimal(n)[|Decimal(n)| - 1] in Decimal(n);
  }

  /** Hosts are protected only by having been loaded or declared under a protected name. */
  lemma {:induction false} BuildUnprotected(prefix: string, b: Batch, args: seq<string>)
    requires DistinctNames(b.hosts) && BuildFrom(prefix, b, args).Success?
    requires DeclaresNone(args, PROTECTED_NAMES)
    requires Elements(Names(b.hosts)) !! PROTECTED_NAMES
    requires b.hostname.Some? ==> b.hostname.value !in PROTECTED_NAMES
    ensures Elements(Names(BuildFrom(prefix, b, args).value.hosts)) !! PROTECTED_NAMES
    decreases |args|
  {
    if args != [] {
      var b' := StepHost(prefix, b, args[0]).value;
      var c := StepChange(prefix, b, args[0]);
      StepDistinctNames(prefix, b, args[0]);
      assert args[0] in args && forall a | a in args[1..] :: a in args;
      match c {
        case Same =>
        case Drop(name) => DropNames(b.hosts, name);
        case Generate(ip, access) =>
          HostNameUnprotected(prefix, b.nextId);
          PutDistinctNames(b.hosts, HostName(prefix, b.nextId), Record(ip, access));
        case Declare(name, ip, access) =>
          PutDistinctNames(b.hosts, name, Record(ip, access));
      }
      BuildUnprotected(prefix, b', args[1..]);
    }
  }
}
