/** When a run loads the saved file, when it writes, and what it then forgets. */
module RunConditions {
  import opened Wrappers
  import opened Strings
  import opened Ordered
  import opened Hosts
  import opened Batch
  import opened BatchInvariants
  import opened BatchTheorems
  import opened Roles
  import opened RoleTheorems
  import opened Histories
  import Sequences

  // ---------- Loading and writing ----------

  /** A run whose first argument is neither "add" nor a deletion does not depend on the saved file. */
  lemma {:induction false} SavedIsUnread(cfg: Settings, saved: Option<Inventory>, saved': Option<Inventory>, args: seq<string>)
    requires args == [] || (args[0] != "load" && args[0] != "add" && !("-" <= args[0]))
    ensures !LoadsFiles(args) && Run(cfg, saved, args) == Run(cfg, saved', args)
  {
  }

  /** The loaded hosts: those of the saved file when the first argument is "add" or a deletion, and else none. */
  function LoadedHosts(saved: Option<Inventory>, args: seq<string>): seq<Host> {
    if saved.Some? && args != [] && (args[0] == "add" || "-" <= args[0]) then saved.value.hosts else []
  }

  lemma {:induction false} LoadedAre(saved: Option<Inventory>, args: seq<string>)
    ensures LoadsPrevious(args) <==> args != [] && (args[0] == "add" || "-" <= args[0])
    ensures Base(saved, args).hosts == LoadedHosts(saved, args)
  {
    BaseIs(saved, args);
  }

  /** Exactly when a run writes a file: it is no command that only informs, it has changes of which the first is not empty,
      the saved file is there if the run needs it, the ranges expand, and the batch completes on the loaded hosts. */
  lemma {:induction false} RunWritesIff(cfg: Settings, saved: Option<Inventory>, args: seq<string>, changed: seq<string>)
    requires args == [] || args[0] != "load"
    requires changed == if args != [] && args[0] == "add" then args[1..] else args
    ensures !LoadsFiles(args)
    ensures Run(cfg, saved, args).Success? <==>
            && changed != [] && args[0] !in {"help", "print_cfg", "print_ips", "print_hostnames"} && changed[0] != ""
            && (args[0] == "add" || "-" <= args[0] ==> saved.Some?)
            && Expand(changed).Success?
            && BuildHostnames(cfg.prefix, LoadedHosts(saved, args), Expand(changed).value).Success?
  {
    LoadedAre(saved, args);
  }

  /** A run that informs, has no changes, or misses the file it needs exits; an empty first change raises. */
  lemma {:induction false} RunFails(cfg: Settings, saved: Option<Inventory>, args: seq<string>, changed: seq<string>)
    requires args == [] || args[0] != "load"
    requires changed == if args != [] && args[0] == "add" then args[1..] else args
    ensures !LoadsFiles(args)
    ensures args == [] || changed == [] || args[0] in {"help", "print_cfg", "print_ips", "print_hostnames"} ==>
              Run(cfg, saved, args) == Failure(SystemExit)
    ensures changed != [] && changed[0] == "" ==> Run(cfg, saved, args) == Failure(IndexError)
    ensures changed != [] && changed[0] != "" && (args[0] == "add" || "-" <= args[0]) && saved.None? ==>
              Run(cfg, saved, args) == Failure(SystemExit)
  {
    LoadedAre(saved, args);
  }

  /** Any other run that fails raises what the first step that fails raises: the expansion of the ranges, or the batch. */
  lemma {:induction false} RunRaises(cfg: Settings, saved: Option<Inventory>, args: seq<string>, changed: seq<string>)
    requires args != [] && args[0] !in {"load", "help", "print_cfg", "print_ips", "print_hostnames"}
    requires changed == (if args[0] == "add" then args[1..] else args) && changed != [] && changed[0] != ""
    requires args[0] == "add" || "-" <= args[0] ==> saved.Some?
    ensures !LoadsFiles(args)
    ensures Expand(changed).Failure? ==> Run(cfg, saved, args) == Failure(Expand(changed).error)
    ensures Expand(changed).Success? ==>
              var built := BuildHostnames(cfg.prefix, LoadedHosts(saved, args), Expand(changed).value);
              built.Failure? ==> Run(cfg, saved, args) == Failure(built.error)
  {
    LoadedAre(saved, args);
  }

  /** An id can be read from a name if and only if a digit comes before its first dot, or at its end when it has no dot. */
  lemma {:induction false} IdIff(short: string, rest: string)
    requires '.' !in short && (rest == "" || rest[0] == '.')
    ensures GetHostId(short + rest).Success? <==> short != "" && '0' <= short[|short| - 1] <= '9'
  {
    if rest == "" {
      Sequences.EmptyUnit(short);
    } else {
      assert short + rest == short + ['.'] + rest[1..];
      SplitAt(short, '.', rest[1..]);
    }
  }

  lemma {:induction false} HighestIff(prefix: string, names: seq<string>, highest: nat)
    ensures HighestFrom(prefix, names, highest).Success? <==> forall x | x in names && prefix <= x :: GetHostId(x).Success?
    decreases |names|
  {
    if names != [] {
      Sequences.HeadTail(names);
      var id := GetHostId(names[0]);
      HighestIff(prefix, names[1..], if prefix <= names[0] && id.Success? && id.value > highest then id.value else highest);
    }
  }

  lemma {:induction false} UnreadableStart(prefix: string, hosts: seq<Host>, h: Host, short: string, rest: string, batch: seq<string>)
    requires h in hosts && prefix <= h.name && h.name == short + rest
    requires '.' !in short && (rest == "" || rest[0] == '.') && (short == "" || !('0' <= short[|short| - 1] <= '9'))
    ensures BuildHostnames(prefix, hosts, batch) == Failure(SystemExit)
  {
    IdIff(short, rest);
    HighestIff(prefix, Names(hosts), 0);
    NameIn(hosts, h);
  }

  lemma {:induction false} RunLoads(cfg: Settings, saved: Inventory, args: seq<string>, changed: seq<string>)
    requires args != [] && args[0] != "load" && (args[0] == "add" || "-" <= args[0])
    requires changed == if args[0] == "add" then args[1..] else args
    requires changed != [] && changed[0] != "" && Expand(changed).Success?
    requires BuildHostnames(cfg.prefix, saved.hosts, Expand(changed).value) == Failure(SystemExit)
    ensures !LoadsFiles(args) && Run(cfg, Some(saved), args) == Failure(SystemExit)
  {
    LoadedAre(Some(saved), args);
  }

  /** A run that loads a host with the prefix and without a readable id exits, whatever its changes are. */
  lemma {:induction false} UnreadableIdExits(cfg: Settings, saved: Inventory, args: seq<string>, changed: seq<string>, h: Host,
                                             short: string, rest: string)
    requires args != [] && args[0] != "load" && (args[0] == "add" || "-" <= args[0])
    requires changed == if args[0] == "add" then args[1..] else args
    requires changed != [] && changed[0] != "" && Expand(changed).Success?
    requires h in saved.hosts && cfg.prefix <= h.name && h.name == short + rest
    requires '.' !in short && (rest == "" || rest[0] == '.') && (short == "" || !('0' <= short[|short| - 1] <= '9'))
    ensures !LoadsFiles(args) && Run(cfg, Some(saved), args) == Failure(SystemExit)
  {
    UnreadableStart(cfg.prefix, saved.hosts, h, short, rest, Expand(changed).value);
    RunLoads(cfg, saved, args, changed);
  }

  /** The written file has every host that the batch built from the loaded hosts, under the stated record. */
  lemma {:induction false} RunWritesBuilt(cfg: Settings, saved: Option<Inventory>, args: seq<string>, r: Inventory) returns (hosts: seq<Host>)
    requires args == [] || args[0] != "load"
    requires !LoadsFiles(args) && Run(cfg, saved, args) == Success(r)
    requires saved.Some? ==> DistinctNames(saved.value.hosts)
    ensures Expand(ChangedHosts(args)).Success?
    ensures BuildHostnames(cfg.prefix, LoadedHosts(saved, args), Expand(ChangedHosts(args)).value) == Success(hosts)
    ensures DistinctNames(hosts) && HasRoles(Base(saved, args)) && Assigned(cfg, Base(saved, args), hosts, r)
  {
    var batch;
    batch, hosts := RunWrites(cfg, saved, args);
    LoadedAre(saved, args);
    BaseIs(saved, args);
    BuildKeepsDistinct(cfg.prefix, Start(cfg.prefix, LoadedHosts(saved, args)).value, batch);
    AssignedHolds(cfg, Base(saved, args), hosts);
  }

  /** A history ends with what its last run wrote, or if that wrote nothing with what was there before it. */
  lemma {:induction false} LastRunDecides(saved: Option<Inventory>, history: seq<Invocation>, last: Invocation)
    requires NoLoads(history) && !LoadsFiles(last.args)
    ensures NoLoads(history + [last])
    ensures var before := RunAll(saved, history);
            match Run(last.cfg, before, last.args)
            case Success(written) => RunAll(saved, history + [last]) == Some(written)
            case Failure(_) => RunAll(saved, history + [last]) == before
    decreases |history|
  {
    if history == [] {
      assert history + [last] == [last] && [last][1..] == [];
    } else {
      assert history[0] in history && forall j | j in history[1..] :: j in history;
      assert (history + [last])[1..] == history[1..] + [last];
      LastRunDecides(Next(saved, history[0]), history[1..], last);
    }
  }

  // ---------- What the purge spares ----------

  lemma {:induction false} SixNames(x: string)
    ensures x in PROTECTED_NAMES <==> x in {"all", "kube_control_plane", "kube_node", "etcd", "k8s_cluster", "calico_rr"}
  {
  }

  /** An old host that was not built again stays in `all.hosts` if and only if it has one of six names. */
  lemma {:induction false} HostSpared(cfg: Settings, inv: Inventory, hosts: seq<Host>, r: Inventory, h: Host)
    requires HasRoles(inv) && DistinctNames(inv.hosts) && DistinctNames(hosts) && Assigned(cfg, inv, hosts, r)
    requires h in inv.hosts && h.name !in Names(hosts)
    ensures h in r.hosts <==> h.name in {"all", "kube_control_plane", "kube_node", "etcd", "k8s_cluster", "calico_rr"}
  {
    SixNames(h.name);
    AssignedHosts(cfg, inv, hosts, r);
    if h in hosts {
      NameIn(hosts, h);
    }
  }

  lemma {:induction false} KeptMember(group: seq<string>, keep: set<string>, added: seq<string>, x: string)
    requires x in group && x !in added
    ensures x in AddAll(Filter(group, keep), added) <==> x in keep
  {
    AddAllMembers(Filter(group, keep), added);
    assert x in AddAll(Filter(group, keep), added) <==> x in Elements(Filter(group, keep)) + Elements(added);
  }

  /** An old group member that was not built again stays in its group if and only if it has one of the six names. */
  lemma {:induction false} MemberSpared(cfg: Settings, inv: Inventory, hosts: seq<Host>, r: Inventory, g: Group, x: string)
    requires HasRoles(inv) && Assigned(cfg, inv, hosts, r)
    requires g in inv.children && x in inv.children[g] && x !in Names(hosts)
    ensures x in r.children[g] <==> x in {"all", "kube_control_plane", "kube_node", "etcd", "k8s_cluster", "calico_rr"}
  {
    var names := Names(hosts);
    var added := Candidates(cfg, names, NotNodes(cfg, r), g);
    SixNames(x);
    CandidatesAreHosts(cfg, names, NotNodes(cfg, r), g);
    assert x !in added by {
      assert x !in Elements(names);
    }
    KeptMember(inv.children[g], KeptNames(names), added, x);
  }

  lemma {:induction false} UnbuiltIsNoHost(cfg: Settings, inv: Inventory, hosts: seq<Host>, r: Inventory, x: string)
    requires HasRoles(inv) && DistinctNames(inv.hosts) && DistinctNames(hosts) && Assigned(cfg, inv, hosts, r)
    requires x !in Names(hosts) && x !in PROTECTED_NAMES
    ensures x !in Names(r.hosts)
  {
    AssignedHosts(cfg, inv, hosts, r);
    if x in Names(r.hosts) {
      var i := NameOf(r.hosts, x);
      assert r.hosts[i] in r.hosts && r.hosts[i] in hosts;
      NameIn(hosts, r.hosts[i]);
      assert false;
    }
  }

  /** A name that is neither built nor one of the six is nowhere in the file. */
  ghost predicate Forgotten(r: Inventory, x: string) {
    x !in Names(r.hosts) && forall g | g in r.children :: x !in r.children[g]
  }

  lemma {:induction false} UnbuiltIsForgotten(cfg: Settings, inv: Inventory, hosts: seq<Host>, r: Inventory, x: string)
    requires HasRoles(inv) && DistinctNames(inv.hosts) && DistinctNames(hosts) && Assigned(cfg, inv, hosts, r)
    requires x !in Names(hosts) && x !in {"all", "kube_control_plane", "kube_node", "etcd", "k8s_cluster", "calico_rr"}
    ensures Forgotten(r, x)
  {
    SixNames(x);
    UnbuiltIsNoHost(cfg, inv, hosts, r, x);
    forall g | g in r.children
      ensures x !in r.children[g]
    {
      UnbuiltIsNoMember(cfg, inv, hosts, r, g, x);
    }
  }

  lemma {:induction false} UnbuiltIsNoMember(cfg: Settings, inv: Inventory, hosts: seq<Host>, r: Inventory, g: Group, x: string)
    requires HasRoles(inv) && Assigned(cfg, inv, hosts, r) && g in r.children
    requires x !in Names(hosts) && x !in PROTECTED_NAMES
    ensures x !in r.children[g]
  {
    AssignedMembers(cfg, inv, hosts, r, g);
    NotAmong(r.children[g], Names(hosts), PROTECTED_NAMES, x);
  }

  lemma {:induction false} NotAmong(members: seq<string>, names: seq<string>, others: set<string>, x: string)
    requires Elements(members) <= Elements(names) + others && x !in names && x !in others
    ensures x !in members
  {
    assert x !in Elements(names) + others;
    assert x in members ==> x in Elements(members);
  }

  // ---------- Deleted hosts ----------

  lemma {:induction false} StaysAbsent(prefix: string, b: Batch, args: seq<string>, x: string)
    requires DistinctNames(b.hosts) && BuildFrom(prefix, b, args).Success?
    requires x !in Names(b.hosts) && x !in DeclaredNames(b, args) && Ungenerated(prefix, b.nextId, x)
    ensures x !in Names(BuildFrom(prefix, b, args).value.hosts)
    decreases |args|
  {
    if args != [] {
      var b' := StepHost(prefix, b, args[0]).value;
      var c := StepChange(prefix, b, args[0]);
      StepDistinctNames(prefix, b, args[0]);
      DeclaredStep(prefix, b, args);
      assert args[0] in args;
      match c {
        case Same =>
        case Drop(name) => DropNames(b.hosts, name);
        case Generate(ip, access) => PutDistinctNames(b.hosts, HostName(prefix, b.nextId), Record(ip, access));
        case Declare(name, ip, access) => PutDistinctNames(b.hosts, name, Record(ip, access));
      }
      StaysAbsent(prefix, b', args[1..], x);
    }
  }

  lemma {:induction false} DeletedIsAbsent(prefix: string, b: Batch, arg: string, x: string)
    requires DistinctNames(b.hosts) && arg == "-" + x && StepHost(prefix, b, arg).Success?
    ensures x !in Names(StepHost(prefix, b, arg).value.hosts)
  {
    assert arg[1..] == x;
    var b' := StepHost(prefix, b, arg).value;
    if x in Names(b.hosts) {
      DropNames(b.hosts, x);
    } else {
      var c := StepChange(prefix, b, arg);
      if c.Drop? {
        DropNames(b.hosts, c.name);
      }
    }
  }

  /** However a batch goes on, a host that it deletes by name, and that it does not declare or generate afterwards, is not
      among the hosts it builds. */
  lemma {:induction false} DeletedIsNotBuilt(prefix: string, b: Batch, before: seq<string>, x: string, after: seq<string>)
    requires DistinctNames(b.hosts) && BuildFrom(prefix, b, before + (["-" + x] + after)).Success?
    requires var r := BuildFrom(prefix, b, before);
             r.Success? ==> x !in DeclaredNames(r.value, after) && Ungenerated(prefix, r.value.nextId, x)
    ensures x !in Names(BuildFrom(prefix, b, before + (["-" + x] + after)).value.hosts)
  {
    BuildFromConcat(prefix, b, before, ["-" + x] + after);
    BuildKeepsDistinct(prefix, b, before);
    DeletedFirst(prefix, BuildFrom(prefix, b, before).value, "-" + x, x, after);
  }

  lemma {:induction false} DeletedFirst(prefix: string, b: Batch, gone: string, x: string, after: seq<string>)
    requires DistinctNames(b.hosts) && gone == "-" + x && BuildFrom(prefix, b, [gone] + after).Success?
    requires x !in DeclaredNames(b, after) && Ungenerated(prefix, b.nextId, x)
    ensures x !in Names(BuildFrom(prefix, b, [gone] + after).value.hosts)
  {
    DeletedIsAbsent(prefix, b, gone, x);
    StepDistinctNames(prefix, b, gone);
    StaysAbsent(prefix, StepHost(prefix, b, gone).value, after, x);
  }

  /** After such a run the deleted host is in neither `all.hosts` nor any group, unless it has one of the six names. */
  lemma {:induction false} DeletedIsForgotten(cfg: Settings, saved: Option<Inventory>, args: seq<string>, r: Inventory,
                                              before: seq<string>, x: string, after: seq<string>)
    requires (args == [] || args[0] != "load") && !LoadsFiles(args) && Run(cfg, saved, args) == Success(r)
    requires saved.Some? ==> DistinctNames(saved.value.hosts)
    requires Expand(ChangedHosts(args)) == Success(before + (["-" + x] + after))
    requires var m := Build(cfg.prefix, LoadedHosts(saved, args), before);
             m.Success? ==> x !in DeclaredNames(m.value, after) && Ungenerated(cfg.prefix, m.value.nextId, x)
    requires x !in {"all", "kube_control_plane", "kube_node", "etcd", "k8s_cluster", "calico_rr"}
    ensures Forgotten(r, x)
  {
    var hosts := RunWritesBuilt(cfg, saved, args, r);
    BaseIs(saved, args);
    LoadedAre(saved, args);
    DeletedIsNotBuilt(cfg.prefix, Start(cfg.prefix, LoadedHosts(saved, args)).value, before, x, after);
    UnbuiltIsForgotten(cfg, Base(saved, args), hosts, r, x);
  }

  /** The run `-x` leaves nothing of the host x. */
  lemma {:induction false} DeletingRunForgets(cfg: Settings, saved: Inventory, x: string, gone: string, r: Inventory)
    requires DistinctNames(saved.hosts) && gone == "-" + x && !LoadsFiles([gone]) && Run(cfg, Some(saved), [gone]) == Success(r)
    requires x in Names(saved.hosts) && x !in {"all", "kube_control_plane", "kube_node", "etcd", "k8s_cluster", "calico_rr"}
    ensures Forgotten(r, x)
  {
    var hosts := RunWritesBuilt(cfg, Some(saved), [gone], r);
    assert gone[0] == '-' && "-" <= gone;
    ExpandOne(gone);
    BaseIs(Some(saved), [gone]);
    var b := Start(cfg.prefix, saved.hosts).value;
    OneStep(cfg.prefix, b, gone);
    DeletedIsAbsent(cfg.prefix, b, gone, x);
    UnbuiltIsForgotten(cfg, Base(Some(saved), [gone]), hosts, r, x);
  }

  lemma {:induction false} ExpandOne(gone: string)
    requires gone != "" && gone[0] == '-'
    ensures Expand([gone]) == Success([gone])
  {
    assert [gone][1..] == [] && [gone] + [] == [gone];
  }
}
