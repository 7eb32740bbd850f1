/** Invariants over every sequence of runs: the inventory one run writes is what the next may load. */
module Histories {
  import opened Wrappers
  import opened Strings
  import opened DottedQuad
  import opened Ordered
  import opened Hosts
  import opened Batch
  import opened BatchInvariants
  import opened Roles
  import opened RoleTheorems
  import Sequences

  /** One call of the program: the environment may differ from run to run. */
  datatype Invocation = Invocation(cfg: Settings, args: seq<string>)

  predicate NoLoads(history: seq<Invocation>) {
    forall i | i in history :: !LoadsFiles(i.args)
  }

  /** The configuration file after one run; a run that fails or only informs leaves it alone. */
  function Next(saved: Option<Inventory>, i: Invocation): Option<Inventory>
    requires !LoadsFiles(i.args)
  {
    match Run(i.cfg, saved, i.args)
    case Success(inv) => Some(inv)
    case Failure(_) => saved
  }

  function RunAll(saved: Option<Inventory>, history: seq<Invocation>): Option<Inventory>
    requires NoLoads(history)
    decreases |history|
  {
    if history == [] then saved else RunAll(Next(saved, history[0]), history[1..])
  }

  // ---------- Expansion ----------

  lemma {:induction false} QuadIsAddress(n: nat)
    requires n < ADDRESS_LIMIT
    ensures IsAddress(Quad(n))
  {
    var a := Decimal(n / 256 / 256 / 256);
    assert Quad(n)[0] == a[0] && a[0] in a;
  }

  lemma {:induction false} RangeIsAddresses(start: nat, end: nat)
    requires start < ADDRESS_LIMIT && end < ADDRESS_LIMIT
    ensures forall a | a in QuadRange(start, end) :: IsAddress(a)
  {
    forall a | a in QuadRange(start, end)
      ensures IsAddress(a)
    {
      var i :| 0 <= i < |QuadRange(start, end)| && QuadRange(start, end)[i] == a;
      QuadIsAddress(start + i);
    }
  }

  lemma {:induction false} ExpandArgMembers(arg: string)
    requires ExpandArg(arg).Success?
    ensures forall a | a in ExpandArg(arg).value :: a == arg || IsAddress(a)
  {
    if IsRange(arg) {
      var ends := Split(Strip(arg), '-');
      RangeIsAddresses(ParseQuad(ends[0]).value, ParseQuad(ends[1]).value);
    }
  }

  /** Expanding ranges only brings in addresses. */
  lemma {:induction false} ExpandMembers(args: seq<string>)
    requires Expand(args).Success?
    ensures forall a | a in Expand(args).value :: a in args || IsAddress(a)
  {
    if args != [] {
      ExpandArgMembers(args[0]);
      ExpandMembers(args[1..]);
      Sequences.HeadTail(args);
    }
  }

  lemma {:induction false} ExpandDeclares(args: seq<string>, names: set<string>)
    requires Expand(args).Success? && DeclaresNone(args, names)
    ensures DeclaresNone(Expand(args).value, names)
  {
    ExpandMembers(args);
  }

  lemma {:induction false} ExpandUnnamed(args: seq<string>)
    requires Expand(args).Success? && NoneNamed(args)
    ensures NoneNamed(Expand(args).value)
  {
    ExpandMembers(args);
  }

  lemma {:induction false} ExpandAdds(args: seq<string>)
    requires Expand(args).Success? && NoDeletions(args)
    ensures NoDeletions(Expand(args).value)
  {
    ExpandMembers(args);
  }

  // ---------- Consistency: every run keeps it ----------

  /** Names and ips are distinct, no host has a protected name, groups list only hosts, and every host has a role. */
  ghost predicate Consistent(inv: Inventory) {
    && HasRoles(inv) && DistinctNames(inv.hosts) && DistinctIps(inv.hosts) && Unprotected(inv.hosts)
    && (forall g | g in inv.children :: Elements(inv.children[g]) <= Elements(Names(inv.hosts)))
    && (forall x | x in Names(inv.hosts) ::
          x in inv.children[KubeNode] || x in inv.children[Etcd] || x in inv.children[KubeControlPlane])
  }

  /** The part of consistency a run needs to start from; an empty inventory has it too. */
  ghost predicate Sound(inv: Inventory) {
    && HasRoles(inv) && DistinctNames(inv.hosts) && DistinctIps(inv.hosts) && Unprotected(inv.hosts)
    && forall g | g in inv.children :: Elements(inv.children[g]) !! PROTECTED_NAMES
  }

  lemma {:induction false} BaseIs(saved: Option<Inventory>, args: seq<string>)
    ensures var base := Base(saved, args);
            && HasRoles(base)
            && base.hosts == (if LoadsPrevious(args) && saved.Some? then saved.value.hosts else [])
            && (LoadsPrevious(args) && saved.Some? && HasRoles(saved.value) ==> base == saved.value)
            && (!LoadsPrevious(args) || saved.None? ==>
                  base.children == map[KubeControlPlane := [], KubeNode := [], Etcd := [], CalicoRr := []])
  {
  }

  lemma {:induction false} DistinctIpsOf(a: seq<Host>, b: seq<Host>)
    requires DistinctNames(a) && DistinctNames(b) && DistinctIps(b)
    requires forall h | h in a :: h in b
    ensures DistinctIps(a)
  {
    forall i, j | 0 <= i < j < |a|
      ensures "ip" in a[i].opts && "ip" in a[j].opts && a[i].opts["ip"] != a[j].opts["ip"]
    {
      assert a[i] in b && a[j] in b;
      var k :| 0 <= k < |b| && b[k] == a[i];
      var l :| 0 <= l < |b| && b[l] == a[j];
      assert Names(a)[i] != Names(a)[j];
      assert k != l;
    }
  }

  /** The hosts a batch builds from sound hosts are sound. */
  lemma {:induction false} BuildIsSound(prefix: string, loaded: seq<Host>, args: seq<string>)
    requires DistinctNames(loaded) && DistinctIps(loaded) && Unprotected(loaded)
    requires DeclaresNone(args, PROTECTED_NAMES) && BuildHostnames(prefix, loaded, args).Success?
    ensures var hosts := BuildHostnames(prefix, loaded, args).value;
            DistinctNames(hosts) && DistinctIps(hosts) && Unprotected(hosts)
  {
    BuildKeepsDistinct(prefix, Start(prefix, loaded).value, args);
    BuildUnprotected(prefix, Start(prefix, loaded).value, args);
  }

  lemma {:induction false} FilterUnprotected(s: seq<string>, names: seq<string>)
    requires Elements(s) !! PROTECTED_NAMES
    ensures Filter(s, KeptNames(names)) == Filter(s, Elements(names))
  {
    assert forall x | x in s :: x in Elements(s);
    FilterCong(s, KeptNames(names), Elements(names));
  }

  lemma {:induction false} GroupIsHosts(cfg: Settings, inv: Inventory, hosts: seq<Host>, r: Inventory, g: Group)
    requires Sound(inv) && Assigned(cfg, inv, hosts, r) && g in r.children
    ensures Elements(r.children[g]) <= Elements(Names(hosts))
  {
    var names := Names(hosts);
    FilterUnprotected(inv.children[g], names);
    CandidatesAreHosts(cfg, names, NotNodes(cfg, r), g);
    AddAllMembers(Filter(inv.children[g], Elements(names)), Candidates(cfg, names, NotNodes(cfg, r), g));
  }

  lemma {:induction false} AssignIsConsistent(cfg: Settings, inv: Inventory, hosts: seq<Host>)
    requires Sound(inv) && DistinctNames(hosts) && DistinctIps(hosts) && Unprotected(hosts)
    ensures Consistent(Assign(cfg, inv, hosts))
    ensures forall h :: h in Assign(cfg, inv, hosts).hosts <==> h in hosts
  {
    var r := Assign(cfg, inv, hosts);
    AssignedHolds(cfg, inv, hosts);
    SoundAssigned(cfg, inv, hosts, r);
  }

  lemma {:induction false} SoundAssigned(cfg: Settings, inv: Inventory, hosts: seq<Host>, r: Inventory)
    requires Sound(inv) && DistinctNames(hosts) && DistinctIps(hosts) && Unprotected(hosts)
    requires Assigned(cfg, inv, hosts, r)
    ensures Consistent(r)
    ensures forall h :: h in r.hosts <==> h in hosts
  {
    AssignedHosts(cfg, inv, hosts, r);
    forall h | h in inv.hosts
      ensures h.name !in PROTECTED_NAMES
    {
      var i :| 0 <= i < |inv.hosts| && inv.hosts[i] == h;
      assert Names(inv.hosts)[i] in Elements(Names(inv.hosts));
    }
    NamesOfMembers(r.hosts, hosts);
    NamesOfMembers(hosts, r.hosts);
    DistinctIpsOf(r.hosts, hosts);
    forall g | g in r.children
      ensures Elements(r.children[g]) <= Elements(Names(r.hosts))
    {
      GroupIsHosts(cfg, inv, hosts, r, g);
    }
    forall x | x in Names(r.hosts)
      ensures x in r.children[KubeNode] || x in r.children[Etcd] || x in r.children[KubeControlPlane]
    {
      assert x in Elements(Names(hosts));
      AssignedCovers(cfg, inv, hosts, r, x);
    }
  }

  lemma {:induction false} BaseIsSound(saved: Option<Inventory>, args: seq<string>)
    requires saved.Some? ==> Consistent(saved.value)
    ensures Sound(Base(saved, args))
  {
    BaseIs(saved, args);
  }

  /** A run that writes has expanded its arguments, built the hosts and assigned the roles. */
  lemma {:induction false} RunWrites(cfg: Settings, saved: Option<Inventory>, args: seq<string>) returns (batch: seq<string>, hosts: seq<Host>)
    requires !LoadsFiles(args) && Run(cfg, saved, args).Success?
    ensures Expand(ChangedHosts(args)) == Success(batch)
    ensures BuildHostnames(cfg.prefix, Base(saved, args).hosts, batch) == Success(hosts)
    ensures Run(cfg, saved, args) == Success(Assign(cfg, Base(saved, args), hosts))
    ensures LoadsPrevious(args) ==> saved.Some?
  {
    batch := Expand(ChangedHosts(args)).value;
    hosts := BuildHostnames(cfg.prefix, Base(saved, args).hosts, batch).value;
  }

  /** One run from a consistent file, or from none, writes a consistent inventory, whatever its other arguments do. */
  lemma {:induction false} RunIsConsistent(cfg: Settings, saved: Option<Inventory>, args: seq<string>)
    requires saved.Some? ==> Consistent(saved.value)
    requires !LoadsFiles(args) && DeclaresNone(ChangedHosts(args), PROTECTED_NAMES)
    requires Run(cfg, saved, args).Success?
    ensures Consistent(Run(cfg, saved, args).value)
    ensures Expand(ChangedHosts(args)).Success?
    ensures var built := BuildHostnames(cfg.prefix, Base(saved, args).hosts, Expand(ChangedHosts(args)).value);
            built.Success? && forall h :: h in Run(cfg, saved, args).value.hosts <==> h in built.value
  {
    var batch, hosts := RunWrites(cfg, saved, args);
    BaseIsSound(saved, args);
    ExpandDeclares(ChangedHosts(args), PROTECTED_NAMES);
    BuildIsSound(cfg.prefix, Base(saved, args).hosts, batch);
    AssignIsConsistent(cfg, Base(saved, args), hosts);
  }

  /** The run declares no host under a role's name; a run that only informs declares nothing. */
  ghost predicate DeclaresNoRole(i: Invocation) {
    Informs(i.args) || DeclaresNone(ChangedHosts(i.args), PROTECTED_NAMES)
  }

  ghost predicate DeclareNoRole(history: seq<Invocation>) {
    forall i | i in history :: DeclaresNoRole(i)
  }

  /** The hosts that a run which writes has built. */
  function Built(saved: Option<Inventory>, i: Invocation): seq<Host>
    requires !LoadsFiles(i.args) && Run(i.cfg, saved, i.args).Success?
  {
    BuildHostnames(i.cfg.prefix, Base(saved, i.args).hosts, Expand(ChangedHosts(i.args)).value).value
  }

  lemma {:induction false} RunIsAssigned(saved: Option<Inventory>, i: Invocation)
    requires !LoadsFiles(i.args) && DeclaresNoRole(i) && Run(i.cfg, saved, i.args).Success?
    requires saved.Some? ==> Consistent(saved.value)
    ensures var base, hosts := Base(saved, i.args), Built(saved, i);
            && Sound(base) && DistinctNames(hosts)
            && Assigned(i.cfg, base, hosts, Run(i.cfg, saved, i.args).value)
  {
    var batch, hosts := RunWrites(i.cfg, saved, i.args);
    var base := Base(saved, i.args);
    BaseIsSound(saved, i.args);
    ExpandDeclares(ChangedHosts(i.args), PROTECTED_NAMES);
    BuildIsSound(i.cfg.prefix, base.hosts, batch);
    AssignedHolds(i.cfg, base, hosts);
  }

  lemma {:induction false} NextIsConsistent(saved: Option<Inventory>, i: Invocation)
    requires !LoadsFiles(i.args) && DeclaresNoRole(i) && (saved.Some? ==> Consistent(saved.value))
    ensures Next(saved, i).Some? ==> Consistent(Next(saved, i).value)
  {
    if Run(i.cfg, saved, i.args).Success? {
      RunIsConsistent(i.cfg, saved, i.args);
    }
  }

  /** Every history of runs that declares no host under a role's name leaves a consistent file. */
  lemma {:induction false} HistoryIsConsistent(saved: Option<Inventory>, history: seq<Invocation>)
    requires NoLoads(history) && DeclareNoRole(history)
    requires saved.Some? ==> Consistent(saved.value)
    ensures RunAll(saved, history).Some? ==> Consistent(RunAll(saved, history).value)
    decreases |history|
  {
    if history != [] {
      var i := history[0];
      assert i in history && forall j | j in history[1..] :: j in history;
      NextIsConsistent(saved, i);
      HistoryIsConsistent(Next(saved, i), history[1..]);
    }
  }
}
