/** The inventory queries: hosts to groups inverted into groups to hosts, and the variables of one host. */
module TerraformGroups {
  import Sequences

  type Attrs = map<string, string>

  /** What a provider parser yields for one resource. */
  datatype Node = Node(name: string, attrs: Attrs, groups: seq<string>)

  /** The answer to `--list`: the host list of each group, and `_meta.hostvars`. */
  datatype Listing = Listing(groups: map<string, seq<string>>, hostvars: map<string, Attrs>)

  /** terraform.py:375-380 */
  function QueryHost(hosts: seq<Node>, target: string): Attrs {
    if hosts == [] then map[] else if hosts[0].name == target then hosts[0].attrs else QueryHost(hosts[1..], target)
  }

  function GroupSet(host: Node): set<string> {
    set g | g in host.groups
  }

  /** An empty group name stands for "all". */
  function GroupName(g: string): string {
    if g == "" then "all" else g
  }

  /** How the groups `done` of a host list it under `g`: once, or twice for a host in both "" and "all". */
  function Listed(name: string, done: set<string>, g: string): seq<string> {
    (if g != "" && g in done then [name] else []) + (if g == "all" && "" in done then [name] else [])
  }

  function Members(hosts: seq<Node>, g: string): seq<string> {
    if hosts == [] then [] else Listed(hosts[0].name, GroupSet(hosts[0]), g) + Members(hosts[1..], g)
  }

  function LastAttrs(hosts: seq<Node>): map<string, Attrs> {
    if hosts == [] then map[] else LastAttrs(hosts[..|hosts| - 1])[hosts[|hosts| - 1].name := hosts[|hosts| - 1].attrs]
  }

  function Lookup(groups: map<string, seq<string>>, g: string): seq<string> {
    if g in groups then groups[g] else []
  }

  lemma {:induction false} MembersConcat(a: seq<Node>, b: seq<Node>, g: string)
    ensures Members(a + b, g) == Members(a, g) + Members(b, g)
  {
    if a == [] {
      assert a + b == b;
    } else {
      MembersConcat(a[1..], b, g);
      assert (a + b)[1..] == a[1..] + b;
      Sequences.Assoc(Listed(a[0].name, GroupSet(a[0]), g), Members(a[1..], g), Members(b, g));
    }
  }

  lemma {:induction false} ListedOneMore(before: seq<string>, name: string, done: set<string>, g: string, h: string)
    requires g !in done
    ensures before + Listed(name, done + {g}, h) ==
            before + Listed(name, done, h) + (if h == GroupName(g) then [name] else [])
  {
    var more := if h == GroupName(g) then [name] else [];
    assert Listed(name, done + {g}, h) == Listed(name, done, h) + more;
    Sequences.Assoc(before, Listed(name, done, h), more);
  }

  /** The groups after listing a host under the groups `done`. */
  ghost predicate ListedIn(before: map<string, seq<string>>, groups: map<string, seq<string>>, name: string, done: set<string>) {
    && (forall g :: Lookup(groups, g) == Lookup(before, g) + Listed(name, done, g))
    && forall g | g in groups :: groups[g] != []
  }

  lemma {:induction false} ListOneMore(before: map<string, seq<string>>, groups: map<string, seq<string>>, name: string,
                                       done: set<string>, group: string, groups': map<string, seq<string>>)
    requires ListedIn(before, groups, name, done) && group !in done
    requires groups' == groups[GroupName(group) := Lookup(groups, GroupName(group)) + [name]]
    ensures ListedIn(before, groups', name, done + {group})
  {
    forall g
      ensures Lookup(groups', g) == Lookup(before, g) + Listed(name, done + {group}, g)
    {
      ListedOneMore(Lookup(before, g), name, done, group, g);
      assert Lookup(groups', g) == Lookup(groups, g) + (if g == GroupName(group) then [name] else []);
    }
  }

  /** The inner loop, over the set of the groups of one host, in any order (terraform.py:388-394). */
  method ListHost(before: map<string, seq<string>>, host: Node) returns (groups: map<string, seq<string>>)
    requires forall g | g in before :: before[g] != []
    ensures forall g :: Lookup(groups, g) == Lookup(before, g) + Listed(host.name, GroupSet(host), g)
    ensures forall g | g in groups :: groups[g] != []
  {
    groups := before;
    var todo := GroupSet(host);
    while todo != {}
      invariant todo <= GroupSet(host)
      invariant ListedIn(before, groups, host.name, GroupSet(host) - todo)
      decreases |todo|
    {
      var group :| group in todo;
      ghost var done, last := GroupSet(host) - todo, groups;
      var name := GroupName(group);
      groups := groups[name := Lookup(groups, name) + [host.name]];
      todo := todo - {group};
      ListOneMore(before, last, host.name, done, group, groups);
      assert GroupSet(host) - todo == done + {group};
    }
    assert GroupSet(host) - todo == GroupSet(host);
  }

  lemma {:induction false} MembersOneMore(hosts: seq<Node>, i: nat, g: string)
    requires i < |hosts|
    ensures Members(hosts[..i + 1], g) == Members(hosts[..i], g) + Listed(hosts[i].name, GroupSet(hosts[i]), g)
  {
    assert hosts[..i + 1] == hosts[..i] + [hosts[i]];
    MembersConcat(hosts[..i], [hosts[i]], g);
    assert [hosts[i]][1..] == [];
  }

  /** terraform.py:383-399 */
  method QueryList(hosts: seq<Node>) returns (r: Listing)
    ensures forall g :: g in r.groups <==> g != "_meta" && Members(hosts, g) != []
    ensures forall g | g in r.groups :: r.groups[g] == Members(hosts, g)
    ensures r.hostvars == LastAttrs(hosts)
    ensures TotalLength(r.groups) + |Members(hosts, "_meta")| == TotalGroups(hosts)
  {
    var groups: map<string, seq<string>>, meta: map<string, Attrs> := map[], map[];
    for i := 0 to |hosts|
      invariant forall g :: Lookup(groups, g) == Members(hosts[..i], g)
      invariant forall g | g in groups :: groups[g] != []
      invariant meta == LastAttrs(hosts[..i])
    {
      groups := ListHost(groups, hosts[i]);
      meta := meta[hosts[i].name := hosts[i].attrs];
      forall g {
        MembersOneMore(hosts, i, g);
      }
      assert hosts[..i + 1][..i] == hosts[..i];
    }
    assert hosts[..|hosts|] == hosts;
    assert forall g :: g in groups <==> Lookup(groups, g) != [];
    r := Listing(groups - {"_meta"}, meta);
    AnswerConserves(hosts, r.groups);
  }

  // ---------- The inverse relation ----------

  /** The names of the hosts that carry a group, in input order. */
  function Carriers(hosts: seq<Node>, g: string): seq<string> {
    if hosts == [] then []
    else (if exists x :: x in GroupSet(hosts[0]) && GroupName(x) == g then [hosts[0].name] else []) + Carriers(hosts[1..], g)
  }

  predicate InBoth(host: Node) {
    "" in host.groups && "all" in host.groups
  }

  function CountInBoth(hosts: seq<Node>): nat {
    if hosts == [] then 0 else (if InBoth(hosts[0]) then 1 else 0) + CountInBoth(hosts[1..])
  }

  /** Every group lists exactly its carriers, in order, except that hosts in both "" and "all" are listed twice in "all". */
  lemma {:induction false} MembersAreCarriers(hosts: seq<Node>, g: string)
    ensures g != "all" ==> Members(hosts, g) == Carriers(hosts, g)
    ensures Members(hosts, "all") == Carriers(hosts, "all") <==> forall h | h in hosts :: !InBoth(h)
    ensures |Members(hosts, "all")| == |Carriers(hosts, "all")| + CountInBoth(hosts)
  {
    if hosts != [] {
      var h, rest := hosts[0], hosts[1..];
      MembersAreCarriers(rest, g);
      assert hosts == [h] + rest;
      ListedIsCarried(h, g);
      ListedIsCarried(h, "all");
      CountsInBoth(rest);
    }
  }

  lemma {:induction false} CountsInBoth(hosts: seq<Node>)
    ensures CountInBoth(hosts) == 0 <==> forall h | h in hosts :: !InBoth(h)
  {
    if hosts != [] {
      CountsInBoth(hosts[1..]);
      assert hosts == [hosts[0]] + hosts[1..];
    }
  }

  lemma {:induction false} ListedIsCarried(h: Node, g: string)
    ensures var carried := if exists x :: x in GroupSet(h) && GroupName(x) == g then [h.name] else [];
            Listed(h.name, GroupSet(h), g) == if g == "all" && InBoth(h) then [h.name, h.name] else carried
  {
    assert g in GroupSet(h) ==> g == "" || GroupName(g) == g;
    assert "" in GroupSet(h) ==> GroupName("") == "all";
  }

  // ---------- Conservation ----------

  ghost function Pick(keys: set<string>): string
    requires keys != {}
  {
    var k :| k in keys; k
  }

  /** The lengths of the lists of the groups `keys`, added up. */
  ghost function TotalListed(keys: set<string>, hosts: seq<Node>): nat {
    if keys == {} then 0 else var k := Pick(keys); |Members(hosts, k)| + TotalListed(keys - {k}, hosts)
  }

  function TotalGroups(hosts: seq<Node>): nat {
    if hosts == [] then 0 else |GroupSet(hosts[0])| + TotalGroups(hosts[1..])
  }

  lemma {:induction false} TotalConcat(keys: set<string>, a: seq<Node>, b: seq<Node>)
    ensures TotalListed(keys, a + b) == TotalListed(keys, a) + TotalListed(keys, b)
  {
    if keys != {} {
      MembersConcat(a, b, Pick(keys));
      TotalConcat(keys - {Pick(keys)}, a, b);
    }
  }

  lemma {:induction false} TotalOfOne(keys: set<string>, h: Node)
    ensures TotalListed(keys, [h]) ==
            |(GroupSet(h) - {""}) * keys| + (if "all" in keys && "" in GroupSet(h) then 1 else 0)
  {
    if keys != {} {
      var k := Pick(keys);
      TotalOfOne(keys - {k}, h);
      assert [h][1..] == [];
      var named := GroupSet(h) - {""};
      assert Members([h], k) == Listed(h.name, GroupSet(h), k);
      if k in named {
        assert named * keys == named * (keys - {k}) + {k};
      } else {
        assert named * keys == named * (keys - {k});
      }
    }
  }

  /** Over all the groups that occur, the lists hold one entry per host and distinct group of that host. */
  lemma {:induction false} ListingConserves(keys: set<string>, hosts: seq<Node>)
    requires forall h, g | h in hosts && g in GroupSet(h) :: GroupName(g) in keys
    ensures TotalListed(keys, hosts) == TotalGroups(hosts)
  {
    if hosts == [] {
      NothingListed(keys);
    } else {
      var h := hosts[0];
      assert hosts == [h] + hosts[1..];
      TotalConcat(keys, [h], hosts[1..]);
      TotalOfOne(keys, h);
      ListingConserves(keys, hosts[1..]);
      var named := GroupSet(h) - {""};
      assert forall g | g in named :: GroupName(g) in keys;
      assert named * keys == named;
      if "" in GroupSet(h) {
        assert GroupName("") in keys;
        assert GroupSet(h) == named + {""};
      } else {
        assert GroupSet(h) == named;
      }
    }
  }

  /** The lengths of the lists of an answer, added up. */
  ghost function TotalLength(groups: map<string, seq<string>>): nat {
    if groups == map[] then 0 else var k := Pick(groups.Keys); |groups[k]| + TotalLength(groups - {k})
  }

  lemma {:induction false} TotalsAgree(groups: map<string, seq<string>>, hosts: seq<Node>)
    requires forall g | g in groups :: groups[g] == Members(hosts, g)
    ensures TotalLength(groups) == TotalListed(groups.Keys, hosts)
  {
    if groups != map[] {
      var k := Pick(groups.Keys);
      assert (groups - {k}).Keys == groups.Keys - {k};
      TotalsAgree(groups - {k}, hosts);
    }
  }

  /** The total does not depend on the order in which groups are taken. */
  lemma {:induction false} TotalWithout(keys: set<string>, k: string, hosts: seq<Node>)
    requires k in keys
    ensures TotalListed(keys, hosts) == |Members(hosts, k)| + TotalListed(keys - {k}, hosts)
  {
    var p := Pick(keys);
    if p != k {
      TotalWithout(keys - {p}, k, hosts);
      TotalWithout(keys - {k}, p, hosts);
      assert keys - {p} - {k} == keys - {k} - {p};
    }
  }

  lemma {:induction false} CarriedIsListed(hosts: seq<Node>, h: Node, g: string)
    requires h in hosts && g in GroupSet(h)
    ensures Members(hosts, GroupName(g)) != []
  {
    if h != hosts[0] {
      assert h in hosts[1..];
      CarriedIsListed(hosts[1..], h, g);
    }
  }

  /** The answer of `query_list` loses only the listings of a group named `_meta`: its lists, and those, hold one entry per
      host and distinct group of that host. */
  lemma {:induction false} AnswerConserves(hosts: seq<Node>, groups: map<string, seq<string>>)
    requires forall g :: g in groups <==> g != "_meta" && Members(hosts, g) != []
    requires forall g | g in groups :: groups[g] == Members(hosts, g)
    ensures TotalLength(groups) + |Members(hosts, "_meta")| == TotalGroups(hosts)
  {
    var keys := groups.Keys + {"_meta"};
    forall h, g | h in hosts && g in GroupSet(h)
      ensures GroupName(g) in keys
    {
      CarriedIsListed(hosts, h, g);
    }
    ListingConserves(keys, hosts);
    TotalWithout(keys, "_meta", hosts);
    assert keys - {"_meta"} == groups.Keys;
    TotalsAgree(groups, hosts);
  }

  lemma {:induction false} NothingListed(keys: set<string>)
    ensures TotalListed(keys, []) == 0
  {
    if keys != {} {
      NothingListed(keys - {Pick(keys)});
    }
  }

  // ---------- Host variables ----------

  lemma {:induction false} LastAttrsKeys(hosts: seq<Node>, name: string)
    ensures name in LastAttrs(hosts) <==> exists h :: h in hosts && h.name == name
    decreases |hosts|
  {
    if hosts != [] {
      var front, last := hosts[..|hosts| - 1], hosts[|hosts| - 1];
      assert hosts == front + [last];
      LastAttrsKeys(front, name);
    }
  }

  /** Of hosts with the same name the last one gives the variables that are listed. */
  lemma {:induction false} LastHostIsListed(hosts: seq<Node>, i: nat)
    requires i < |hosts| && forall j | i < j < |hosts| :: hosts[j].name != hosts[i].name
    ensures hosts[i].name in LastAttrs(hosts) && LastAttrs(hosts)[hosts[i].name] == hosts[i].attrs
    decreases |hosts|
  {
    var front := hosts[..|hosts| - 1];
    if i < |front| {
      assert front[i] == hosts[i];
      LastHostIsListed(front, i);
    }
  }

  /** Of hosts with the same name the first one answers a query, and an unknown name gets no variables. */
  lemma {:induction false} FirstHostIsQueried(hosts: seq<Node>, i: nat, target: string)
    requires forall j | 0 <= j < i && j < |hosts| :: hosts[j].name != target
    ensures i < |hosts| && hosts[i].name == target ==> QueryHost(hosts, target) == hosts[i].attrs
    ensures i >= |hosts| ==> QueryHost(hosts, target) == map[]
    decreases |hosts|
  {
    if hosts != [] && i > 0 {
      assert forall j | 0 <= j < i - 1 && j < |hosts[1..]| :: hosts[1..][j] == hosts[j + 1];
      FirstHostIsQueried(hosts[1..], i - 1, target);
    }
  }

  /** With unique names, the variables listed for a host are the ones a query for it returns. */
  lemma {:induction false} HostVarsAgree(hosts: seq<Node>, target: string)
    requires forall i, j | 0 <= i < j < |hosts| :: hosts[i].name != hosts[j].name
    ensures target in LastAttrs(hosts) <==> exists h :: h in hosts && h.name == target
    ensures QueryHost(hosts, target) == if target in LastAttrs(hosts) then LastAttrs(hosts)[target] else map[]
    decreases |hosts|
  {
    if hosts != [] {
      var front, last := hosts[..|hosts| - 1], hosts[|hosts| - 1];
      assert hosts == front + [last];
      HostVarsAgree(front, target);
      QueryHostConcat(front, last, target);
      assert last.name == target ==> forall h | h in front :: h.name != target;
    }
  }

  lemma {:induction false} QueryHostConcat(front: seq<Node>, last: Node, target: string)
    ensures QueryHost(front + [last], target) ==
            if exists h :: h in front && h.name == target then QueryHost(front, target)
            else if last.name == target then last.attrs else map[]
  {
    if front == [] {
      assert front + [last] == [last] && [last][1..] == [];
    } else {
      QueryHostConcat(front[1..], last, target);
      assert (front + [last])[1..] == front[1..] + [last];
      assert front == [front[0]] + front[1..];
    }
  }
}
