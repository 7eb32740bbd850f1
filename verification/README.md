# Verification of the inventory tools

Three programs of the repository keep state that later steps rely on. This project models them in Dafny and proves what
holds over all inputs and over all sequences of runs.

**The inventory builder** (`contrib/inventory_builder/inventory.py`). A run loads the saved inventory or starts empty,
expands address ranges, processes a batch of additions and deletions, purges hosts that are gone, and assigns etcd,
control plane, worker and route reflector roles by two scale thresholds. The file it writes is what the next run loads.
- `Strings`, `DottedQuad`: numerals, splits, and the IPv4 dotted quad (section 3.2.2 of RFC 3986).
- `Ordered`, `Hosts`: insertion-ordered name sets and host dictionaries.
- `Batch`: one batch as a function; `HostIds`, `BatchInvariants`, `BatchTheorems`, `RangeTheorems`: its properties.
- `Roles`: the saved inventory, the assignment of roles and one whole run as functions; `RoleTheorems`: one assignment.
- `Histories`, `RoleHistories`, `RunTheorems`: invariants over every sequence of runs, and laws of whole runs.
- `GroupPrefixes`: when a group of first hosts stays one, on lists of names.
- `RouteReflectors`: exactly when route reflectors are also control plane hosts or workers.
- `Readditions`: runs that break the roles by declaring a deleted host again.
- `RunConditions`: when a run loads, writes and fails, and what it forgets; `Arguments`: what single arguments mean.
- `KubesprayInventoryBuilder`: the object with its fields and loops, each method proved against those functions.

**The Terraform reader** (`contrib/terraform/terraform.py`). Nested attributes are flattened into dotted keys and read
back; hosts with groups are inverted into groups with hosts.
- `Terraform`: flattening and its readers, as functions and as the loops; `FlatMaps`: laws of flat dictionaries.
- `TerraformTheorems`, `TerraformReaders`: what flattening keeps and what each reader recovers.
- `TerraformSizes`: the stored sizes, and what can be flattened; `TerraformFlat`: the readers on any flat state.
- `TerraformGroups`: `query_list` and `query_host`.

**The shell test runner** (`tests/shebang-unit`). Counters and a flag live in a file database; the JUnit report is
appended to and rewritten.
- `XmlText`: escaping; `ShebangRunner`: the run as functions and as the object that performs it;
  `ShebangTheorems`: accounting, balance and accuracy of the report; `ShebangReport`: a reader of the report.

## How the model reads the sources

- Exceptions and `sys.exit` are failure results; a failed run leaves the saved file as it was.
- A host's options are a map, so a loaded host may lack an `ip`; scanning past it raises, as in the program.
- A bare host name argument reads the locals `hostname`, `ip` and `access_ip` as an earlier argument left them, or raises
  when there are none; `Batch` carries them from one argument to the next.
- Settings may differ from one run of a history to the next.
- Each string in a Terraform tree carries the number `randint` draws for it when it is flattened as a list element, so a
  statement about all trees is a statement about all outcomes of the draws.
- A shell test and its setup and teardown are given by how they end: returning a status, or exiting their shell.

## Where the code does less than it seems to promise

- The guards of `set_calico_rr` (inventory.py:356, :361) look a host up in the group's dictionary, whose only key is
  `hosts`, and not in its host list. `CalicoConflicts` and `CalicoWorkerConflicts` say exactly when a route reflector is
  also a control plane host and when it is also a worker. A cluster that grows to scale from below gets both
  (`GrowingToScale`, `CalicoConflictExample`); `DeletionConflictExample` is a cluster that was at scale all the time.
- Host ids are read from the first label of a name. With a dotted `HOST_PREFIX` they cannot be read back
  (`DottedPrefixId`), and with one that ends in a positive number they are read too high (`GeneratedId`,
  `CounterRecomputed`).
- A declared name may take a name that is generated later in the batch, and then loses its record: a new inventory from
  `node1,10.0.0.1` and `10.0.0.2` holds only the second address (`DeclaredHostIsLostExample`). An address overwrites no
  record if and only if its ip is already there or the next generated name is free (`AddressOverwritesIff`).
- Whether a declared host is already there is asked of the whole argument and not of its name (inventory.py:258), so a
  declaration with a new ip replaces the record of a known name (`NamedOverwritesIff`, `DeclaredAgainIsReplaced`).
- A host that one batch deletes and declares again is listed last by the batch, but keeps its place in `all.hosts` and in
  the groups. `HostsInOrderIff` says exactly when the two orders agree. `EtcdSizeIff` and `EtcdPrefixIff` say exactly
  when etcd keeps its three members and stays the first hosts, and `SmallClusterIff` when the control plane does;
  `HistoryEtcdIff` and `HistorySmallIff` say it of whole histories. Both ways to fail happen: four etcd members
  (`ReaddingExample`), and three that are not the first three (`GapExample`). `ControlExample` is a control plane of
  K + 1 hosts.
- `parse_dict` drops an inner name "#" and confuses an inner name "%" with the size, unless it holds just that
  (`DictRoundTrip`).
- A host in both the groups "" and "all" is listed twice (`MembersAreCarriers`).
- A test file that exits while it is sourced loses its tests or has them skipped by the flag of an earlier file
  (`EveryTestIsCounted`, `LostTestsGoUnnoticed`).

## Model

| member | source | states |
|---|---|---|
| HostIds.GeneratedId | contrib/inventory_builder/inventory.py:174-180 | reading the id back from a generated name of a dot-free prefix never fails and never gives less than the number it was generated from; it gives exactly that number if and only if the prefix does not itself end in a positive number |
| HostIds.DomainKeepsId | contrib/inventory_builder/inventory.py:174-180 | appending a dot and any domain to any host name, dotted or not, does not change its id |
| HostIds.DottedPrefixId | contrib/inventory_builder/inventory.py:174-180 | with a dotted prefix every generated name has the id of the prefix, or none: the counter cannot be read back |
| HostIds.LoadedNamesAreBelow | contrib/inventory_builder/inventory.py:186-207 | with a dot-free prefix, no loaded name equals a name generated above the highest loaded id |
| Strings.ParseDecimal | contrib/inventory_builder/inventory.py:178-178 | `int` undoes the decimal printing of a host number |
| Strings.TrailingDigitsConcat | contrib/inventory_builder/inventory.py:178-178 | the digits found at the end of a name are those appended to it, preceded by the ones the rest already ended in |
| DottedQuad.QuadRoundTrip | contrib/inventory_builder/inventory.py:276-282 | a printed IPv4 address parses back to its number (section 3.2.2 of RFC 3986) |
| DottedQuad.ParseIsCanonical | contrib/inventory_builder/inventory.py:276-277 | only the printed form of an IPv4 address parses: leading zeros raise, as does anything else that is not IPv6 |
| DottedQuad.QuadInjective | contrib/inventory_builder/inventory.py:282-282 | different numbers have different dotted quads |
| DottedQuad.QuadIs | contrib/inventory_builder/inventory.py:276-282 | the four numbers of an address are its base 256 digits, the highest first |
| RangeTheorems.RangeExpands | contrib/inventory_builder/inventory.py:270-293 | `a-b` expands to the dotted quads from a to b in order, and to nothing when b is below a |
| RangeTheorems.FreshRange | contrib/inventory_builder/inventory.py:184-293 | a batch that is the range a-b creates from nothing exactly b-a+1 hosts, host i being the prefix followed by i+1 with ip, access_ip and ansible_host all the quad of a+i, if and only if no address of the range is a name generated before it |
| RangeTheorems.FreshAddressesIff | contrib/inventory_builder/inventory.py:223-249 | a batch of different addresses creates from nothing one host for each, named and listed in order, if and only if no address is the name that an earlier one generates |
| RangeTheorems.RangeNamesFree | contrib/inventory_builder/inventory.py:223-243 | with a prefix without a dot, or with a character that no address has, no address of a range is a generated name |
| RangeTheorems.HostNameIsNoQuad | contrib/inventory_builder/inventory.py:243-243 | with a prefix without a dot, or with a character that no address has, no generated name reads as an address |
| Histories.ExpandMembers | contrib/inventory_builder/inventory.py:284-293 | expansion adds only address arguments: deletions and names are passed on as they are |
| Hosts.ExistsIpCorrect | contrib/inventory_builder/inventory.py:298-302 | when every host has an ip the scan does not raise and answers whether some host has the ip |
| Hosts.FoundIsDeleted | contrib/inventory_builder/inventory.py:304-309 | after the scan found an ip, deleting by that ip does not reach its error and removes one host that has it |
| Hosts.PutAllOverPrefix | contrib/inventory_builder/inventory.py:345-347 | copying the built hosts into a dictionary that lists the first of their names gives exactly the built hosts, in order |
| Hosts.PutAllRecords | contrib/inventory_builder/inventory.py:345-347 | copying hosts in leaves each copied record and the old records of the other names, and nothing else |
| BatchInvariants.StepChange | contrib/inventory_builder/inventory.py:211-266 | every completed argument either changes no host, removes one host, or writes one record whose ip no host had, under the next generated name or the declared one |
| BatchInvariants.BuildKeepsDistinct | contrib/inventory_builder/inventory.py:184-267 | every completed batch keeps host names distinct, and ips distinct when the loaded ones were, including when it overwrites a record or reads a stale local |
| BatchInvariants.DeletedIpIsGone | contrib/inventory_builder/inventory.py:213-220 | `-ip`, when it is not a host name, never raises and removes exactly the hosts with that ip |
| BatchInvariants.BuildKeepsOrder | contrib/inventory_builder/inventory.py:184-267 | a batch that brings back no loaded name it deleted lists the surviving loaded hosts first, in their old order, and then only names that were not loaded |
| BatchInvariants.AddsNeverReadd | contrib/inventory_builder/inventory.py:221-266 | a batch without deletions brings nothing back, whatever it declares and with any prefix |
| BatchInvariants.PresentNeverReadds | contrib/inventory_builder/inventory.py:251-266 | when no loaded name can be generated, a batch brings a deleted name back only by processing a declaration of it while it is absent; deleting one host and declaring another loaded one does not |
| BatchInvariants.BuildUnprotected | contrib/inventory_builder/inventory.py:47-49 | generated names are never protected names, so a batch that declares none leaves none |
| BatchTheorems.AddressNeverOverwrites | contrib/inventory_builder/inventory.py:243-249 | with a dot-free prefix and no declared name equal to one generated later, at any point of any batch an address changes no host or appends one under a new name |
| BatchTheorems.AddressOverwritesIff | contrib/inventory_builder/inventory.py:223-249 | at any point of a batch, an address leaves every record or appends one under a new name if and only if it is already in the inventory or the next generated name is free; otherwise exactly the record of that name is lost and the size stays |
| BatchTheorems.DeclaredHostIsLost | contrib/inventory_builder/inventory.py:243-266 | for every prefix a declaration can spell, a new inventory that declares the first generated name and then adds an address keeps only the address |
| BatchTheorems.DeclaredHostIsLostExample | contrib/inventory_builder/inventory.py:243-266 | `node1,10.0.0.1` followed by `10.0.0.2` leaves one host, node1 with the second address |
| BatchTheorems.NamedOverwritesIff | contrib/inventory_builder/inventory.py:251-266 | a named argument loses a record if and only if the whole argument is no host name, nobody has the ip, and the name it writes under is taken; every record of another name stays |
| BatchTheorems.DeclaredAgainIsReplaced | contrib/inventory_builder/inventory.py:251-266 | declaring a known host with another ip replaces its record instead of being skipped |
| BatchTheorems.BatchConserves | contrib/inventory_builder/inventory.py:184-267 | for every batch, named hosts included, in which no declared name is generated later: the size is the initial one plus the generated and the newly declared hosts minus the deletions that found a host; records not declared again survive unchanged, and new ones carry names generated or declared in this batch |
| BatchTheorems.CounterRecomputed | contrib/inventory_builder/inventory.py:186-207 | after adds, the counter a reload recomputes from the names is the one the loop carried if and only if nothing was generated or the prefix does not end in a positive number |
| BatchTheorems.BatchEqualsIncremental | contrib/inventory_builder/inventory.py:184-267 | processing xs, reloading the result and processing ys gives the hosts in order, or the error, of processing xs followed by ys |
| BatchTheorems.LocalsAreUnread | contrib/inventory_builder/inventory.py:251-266 | in a batch without bare host names the leftover locals of earlier arguments have no influence |
| BatchTheorems.RerunIsFixed | contrib/inventory_builder/inventory.py:229-234 | processing the same addresses again on their own result changes no host |
| BatchTheorems.AddressRecords | contrib/inventory_builder/inventory.py:224-249 | `ip,access` records ip and access in the three options as stated, and a plain address records itself in all three |
| BatchTheorems.NamedRecords | contrib/inventory_builder/inventory.py:251-266 | `name,ip,access` writes the three options under the declared name and leaves the id counter alone |
| BatchTheorems.BuildCompletes | contrib/inventory_builder/inventory.py:211-266 | on hosts with ips, a batch without bare host names completes if and only if every argument is non-empty, addresses have at most one comma and names have one or two |
| Arguments.LetterDeclares | contrib/inventory_builder/inventory.py:251-266 | `name,ip` with a small or capital first letter appends one host of that name, ip in all three options, and leaves the counter alone |
| Arguments.DigitGenerates | contrib/inventory_builder/inventory.py:222-249 | an argument that begins with a digit appends one host under prefix and counter, and moves the counter |
| Arguments.OthersAreIgnored | contrib/inventory_builder/inventory.py:211-266 | an argument that begins with neither dash, digit nor letter changes nothing and does not raise |
| Arguments.FirstMalformedRaises | contrib/inventory_builder/inventory.py:211-266 | on hosts with ips, a batch without bare names raises at its first malformed argument: IndexError for an empty one, ValueError for too many commas |
| Arguments.ScanIs | contrib/inventory_builder/inventory.py:298-309 | both scans stop at the first host with the ip; a host without an ip before it raises, and deleting an ip that nobody has raises |
| Arguments.AddressLeaves | contrib/inventory_builder/inventory.py:224-228 | an address leaves its ip and access ip to later bare names, also when it is skipped, and no host name |
| Arguments.DeclarationLeaves | contrib/inventory_builder/inventory.py:252-257 | a declaration leaves its name, ip and access ip to later bare names, also when it is skipped |
| Arguments.OthersLeave | contrib/inventory_builder/inventory.py:213-257 | deletions and bare names leave the ip, access ip and host name that later bare names read as they were |
| Arguments.BareNameRaises | contrib/inventory_builder/inventory.py:251-266 | a bare name at the beginning of a batch reads an ip that nothing has set, and raises |
| Arguments.BareNameIsSkipped | contrib/inventory_builder/inventory.py:258-263 | a bare name after a declaration is skipped, because the ip it reads was just declared |
| Arguments.BareNameAfterAddress | contrib/inventory_builder/inventory.py:258-263 | a bare name after an address is skipped, because the ip it reads is there |
| Arguments.BareNameRestores | contrib/inventory_builder/inventory.py:213-266 | declaring a host, deleting it and giving any bare name brings the deleted host back under its old name |
| Arguments.RangeIff | contrib/inventory_builder/inventory.py:284-291 | an argument with a dash, that begins with neither dash nor letter, expands if and only if it is two IPv4 addresses with one dash between them and white space around; otherwise it raises |
| Arguments.PaddedRange | contrib/inventory_builder/inventory.py:286-286 | white space around a range does not matter |
| RoleTheorems.AssignedHolds | contrib/inventory_builder/inventory.py:122-135 | after the role assignment every group is what the purge left of it followed by its new candidates, and `all.hosts` is the purged hosts overwritten by the built ones |
| RoleTheorems.AssignedHosts | contrib/inventory_builder/inventory.py:311-347 | `all.hosts` holds exactly the built records, and otherwise only old hosts under protected names |
| RoleTheorems.AssignedMembers | contrib/inventory_builder/inventory.py:311-339 | every member of every group, custom ones included, is a built host or a protected name |
| RoleTheorems.AssignedCovers | contrib/inventory_builder/inventory.py:367-385 | every host is in kube_node, etcd or kube_control_plane, whatever the thresholds |
| RoleTheorems.AssignIdempotent | contrib/inventory_builder/inventory.py:122-135 | assigning the same hosts again changes nothing, on either side of both thresholds |
| Histories.RunIsConsistent | contrib/inventory_builder/inventory.py:82-140 | a run that writes from a consistent file or from none writes exactly the built records, with distinct names and ips, groups that list only hosts, and a role for every host |
| Histories.HistoryIsConsistent | contrib/inventory_builder/inventory.py:82-140 | every sequence of runs, with any arguments and changing settings, that declares no host under a role name leaves a consistent file |
| RunConditions.SavedIsUnread | contrib/inventory_builder/inventory.py:82-111 | what a run writes, or why it fails, does not depend on the saved file unless its first argument is "add" or begins with a dash |
| RunConditions.RunWritesIff | contrib/inventory_builder/inventory.py:82-140 | exactly when a run writes: it does not only inform, its first change is there and not empty, the file is there if the first argument is "add" or begins with a dash, the ranges expand, and the batch completes on the hosts of that file or else on none |
| RunConditions.RunFails | contrib/inventory_builder/inventory.py:82-140 | a run that informs, has no changes or misses the file it needs exits, and an empty first change raises IndexError |
| RunConditions.RunRaises | contrib/inventory_builder/inventory.py:119-122 | any other failing run raises what the first failing step raises: the expansion of its ranges, or its batch on the loaded hosts |
| RunConditions.IdIff | contrib/inventory_builder/inventory.py:174-180 | an id can be read from a name if and only if a digit comes right before its first dot, or at its end when it has no dot |
| RunConditions.UnreadableIdExits | contrib/inventory_builder/inventory.py:188-204 | a run that loads a host with the prefix and without a readable id exits, whatever its changes are |
| RunConditions.LastRunDecides | contrib/inventory_builder/inventory.py:82-140 | a history ends with what its last run wrote, or with what was there before when that run failed |
| RunConditions.HostSpared | contrib/inventory_builder/inventory.py:320-326 | an old host that is not built again stays in `all.hosts` if and only if it is named all, kube_control_plane, kube_node, etcd, k8s_cluster or calico_rr |
| RunConditions.MemberSpared | contrib/inventory_builder/inventory.py:311-318 | an old member of any group that is not built again stays in it if and only if it has one of those six names |
| RunConditions.DeletedIsNotBuilt | contrib/inventory_builder/inventory.py:211-267 | in a batch of any length, a host deleted by name and not declared or generated afterwards is not built |
| RunConditions.DeletedIsForgotten | contrib/inventory_builder/inventory.py:82-140 | after a run with such a batch the deleted host is in neither `all.hosts` nor any group, unless it has one of the six names |
| RunConditions.DeletingRunForgets | contrib/inventory_builder/inventory.py:82-140 | the run `-x` leaves a host x without one of the six names in neither `all.hosts` nor any group |
| RoleHistories.AssignKeepsEtcdPrefix | contrib/inventory_builder/inventory.py:122-126 | a run that lists the surviving loaded hosts first keeps the etcd group a prefix of the hosts of the stated size |
| RoleHistories.EtcdSizeIff | contrib/inventory_builder/inventory.py:122-126 | from any sound file whose etcd members are distinct, a run with three hosts or more leaves three etcd members if and only if every surviving one is among the first three hosts built |
| RoleHistories.EtcdPrefixIff | contrib/inventory_builder/inventory.py:122-126 | from a sound file with a right etcd group, a run that deletes, adds and declares anything leaves etcd a prefix of `all.hosts` of the stated size if and only if (with three hosts or more) every surviving member is among the first three built and survivors and new members follow the order of `all.hosts` |
| RoleHistories.HistoryEtcdIff | contrib/inventory_builder/inventory.py:82-140 | over every sequence of runs that declares no role name, etcd is right after every run if and only if each run meets that condition |
| RoleHistories.HistoryKeepsEtcdPrefix | contrib/inventory_builder/inventory.py:82-140 | over every sequence of runs that meet that condition the etcd group is a prefix of `all.hosts`: three of three or more hosts, one of one, none of none, one or two of two |
| RoleHistories.OrderlyKeepsEtcd | contrib/inventory_builder/inventory.py:82-140 | runs whose batches keep the surviving loaded hosts first meet the condition |
| RoleHistories.AddressesAndDeletionsAreOrderly | contrib/inventory_builder/inventory.py:213-249 | every history of runs that only inform and runs of addresses, ranges and deletions with dot-free prefixes is orderly: each batch keeps the surviving loaded hosts first |
| RoleHistories.NeverReaddingIsOrderly | contrib/inventory_builder/inventory.py:210-266 | a run whose batch brings back no host it deleted is orderly |
| RoleHistories.AddsAreOrderly | contrib/inventory_builder/inventory.py:210-266 | a run without deletions is orderly, whatever hosts it declares |
| RoleHistories.HostsInOrderIff | contrib/inventory_builder/inventory.py:311-347 | after a run `all.hosts` lists the built hosts in the order they were built if and only if that order has the surviving loaded hosts first |
| RoleHistories.AddressHistoryKeepsEtcdPrefix | contrib/inventory_builder/inventory.py:82-140 | starting from nothing, every sequence of runs that only inform and runs of addresses, ranges and deletions leaves etcd a prefix of the hosts of the stated size |
| RoleHistories.AddressHistoryKeepsSmall | contrib/inventory_builder/inventory.py:127-135 | starting from nothing, every such sequence that stays below the thresholds leaves exactly the roles of a new cluster |
| RoleHistories.AssignKeepsSmall | contrib/inventory_builder/inventory.py:127-135 | below both thresholds a run that lists the surviving loaded hosts first keeps the roles exactly those of a new cluster |
| RoleHistories.SmallClusterIff | contrib/inventory_builder/inventory.py:127-135 | below both thresholds, from the roles of a new cluster, workers and route reflectors stay right after any run, and the control plane is the first K hosts if and only if every survivor of it is among the first K built and survivors and new members follow the order of `all.hosts` |
| RoleHistories.HistorySmallIff | contrib/inventory_builder/inventory.py:127-135 | over every sequence of runs below the thresholds that declares no role name, the roles are those of a new cluster after every run if and only if each run meets that condition |
| RoleHistories.HistoryKeepsSmall | contrib/inventory_builder/inventory.py:127-135 | over every sequence of such runs that meet the condition the control plane is exactly the first K hosts, every host is a worker and there is no route reflector |
| RoleHistories.OrderlyKeepsControl | contrib/inventory_builder/inventory.py:82-140 | runs whose batches keep the surviving loaded hosts first meet the condition |
| RunTheorems.FreshRun | contrib/inventory_builder/inventory.py:99-123 | a run that does not load writes exactly the hosts it built, in order |
| RunTheorems.FreshRoles | contrib/inventory_builder/inventory.py:125-135 | a run that does not load gives every group exactly its candidates; at both thresholds etcd, control plane and workers concatenate to the hosts, between them etcd and workers do |
| RunTheorems.MassivePartition | contrib/inventory_builder/inventory.py:125-135 | at both thresholds the three groups partition the hosts in order, with sizes 3 (or all of fewer than 3, at most 1), min(K, rest) and the rest, and the etcd hosts reflect routes if and only if none is named "hosts" |
| RunTheorems.MassiveAddresses | contrib/inventory_builder/inventory.py:82-140 | end to end for every new cluster of addresses, ranges and deletions of at least both thresholds: the partition, its sizes, and calico_rr equal to etcd |
| RunTheorems.FreshReflectors | contrib/inventory_builder/inventory.py:134-135 | every new cluster of addresses at scale has its etcd hosts, and no others, as route reflectors |
| RunTheorems.LargeRoles | contrib/inventory_builder/inventory.py:127-135 | between the thresholds workers are the hosts without etcd, and the control plane is disjoint from etcd and begins the workers |
| RunTheorems.RangeRun | contrib/inventory_builder/inventory.py:82-140 | a run over the range a-b, no address of which is a name generated before it, succeeds whatever file exists and writes its b-a+1 hosts in order |
| RunTheorems.RangeCluster | contrib/inventory_builder/inventory.py:82-140 | a range of at least both thresholds is partitioned into the three roles and its etcd hosts reflect routes |
| RunTheorems.RerunIsIdentity | contrib/inventory_builder/inventory.py:82-140 | adding the same addresses to the file they produced writes the same file: hosts, order and every group |
| RunTheorems.GrowingInSteps | contrib/inventory_builder/inventory.py:82-140 | below the thresholds the file is the same whether addresses are added in one run or in two |
| RouteReflectors.CalicoConflicts | contrib/inventory_builder/inventory.py:354-360 | from any file and on either side of the thresholds, reflectors stay out of the control plane if and only if at scale no etcd host (other than one named "hosts") was in the control plane group, and no surviving reflector was in it or is now chosen for it |
| RouteReflectors.CalicoWorkerConflicts | contrib/inventory_builder/inventory.py:354-365 | from any sound file and on either side of the thresholds, reflectors and workers stay apart if and only if at scale no etcd host (other than one named "hosts") was a worker, and every surviving reflector was none and the scale rules leave it out of the new workers |
| RouteReflectors.GrowingToScale | contrib/inventory_builder/inventory.py:354-381 | when a cluster whose hosts are all workers grows to scale, each etcd host it had and keeps becomes a route reflector and remains a worker |
| RouteReflectors.CalicoConflictExample | contrib/inventory_builder/inventory.py:82-140 | with a scale of two, running one address and then adding another makes the first host a control plane host and a route reflector, and a worker too unless massive scale begins at one |
| RouteReflectors.DeletionConflictExample | contrib/inventory_builder/inventory.py:82-140 | with a scale of at most four, running five addresses and then deleting the first host makes the fourth a control plane host and a route reflector |
| Readditions.ReaddingGrowsEtcd | contrib/inventory_builder/inventory.py:210-266 | deleting the first of four or more hosts and declaring it again in one run leaves the hosts in place and the first four of them in etcd |
| Readditions.ReaddingExample | contrib/inventory_builder/inventory.py:82-140 | two runs from nothing that end with four etcd members |
| Readditions.ReaddingLeavesGap | contrib/inventory_builder/inventory.py:210-266 | with five hosts or more, deleting the first, and deleting the fourth and declaring it again, in one run leaves etcd the second, third and fifth host |
| Readditions.GapExample | contrib/inventory_builder/inventory.py:82-140 | two runs from nothing that end with three etcd members which are not the first three hosts |
| Readditions.ReaddingGrowsControl | contrib/inventory_builder/inventory.py:210-266 | below scale, deleting the first of more than K hosts and declaring it again in one run leaves the first K+1 in the control plane |
| Readditions.ControlExample | contrib/inventory_builder/inventory.py:82-140 | two runs from nothing that end with K+1 control plane hosts |
| KubesprayInventoryBuilder.ScanForIp | contrib/inventory_builder/inventory.py:298-302 | the loop answers or raises as the scan is specified |
| KubesprayInventoryBuilder.DeleteHostByIp | contrib/inventory_builder/inventory.py:304-309 | the loop removes the first host with the ip, or raises |
| KubesprayInventoryBuilder.RangeToIps | contrib/inventory_builder/inventory.py:270-293 | the loop produces the specified expansion, or its error |
| KubesprayInventoryBuilder.KubesprayInventory.EnsureRequiredGroups | contrib/inventory_builder/inventory.py:161-172 | adds the missing groups, empty, and leaves the others |
| KubesprayInventoryBuilder.KubesprayInventory.LoadExisting | contrib/inventory_builder/inventory.py:188-204 | copies the loaded hosts and finds the highest id of the names with the prefix; an unreadable id exits |
| KubesprayInventoryBuilder.KubesprayInventory.ProcessHost | contrib/inventory_builder/inventory.py:211-266 | one turn of the loop is the specified step, with its skips, errors and stale locals |
| KubesprayInventoryBuilder.KubesprayInventory.BuildHostNames | contrib/inventory_builder/inventory.py:184-267 | the whole loop is the specified batch; `hosts` itself is not changed |
| KubesprayInventoryBuilder.KubesprayInventory.PurgeInvalidHosts | contrib/inventory_builder/inventory.py:311-326 | removes from every group and from `all.hosts` what is neither a given host nor protected, and nothing else |
| KubesprayInventoryBuilder.KubesprayInventory.AddHostToGroup | contrib/inventory_builder/inventory.py:328-339 | adds the host at the end of the group unless it is there; other groups and the hosts are unchanged |
| KubesprayInventoryBuilder.KubesprayInventory.SetMembers | contrib/inventory_builder/inventory.py:341-343 | adds the hosts one by one to the group |
| KubesprayInventoryBuilder.KubesprayInventory.SetAllHosts | contrib/inventory_builder/inventory.py:345-347 | copies the hosts into `all.hosts` one by one |
| KubesprayInventoryBuilder.KubesprayInventory.SetKubeNodes | contrib/inventory_builder/inventory.py:367-381 | adds the hosts that the scale rules do not exclude |
| KubesprayInventoryBuilder.KubesprayInventory.SetRouteReflectors | contrib/inventory_builder/inventory.py:354-365 | adds every host except one whose name is a key of a group's dictionary |
| KubesprayInventoryBuilder.KubesprayInventory.AssignRoles | contrib/inventory_builder/inventory.py:122-135 | the field updates together are the specified assignment |
| KubesprayInventoryBuilder.KubesprayInventory.ChangeHosts | contrib/inventory_builder/inventory.py:119-135 | expanding, building and assigning give the specified inventory, or the error of the step that raised |
| KubesprayInventoryBuilder.KubesprayInventory.constructor | contrib/inventory_builder/inventory.py:82-140 | one run stores the specified inventory, or fails as specified and stores none |
| TerraformTheorems.ConvertPrefix | contrib/terraform/terraform.py:41-60 | flattening under a longer prefix is flattening under the shorter one with the rest before every key, for every tree |
| TerraformTheorems.ConvertDistinct | contrib/terraform/terraform.py:41-60 | no key occurs twice in a flattened resource |
| TerraformTheorems.ConvertTop | contrib/terraform/terraform.py:48-59 | with distinct dot-free names at the top, a resource flattens attribute by attribute, none overwriting another, whatever is nested inside |
| TerraformTheorems.ParseBlocks | contrib/terraform/terraform.py:154-164 | reading a prefix finds the entries of the attribute of that name and of no other |
| TerraformReaders.AttrListRoundTrip | contrib/terraform/terraform.py:167-173 | `parse_attr_list` after flattening returns, in order, the flattening of every list element that flattens to something, at any depth and for any drawn suffixes |
| TerraformReaders.ListRoundTrip | contrib/terraform/terraform.py:180-181 | `parse_list` after flattening returns a list of strings in its order, for any drawn suffixes |
| TerraformReaders.ParseDictIs | contrib/terraform/terraform.py:176-177 | what `parse_dict` returns for a flattened dictionary attribute, for any inner names |
| TerraformReaders.DictRoundTrip | contrib/terraform/terraform.py:176-177 | `parse_dict` after flattening returns the dictionary attribute and its size, and nothing else, if and only if no inner name is "#" and an inner name "%" holds just the size; without an inner "%" in the order size, entries |
| TerraformReaders.NothingLost | contrib/terraform/terraform.py:41-60 | a plain tree yields one entry per scalar, string element, dictionary entry, dictionary and non-empty list: no two keys collide |
| TerraformSizes.ConvertSucceedsIff | contrib/terraform/terraform.py:41-60 | flattening succeeds if and only if every element of every list it flattens is a text or a dictionary of this kind; otherwise it raises AttributeError |
| TerraformSizes.ListSize | contrib/terraform/terraform.py:49-51 | under any prefix, a list attribute has an entry `name.#` if and only if it is not empty, and that holds its length as a number |
| TerraformSizes.DictSize | contrib/terraform/terraform.py:54-55 | under any prefix, a dictionary attribute without an inner "%" has an entry `name.%`, and that holds its size as a number |
| TerraformSizes.SizeReadBack | contrib/terraform/terraform.py:176-177 | the "%" that `parse_dict` reads back holds the size as a number, when no inner name is "%" |
| TerraformFlat.PrefixIs | contrib/terraform/terraform.py:154-164 | for any flat state and separator, reading a prefix gives in order exactly the entries under prefix and separator, without the size |
| TerraformFlat.SeparatedPrefixReadsNothing | contrib/terraform/terraform.py:154-162 | a prefix that contains the separator is never found |
| TerraformFlat.DictReads | contrib/terraform/terraform.py:176-177 | for any flat state and separator, `parse_dict` maps a name to the value stored under prefix, separator and name, and has nothing else |
| TerraformFlat.ListReads | contrib/terraform/terraform.py:180-181 | for any flat state and separator, `parse_list` gives the values under the prefix in order, without the size |
| TerraformFlat.AttrListRaisesIff | contrib/terraform/terraform.py:167-171 | for any flat state and separator, `parse_attr_list` raises if and only if a key under the prefix, other than the size, has no second separator |
| TerraformFlat.AttrListReads | contrib/terraform/terraform.py:167-173 | for any flat state and separator but "#", `parse_attr_list` returns one dictionary for each index, which maps a key to the value stored under prefix, index and key, and has nothing else |
| Terraform.ConvertToV3 | contrib/terraform/terraform.py:41-60 | the recursive loops fill the dictionary the specification describes, or raise as it does |
| Terraform.ConvertFieldToV3 | contrib/terraform/terraform.py:48-59 | one turn of the loop adds the entries of one attribute |
| Terraform.ParseAttributeList | contrib/terraform/terraform.py:167-173 | the loop gathers the entries by index, or raises on a key without a second separator |
| TerraformGroups.ListHost | contrib/terraform/terraform.py:388-394 | whatever order a host's groups are visited in, each group's list grows by that host, twice for a host in both "" and "all" |
| TerraformGroups.QueryList | contrib/terraform/terraform.py:383-399 | the groups are exactly those some host carries, except `_meta`; each lists its hosts in input order, hostvars hold the last attributes of each name, and the list lengths with the listings under `_meta` add up to the distinct groups of each host |
| TerraformGroups.MembersAreCarriers | contrib/terraform/terraform.py:383-399 | each group lists exactly the hosts that carry it, in order; "all" does so if and only if no host is in both "" and "all", and is longer by one for each host that is |
| TerraformGroups.ListingConserves | contrib/terraform/terraform.py:383-399 | over any set of names that has every carried group, the list lengths add up to the distinct groups of each host |
| TerraformGroups.AnswerConserves | contrib/terraform/terraform.py:383-399 | the lists of the answer of `query_list` add up to the distinct groups of each host, less one for each host that carries `_meta` |
| TerraformGroups.HostVarsAgree | contrib/terraform/terraform.py:375-399 | with unique names, the hostvars of a host are what `query_host` returns, and empty for an unknown host |
| TerraformGroups.LastHostIsListed | contrib/terraform/terraform.py:396-398 | of hosts with the same name the last one gives the hostvars |
| TerraformGroups.FirstHostIsQueried | contrib/terraform/terraform.py:375-380 | of hosts with the same name `query_host` returns the first one, and nothing for an unknown name |
| XmlText.PassesAreEscape | tests/shebang-unit:803-810 | the five passes together are one simultaneous escape |
| XmlText.EncodeText | tests/shebang-unit:803-810 | reassigning the variable five times computes the simultaneous escape |
| XmlText.EscapeIsSafe | tests/shebang-unit:803-810 | the result holds no raw <, >, double or single quote |
| XmlText.UnescapeEscape | tests/shebang-unit:803-810 | decoding the predefined entities (section 4.6 of XML 1.0) gives back every text |
| XmlText.AmpersandLastIsWrong | tests/shebang-unit:804-805 | running the ampersand pass after the < pass instead gives the same text if and only if there is no < |
| ShebangTheorems.CaseEnds | tests/shebang-unit:715-722 | rewriting the report at the end of a test sets the time of that test case and of no other |
| ShebangTheorems.TestCounts | tests/shebang-unit:391-428 | a test adds exactly one success or one failure; a success if and only if its setup exits with 0, or its setup does not exit and either its teardown exits with 0 or setup, body and teardown, as far as they are there, end with 0 |
| ShebangTheorems.GlobalSetupDecides | tests/shebang-unit:216-271 | a file that comes back from sourcing runs all its tests if it has no global setup or that returns 0, and skips them all if it returns anything else or exits with any status |
| ShebangTheorems.SuccessIff | tests/shebang-unit:210-213 | a run is successful if and only if every test that runs succeeds and every file whose tests are skipped has none; lost tests do not matter |
| ShebangTheorems.RunFileIs | tests/shebang-unit:216-245 | what a file adds to each counter and to the report, according to whether its tests ran, were all skipped or were lost |
| ShebangTheorems.EveryTestIsCounted | tests/shebang-unit:342-388 | successes, failures and skips add up to all tests if and only if every file that exits while being sourced has no tests or inherits a failed global setup; failures are the failing tests that ran, skips the tests of files whose setup failed |
| ShebangTheorems.SourcedFilesAreAccounted | tests/shebang-unit:216-245 | when every file comes back from sourcing, no test is lost |
| ShebangTheorems.ReportIsBalanced | tests/shebang-unit:663-732 | every run writes a report in which each tag is closed by its own closing tag |
| ShebangTheorems.ReportIsAccurate | tests/shebang-unit:669-713 | each suite holds as many test cases as its `tests` attribute says if and only if no file loses its tests |
| ShebangReport.ReportReadsBack | tests/shebang-unit:663-810 | reading the report back gives each suite with its renamed path, its announced number of tests, each test by name, time and verdict, and every output of a test or file decoded, each output element being there if and only if the output is not empty |
| ShebangReport.ReportIsSafe | tests/shebang-unit:684-810 | no text and no name in the report of any run holds a raw <, >, double or single quote |
| ShebangReport.SuiteNameDecodes | tests/shebang-unit:734-739 | the name of a suite decodes to the path with dots as underscores and slashes as dots, in one renaming |
| ShebangTheorems.LostTestsGoUnnoticed | tests/shebang-unit:210-227 | a run whose only file exits while being sourced counts nothing and is successful |
| ShebangRunner.Runner.FlushOutput | tests/shebang-unit:767-788 | writes the encoded output between its tags, and nothing when it is empty |
| ShebangRunner.Runner.WriteTime | tests/shebang-unit:715-722 | replaces every waiting time in the report |
| ShebangRunner.Runner.RunOne | tests/shebang-unit:391-428 | one test adds one success or one failure and its lines to the report |
| ShebangRunner.Runner.SkipOne | tests/shebang-unit:438-444 | a skipped test adds one skip and its lines to the report |
| ShebangRunner.Runner.CallAllTests | tests/shebang-unit:233-238 | runs the tests in order |
| ShebangRunner.Runner.SkipAllTests | tests/shebang-unit:240-245 | skips the tests in order |
| ShebangRunner.Runner.RunTestFile | tests/shebang-unit:216-227 | one file runs, skips or loses its tests by the flag of its own global setup or, if sourcing exits, of an earlier file |
| ShebangRunner.Runner.constructor | tests/shebang-unit:182-199 | a run goes through the files in order and closes the report |

## Left out

- Roles.Run: does not model the `load` command (inventory.py:387-413), which fills groups from JSON files; the run
  requires another command. `help` and the print commands appear only as runs that write nothing.
- Histories.HistoryIsConsistent: excludes explicit host names that are role names, because the purge spares them
  (inventory.py:316, :324); without that hypothesis `RoleTheorems.AssignedHosts` and `RoleTheorems.AssignedMembers` say
  what remains.
- KubesprayInventoryBuilder.KubesprayInventory.constructor: requires a command other than `load`, as `Roles.Run` does.
- KubesprayInventoryBuilder.KubesprayInventory.PurgeInvalidHosts: takes every child of `all` to have a host list; the
  source raises KeyError on a child without the key `hosts` (inventory.py:313).
- KubesprayInventoryBuilder.KubesprayInventory.SetRouteReflectors: takes `hosts` to be the only key of a group; a loaded
  group may also have the keys `vars` or `children`, which would likewise keep a host of that name out.
- `USE_REAL_HOSTNAME` (inventory.py:236-240): taken to be off; the name a remote host reports is outside the program.
- DottedQuad.ParseIsCanonical: says nothing of IPv6 literals, which `ip_address` also accepts (inventory.py:276-277);
  `DottedQuad.ParseQuad` fails on them, so ranges are IPv4 ranges.
- TerraformReaders.DictRoundTrip: compares attribute values as JSON texts; Python would also take 1.0 or true for a size
  of 1.
- Digits and letters are ASCII, and a trailing newline in a host name, which `$` would ignore, is not treated specially.
- A hand-edited file in which a host list is null, `KUBE_CONTROL_HOSTS` below 0 and an unset `CONFIG_FILE` are not modelled.
- The order of the groups in the written file, YAML and JSON text, debug output and the exit status of a run.
- Terraform: file walking, the provider parsers, floating addresses, `sanitize_groups` and the hosts file output.
- TerraformTheorems.ConvertTop: states the attribute-by-attribute form for the separator `.` only; the readers are also
  called with `_` on attributes that older state files store flat, and `TerraformFlat` states them for any separator.
- The order in which groups first appear in the answer of `query_list`: it follows the iteration of a set.
- Shell runner: finding test files and test functions, random order, the simple and dots reporters, colours, file
  descriptors and clocks; a test's output is given as the text read back from the database.
- ShebangRunner.Runner.WriteTime: a captured output or a test name that contains the time placeholder itself would be
  rewritten with it; the report of the model holds the placeholder only in test case tags.
