# Verification of the ocne command-line tool

`ocne` creates, updates and deletes Kubernetes clusters.  This project models the parts of it that keep
state, transform configurations or make decisions other parts rely on, and proves what they promise for every
input, every run and every interleaving.

| files | part of the program |
|---|---|
| `PidLock.dfy`, `Addresses.dfy`, `AddressFile.dfy`, `ClusterRuns.dfy` | several processes sharing one file of used ports and addresses under a pid-file lock |
| `IgnitionTypes.dfy`, `IgnitionCompare.dfy`, `IgnitionMerge.dfy`, `IgnitionSettle.dfy`, `IgnitionUpdate.dfy`, `IgnitionEffect.dfy`, `IgnitionCalls.dfy`, `IgnitionBuilder.dfy` | building, merging, comparing and updating Ignition configurations |
| `ClusterGraph.dfy` | the graph of Cluster API resources and the walk over its machine templates |
| `HelmValues.dfy`, `HelmValuesLaws.dfy`, `ConfigOverlay.dfy`, `ConfigPrecedence.dfy` | values laid over values: nested maps in place, and the configuration records |
| `Versions.dfy`, `VersionGrammar.dfy`, `Charts.dfy` | semantic versions and the sorting, filtering and lookup of charts |
| `Names.dfy` | libvirt domain names, the delete loop, counted resource names |
| `Waiters.dfy` | polling loops against functions that complete at any moment |
| `YamlDocs.dfy` | the splitting of a text into YAML documents, and the joining of manifests |
| `Text.dfy` | split, join and decimal numerals |

Shared state is a state machine whose steps are the atomic operations of the source (one file operation, one
look under a mutex); a run is any sequence of enabled steps of any processes.  Objects that the source updates
in place are classes whose methods are proved against functions on values, and what is promised is then
proved about those functions.  Logging, clocks and remote services are left out or appear as parameters:
`fails` says which callbacks fail, `parse` is a parser, `Server` is the API server as a finite map.

What the code turned out to do, where that differs from its comments or from what one would expect:

- A process that crashes while it holds the lock leaves it locked for good (`PidLock.CrashedHolderKeepsOthersOut`),
  and one that crashes between emptying and filling the file of addresses leaves it empty
  (`ClusterRuns.ChangesAreAtomic`).
- WaitFor does not look at the error of writing its pid.  If the write fails it returns with the lock all the same,
  and the Drop that answers it leaves the lock taken for good (`PidLock.FailedWriteIsNotDropped`).
- Addresses are chosen before the lock is taken.  A cluster recorded with an address in use ends the exact
  account of addresses (`Addresses.AddKeepsIPsExactIff`): two clusters given the same one are both recorded, and
  deleting the first frees the address of the second (`Addresses.SharedIPFreedTooEarly`).
- Updating an Ignition configuration a second time with the same update is not always without effect.  It is
  exactly when no list that is appended to grows, no header without a value flips, no path is named as two kinds
  of node, the dropins that are both removed and added stand after the other new ones, and the result of the first
  update can be read again (`IgnitionCalls.SecondCallFindsNothing`, `IgnitionCalls.MovingUpdatePatchesAgain`).
- The parser refuses a path that stands for two kinds of node, but the merge can bring one in, and
  `UpdateIgnition` patches it in without a check: the next call fails exactly then, or when something else is
  refused (`IgnitionCalls.SecondCall`).  An update that names a path as two kinds of node always comes to this, after
  one or two patches (`IgnitionCalls.TwoKindsEndInRefusal`).
- Comparing Ignition configurations ignores kernel arguments and LUKS volumes, so an update of nothing else is
  lost (`IgnitionUpdate.UncomparedUpdatesAreLost`), and a configuration whose units share a name need not be
  equal to itself (`IgnitionCompare.SharedNameBreaksReflexivity`).
- A path can be added to a configuration both as a file and as a directory (`IgnitionBuilder.FileAndDirectory`).
  Used as an update where the directory is not there, such a configuration is patched in once and then refused by
  every call (`IgnitionBuilder.BuiltUpdateIsRefused`).
- A chart whose version constraint cannot be read is dropped; the comment in the source says it is kept
  (`Charts.DeleteUnsupported`).  If no chart is left under a name, looking up its latest version panics
  (`Charts.FindChartAtVersion`).
- Numeric pre-release identifiers of 2^64 or more are compared as texts, against section 11 of Semantic
  Versioning 2.0.0 (`Versions.FollowsSpecExactly`, `Charts.AppsFollowSpecExactly`).
- Counting from the empty name gives "-1"; the comment in the source says it is unmodified (`Names.CountWraps`).
- Merging nested values is not associative where a map, something else and a map again meet at one path and
  the first map shows through (`HelmValuesLaws.Associative`, `HelmValuesLaws.GapBreaksAssociativity`).
- The graph of a cluster whose infrastructure and control plane references have the same kind and name is built
  without an error (`ClusterGraph.ReferredAlike`), and then the walk misses the control plane's template; it does
  so in no other case (`ClusterGraph.WalkCluster`).
- Applications after one that failed are installed all the same (`Waiters.SerialIsInOrder`).

## Model

| member | source | states |
|---|---|---|
| PidLock.StepKeepsInvariant | pkg/util/pidlock/pidfile.go:23-104 | every atomic step of WaitFor or Drop by any process, crashes and failing calls included, keeps the lock's invariant: a holder's own file is the one the entry links to |
| PidLock.MutualExclusion | pkg/util/pidlock/pidfile.go:23-61 | under the invariant two holders are the same process |
| PidLock.OthersLeaveHolderAlone | pkg/util/pidlock/pidfile.go:64-104 | whatever another process does, a Drop without the lock included, the holder still holds, its entry stays and its pid stays written |
| PidLock.OnlyMakerRemoves | pkg/util/pidlock/pidfile.go:64-104 | an entry goes only by a remove of the process that made it |
| PidLock.RunKeepsInvariant | pkg/util/pidlock/pidfile.go:23-104 | the invariant holds after every run |
| PidLock.RunsAreExclusive | pkg/util/pidlock/pidfile.go:23-104 | in every run from an absent file at most one process is between a successful WaitFor and its Drop |
| PidLock.CrashedHolderKeepsOthersOut | pkg/util/pidlock/pidfile.go:23-61 | after a holder's crash no process ever gets the lock, in any run: crashes cost progress, not safety |
| PidLock.WaitForAcquires | pkg/util/pidlock/pidfile.go:23-61 | from every state with a free lock, a WaitFor that meets no failure ends holding it, with its own pid in the file the entry links to |
| PidLock.DropReleases | pkg/util/pidlock/pidfile.go:64-104 | from every such state the Drop can be taken step by step and ends with no entry; whoever waits can then take the lock |
| PidLock.FailedWriteIsNotDropped | pkg/util/pidlock/pidfile.go:49-61 | if the pid is not written, WaitFor still returns with the lock, and the Drop that answers it leaves the entry |
| Addresses.AddKeepsPortsExact | pkg/cluster/driver/libvirt/net.go:293-321 | recording a cluster with a free port keeps a host's used ports equal to the ports of its recorded clusters, no two alike |
| Addresses.AddRecords | pkg/cluster/driver/libvirt/net.go:293-321 | recording puts in the cluster with its host, address and port, and the port and all but a loopback address in use on its host; nothing else changes |
| Addresses.RemoveForgets | pkg/cluster/driver/libvirt/net.go:323-345 | removal takes out exactly the cluster, and its port and address on its host |
| Addresses.RemoveKeepsPortsExact | pkg/cluster/driver/libvirt/net.go:323-345 | removing a recorded cluster frees its port on its host, no other port and no other host's, and keeps the used ports exact |
| Addresses.AddKeepsIPsExact | pkg/cluster/driver/libvirt/net.go:293-321 | the same for addresses other than loopback, if the address was free |
| Addresses.AddKeepsIPsExactIff | pkg/cluster/driver/libvirt/net.go:293-321 | recording a cluster keeps the used addresses exact exactly when its address is loopback or not in use |
| Addresses.RemoveKeepsIPsExact | pkg/cluster/driver/libvirt/net.go:323-345 | removal frees the cluster's address, no other, and keeps the used addresses exact |
| Addresses.SequentialRunsAreExact | pkg/cluster/driver/libvirt/net.go:172-345 | in every run of one process at a time (starts on any hosts and networks, failed starts, deletes), used ports and non-loopback addresses are exactly those of the recorded clusters |
| Addresses.SharedIPFreedTooEarly | pkg/cluster/driver/libvirt/libvirt.go:712-731 | two clusters recorded with one address: deleting either frees it while the other is still recorded with it |
| AddressFile.NetworkInformation.Load | pkg/cluster/driver/libvirt/net.go:76-102 | the maps in memory show exactly what is stored, and no two hosts share their data |
| AddressFile.NetworkInformation.GetHostData | pkg/cluster/driver/libvirt/net.go:55-74 | finds a host's data or makes it empty, changes nothing else, and hands out the object that is in the map |
| AddressFile.UsedAddresses.AllocatePort | pkg/cluster/driver/libvirt/net.go:264-291 | returns the least port of 6443 to 65534 that the host does not use and fails exactly when there is none; nothing is stored, and 16 bits do not overflow |
| AddressFile.UsedAddresses.AllocateIP | pkg/cluster/driver/libvirt/net.go:172-262 | returns the least unused address 200 or more above the gateway within its subnet, fails exactly when there is none, and terminates although addresses wrap around |
| AddressFile.UsedAddresses.PickIP | pkg/cluster/driver/libvirt/net.go:224-261 | the search loop from the first candidate on: least unused or none |
| AddressFile.UsedAddresses.AddCluster | pkg/cluster/driver/libvirt/net.go:293-321 | in place and through the file, what is stored becomes what the addition on values says, or stays on refusal |
| AddressFile.NetworkInformation.Record | pkg/cluster/driver/libvirt/net.go:304-320 | writing through the host's shared object changes the view as the addition on values says |
| AddressFile.UsedAddresses.RemoveCluster | pkg/cluster/driver/libvirt/net.go:323-345 | what is stored becomes what the removal on values says, or stays if the cluster or its host is unknown |
| ClusterRuns.OthersLeaveFileAlone | pkg/cluster/driver/libvirt/libvirt.go:640-707 | while a process holds the lock no other changes the file or takes the lock away |
| ClusterRuns.StepKeepsInv | pkg/cluster/driver/libvirt/libvirt.go:640-707 | every step of starting or deleting a cluster keeps: allocated ports free in the file, saves computed from the current file, used ports exact |
| ClusterRuns.RunKeepsInv | pkg/cluster/driver/libvirt/libvirt.go:640-707 | the invariant holds after every interleaving |
| ClusterRuns.RunsKeepPortsApart | pkg/cluster/driver/libvirt/libvirt.go:640-707 | in every interleaving of any number of processes, crashes included, clusters recorded for one host have different ports, used ports are exact, and a port allocated is still free when it comes to be recorded |
| ClusterRuns.ChangesAreAtomic | pkg/cluster/driver/libvirt/libvirt.go:932-938 | each save is one change over the latest contents, so no update is lost; only a writer stopped between emptying and filling loses contents |
| ClusterRuns.AllocateTakesLeast | pkg/cluster/driver/libvirt/net.go:264-291 | the port a holder is given is the least of 6443 to 65534 that the file does not have in use on the host |
| ClusterRuns.StartRecords | pkg/cluster/driver/libvirt/libvirt.go:702-707 | from every state the invariant allows with a port allocated, recording, emptying and filling leave the cluster, its port and its address in the file, and nothing else changed |
| ClusterRuns.DeleteForgets | pkg/cluster/driver/libvirt/libvirt.go:932-938 | and deleting leaves exactly the cluster, its port and its address out |
| ClusterRuns.StartRunsToEnd | pkg/cluster/driver/libvirt/libvirt.go:640-707 | from every reachable state with a free lock there is a run of one start that ends with the lock free again and the cluster recorded with the least free port |
| ClusterRuns.DeleteRunsToEnd | pkg/cluster/driver/libvirt/libvirt.go:932-938 | and one of a delete that ends with the lock free again and the cluster forgotten |
| IgnitionCompare.CompareKeyed | pkg/cluster/ignition/compare.go:129-157 | the greedy matcher the nine comparisons share returns true exactly when the lists are equally long and, key by key, list the same elements in the same order |
| IgnitionCompare.CompareMergeAppend | pkg/cluster/ignition/compare.go:73-97 | true exactly when the lists are equal as multisets |
| IgnitionCompare.CompareUnitDropins | pkg/cluster/ignition/compare.go:349-394 | true exactly when the unit lists are equally long and any two units of one name have the same dropins, name by name |
| IgnitionCompare.CompareStorage | pkg/cluster/ignition/compare.go:107-127 | true exactly when the six lists it looks at are the same key by key |
| IgnitionCompare.Compare | pkg/cluster/ignition/compare.go:12-47 | true exactly when both are missing or both have the same content in the compared fields |
| IgnitionCompare.UnitsImplyDropins | pkg/cluster/ignition/compare.go:309-394 | with distinct unit names equal units imply equal dropins |
| IgnitionCompare.CompareReflexive | pkg/cluster/ignition/compare.go:12-47 | a configuration equals itself exactly when units of one name agree on dropins; distinct names suffice |
| IgnitionCompare.CompareSymmetric | pkg/cluster/ignition/compare.go:12-47 | the comparison is symmetric |
| IgnitionCompare.CompareTransitive | pkg/cluster/ignition/compare.go:12-47 | the comparison is transitive |
| IgnitionCompare.SharedNameBreaksReflexivity | pkg/cluster/ignition/compare.go:349-394 | a configuration with two units of one name and different dropins is not equal to itself |
| IgnitionMerge.MergeByKey | vendor/github.com/coreos/ignition/v2/config/merge/merge.go:217-359 | merging lists leaves keys distinct, merges field by field what both have, keeps the parent's others unless the child's entry of the key is found in a sibling list, where the last list counts, and adds the child's others |
| IgnitionEffect.MergeEntryIs | vendor/github.com/coreos/ignition/v2/config/merge/merge.go:217-359 | field by field the child's value is taken where it has one and the parent's where not, and no other field is there; items of keyed lists likewise, other lists are appended |
| IgnitionMerge.DistinctOver | vendor/github.com/coreos/ignition/v2/config/merge/merge.go:217-359 | the parent's part of a merged list keeps distinct keys and gains none |
| IgnitionMerge.SameEntriesIsSameContent | pkg/cluster/ignition/compare.go:129-157 | with distinct keys the matcher's equality is equality of the entry found under each key |
| IgnitionSettle.Partition | pkg/cluster/driver/capi/capi.go:489-509 | removing items and adding them anew leaves a list as it is exactly when they stood at its end |
| IgnitionSettle.HeaderFlips | vendor/github.com/coreos/ignition/v2/config/merge/merge.go:217-359 | a header without a value is in the merged list exactly when it was not in the parent's |
| IgnitionSettle.ItemsSettle | vendor/github.com/coreos/ignition/v2/config/merge/merge.go:217-359 | for each merging policy, the exact condition under which removing and merging the same items again changes nothing |
| IgnitionSettle.EntrySettles | pkg/cluster/driver/capi/capi.go:489-515 | the same for an entry with all its nested lists |
| IgnitionUpdate.StepEffect | pkg/cluster/driver/capi/capi.go:459-515 | what removing, stripping dropins and merging do to the entry under each key of one list |
| IgnitionUpdate.StepSettles | pkg/cluster/driver/capi/capi.go:459-515 | a second round over one list changes its content exactly when an entry is not settled |
| IgnitionUpdate.UpdateEffect | pkg/cluster/driver/capi/capi.go:459-515 | the exact effect of an update on every keyed list: what is listed is gone, units listed with dropins lose exactly those, the rest is as it was, and then the child is merged |
| IgnitionUpdate.NoPatchIsSameContent | pkg/cluster/driver/capi/capi.go:516-534 | with distinct keys there is no patch exactly when version, settings and the content under every key of the compared lists are what they were |
| IgnitionUpdate.SecondUpdate | pkg/cluster/driver/capi/capi.go:459-522 | filtering, merging and comparing the result of an update once more finds no difference exactly when the update is settled for the configuration |
| IgnitionUpdate.PlainUpdateSettles | pkg/cluster/driver/capi/capi.go:459-522 | an update that is plain by itself is settled for every configuration, whatever entries it removes and adds anew |
| IgnitionUpdate.ReaddedDropinMoves | pkg/cluster/driver/capi/capi.go:489-509 | a concrete update, of names that systemd units and dropins may have, that is not settled |
| IgnitionUpdate.UncomparedUpdatesAreLost | pkg/cluster/ignition/compare.go:12-47 | an update of kernel arguments and LUKS volumes alone is found to change nothing |
| IgnitionUpdate.UpdateIgnition | pkg/cluster/driver/capi/capi.go:444-534 | one call, with its loops and in-place filters, fails exactly when nothing is found or the parser refuses it, and otherwise returns no patch or the updated configuration exactly as the functions on values say |
| IgnitionUpdate.UpdatedIs | pkg/cluster/ignition/ignition.go:203-206 | filtering the configuration and then merging is the same as filtering and merging each list by itself |
| IgnitionUpdate.SurvivorsKeepOrder | pkg/cluster/driver/capi/capi.go:459-512 | before the merge exactly the entries not listed are left, in their order and with their content, apart from the dropins listed of units that stay |
| IgnitionEffect.StripEntryIs | pkg/cluster/driver/capi/capi.go:489-512 | a unit listed with dropins keeps its key, every field and every other list, and of its dropins exactly those not listed, in their order |
| IgnitionEffect.StepSays | pkg/cluster/driver/capi/capi.go:459-515 | in the result of one list each child's entry stands with all its fields, over those of the survivor of its key if there is one; every other survivor stands as it was, nothing else does, and keys are distinct |
| IgnitionEffect.UpdateDoes | pkg/cluster/driver/capi/capi.go:444-534 | so for all lists of a configuration at once, with the lists of removals each applied to its own list |
| IgnitionEffect.NoPatchHadFields | pkg/cluster/driver/capi/capi.go:516-534 | if a call returns no patch, the configuration had every field of every compared entry of the update, its version and its settings |
| IgnitionCalls.UpdateListsOk | vendor/github.com/coreos/ignition/v2/config/merge/merge.go:217-359 | an update brings no duplicate into any one list, lists inside entries included |
| IgnitionCalls.UpdateOneKind | vendor/github.com/coreos/ignition/v2/config/merge/merge.go:128-193 | on a configuration without duplicates the result names each path as one kind of node exactly when, of the paths the update names twice, the directory, or the file if it is no directory, is there and stays to be taken away |
| IgnitionCalls.ResultHasNoDuplicates | vendor/github.com/coreos/ignition/v2/config/validate/validate.go:32-71 | the result passes the parser's check for duplicates exactly when the update brings none in among nodes and kernel arguments |
| IgnitionCalls.SecondCall | pkg/cluster/driver/capi/capi.go:444-534 | the same call on what the first has written fails exactly when duplicates were brought in or something else is refused, and otherwise yields no patch exactly when the update is settled |
| IgnitionCalls.SecondCallFindsNothing | pkg/cluster/driver/capi/capi.go:444-534 | the exact condition for a second call to yield no patch |
| IgnitionCalls.PlainUpdateIsFixpoint | pkg/cluster/driver/capi/capi.go:444-534 | a plain update, which names each path as one kind of node, yields no patch on its own result, if that can be read |
| IgnitionCalls.MovingUpdatePatchesAgain | pkg/cluster/driver/capi/capi.go:444-534 | the concrete update patches a second time |
| IgnitionCalls.TwoKindsPatch | pkg/cluster/driver/capi/capi.go:510-522 | an update that names a path as two kinds of node changes every configuration without duplicates |
| IgnitionCalls.TwoKindsEndInRefusal | pkg/cluster/driver/capi/capi.go:444-534 | such an update patches once or twice, and then stands a configuration that no call can read |
| IgnitionBuilder.Ignition.AddUser | pkg/cluster/ignition/ignition.go:59-93 | fails exactly when the name is there, and then changes nothing; otherwise appends the user's entry |
| IgnitionBuilder.Ignition.AddGroup | pkg/cluster/ignition/ignition.go:97-110 | the same for groups |
| IgnitionBuilder.Ignition.AddFile | pkg/cluster/ignition/ignition.go:114-167 | the same for files, which also fail when their contents cannot be encoded |
| IgnitionBuilder.Ignition.AddLink | pkg/cluster/ignition/ignition.go:171-180 | the same for links |
| IgnitionBuilder.Ignition.AddDir | pkg/cluster/ignition/ignition.go:184-193 | the same for directories |
| IgnitionBuilder.AddUnitEffect | pkg/cluster/ignition/ignition.go:196-200 | a unit is merged into the one of its name or added, keys stay distinct, and apart from the version nothing else changes |
| IgnitionBuilder.UserRoundTrip | pkg/cluster/ignition/ignition.go:59-93 | reading a user back from its entry gives the user, and the entry says nothing more |
| IgnitionBuilder.FileRoundTrip | pkg/cluster/ignition/ignition.go:114-167 | reading a file back gives the file, owned by root where no owner is set, and to replace what is there |
| IgnitionBuilder.BuildKeepsFirst | pkg/cluster/ignition/ignition.go:59-200 | after every sequence of additions keys are distinct in each list and each key stands for the first addition of it |
| IgnitionBuilder.FileAndDirectory | pkg/cluster/ignition/ignition.go:114-193 | one path can stand for a file and for a directory |
| IgnitionBuilder.BuiltUpdateIsRefused | pkg/cluster/ignition/ignition.go:114-193 | a configuration built with one path as file and directory, used as an update where the directory is not there, is patched in and then refused by every later call |
| ClusterGraph.ClusterGraph.AddToAll | pkg/cluster/driver/capi/capi.go:305-312 | the first node of a kind and name is the one everybody gets, and no other is changed |
| ClusterGraph.ClusterGraph.AttachTemplate | pkg/cluster/driver/capi/capi.go:204-213 | fails exactly when the template's reference names nothing; otherwise the parent's one child is the shared node, and nodes with a template keep theirs |
| ClusterGraph.ClusterGraph.PopulateControlPlane | pkg/cluster/driver/capi/capi.go:199-214 | fails exactly on another kind or a missing template; otherwise the control plane has its template |
| ClusterGraph.ClusterGraph.PopulateMachineDeployments | pkg/cluster/driver/capi/capi.go:216-238 | fails exactly when a machine deployment that has the cluster among its owners on the server lacks its template; otherwise exactly these are in the graph, each with its template |
| ClusterGraph.ClusterGraph.Populate | pkg/cluster/driver/capi/capi.go:291-302 | fails exactly when something is missing; the control plane the graph holds has its template exactly when it is the node that was fetched |
| ClusterGraph.GetClusterGraph | pkg/cluster/driver/capi/capi.go:262-303 | fails exactly when the cluster, a resource it refers to, or the template of its control plane or of a machine deployment it owns is not on the server; a machine deployment is in the graph exactly if the cluster is among its owners there, with its template; the control plane has its template exactly when infrastructure and control plane are referred to apart |
| ClusterGraph.WalkCluster | pkg/cluster/driver/capi/capi.go:262-352 | a walk without an error calls back for the machine deployments the cluster owns on the server and for no other, each once with the template its reference names, and for the control plane exactly when the two references differ in kind or name; an error ends it |
| ClusterGraph.ReferredAlike | pkg/cluster/driver/capi/capi.go:262-303 | a server on which the references are alike and the graph is built all the same |
| ClusterGraph.ClusterGraph.WalkNode | pkg/cluster/driver/capi/capi.go:316-338 | a node with its template is called back for exactly once, in spite of the early return |
| ClusterGraph.ClusterGraph.WalkMachineTemplates | pkg/cluster/driver/capi/capi.go:340-352 | on every graph that is built, a walk without an error calls back for each parent that has its template and for no other, none twice; an error ends it |
| ClusterGraph.ClusterGraph.WalkedIsComplete | pkg/cluster/driver/capi/capi.go:316-352 | a complete walk is each edge exactly once, for the control plane exactly if it has its template, and parents that name one template are given one node |
| HelmValues.MergeMaps | pkg/helm/helmcli.go:637-659 | the recursive in-place merge of maps that share nothing makes the base the merge of the two trees and leaves it a tree, now holding maps of the overlay |
| HelmValues.Values.MergeAt | pkg/helm/helmcli.go:645-655 | merging below a key changes the tree at that key only |
| HelmValues.Values.Put | pkg/helm/helmcli.go:641-657 | putting a value, or a map of the overlay itself, changes the tree at that key only |
| HelmValues.MergeValues | pkg/helm/helmcli.go:569-634 | merging overrides into a new map one after the other, which makes later ones change the maps of earlier ones, yields the merge of their trees in order |
| HelmValuesLaws.MergeAtPath | pkg/helm/helmcli.go:637-659 | at every path the overlay wins unless both are maps, paths it does not touch keep the base's value, and what it replaces higher up is gone |
| HelmValuesLaws.LastWins | pkg/helm/helmcli.go:569-634 | of several overrides the last that touches a path decides the text there |
| HelmValuesLaws.NothingInvented | pkg/helm/helmcli.go:569-634 | every text in the outcome is one of the overrides' or the base's, at the same path |
| HelmValuesLaws.MergeTwice | pkg/helm/helmcli.go:637-659 | merging the same overlay twice is merging it once |
| HelmValuesLaws.HidesIs | pkg/helm/helmcli.go:637-659 | when a merge is just the overlay |
| HelmValuesLaws.Associative | pkg/helm/helmcli.go:637-659 | merging is associative exactly when no map of the first tree shows through a non-map of the second into a map of the third |
| HelmValuesLaws.GapBreaksAssociativity | pkg/helm/helmcli.go:637-659 | three trees whose merge depends on the grouping |
| HelmValuesLaws.SameKindsAssociative | pkg/helm/helmcli.go:637-659 | trees that nowhere have a map against a non-map meet that condition |
| HelmValuesLaws.UpgradeInOrder | pkg/helm/helmcli.go:195-228 | an upgrade, which merges its overrides together and then onto the release's values, equals laying them over it in order if no two have a map against a non-map; repeating it changes nothing in any case |
| HelmValuesLaws.UpgradeInOrderExactly | pkg/helm/helmcli.go:195-228 | the two agree after every override exactly when none meets a gap between the release's values and the overrides before it |
| ConfigOverlay.MergeAssociative | pkg/config/types/types.go:715-748 | merging configurations is associative, in every field of every nested record |
| ConfigOverlay.ClusterMergeAssociative | pkg/config/types/types.go:753-793 | so is merging cluster configurations |
| ConfigOverlay.OverlayIsAction | pkg/config/types/types.go:798-839 | overlaying on a merge of two configurations is overlaying on the second and then on the first |
| ConfigOverlay.OverlayTwice | pkg/config/types/types.go:798-839 | a second overlay of the same configuration, as the libvirt driver makes it, changes nothing |
| ConfigOverlay.FlagsAreDerived | pkg/config/types/types.go:321-345 | after merging or overlaying every flag is what its pointer says or its default |
| ConfigOverlay.CopyIsCopy | pkg/config/types/types.go:842-849 | copying drops no field and mixes none up: a copy equals its original exactly when the flags are derived and the ephemeral cluster is not to be preserved |
| ConfigPrecedence.MergeTakesSecond | pkg/config/types/types.go:715-793 | field by field, through every nested record: the second argument's value if it is set, else the first's; lists are appended |
| ConfigPrecedence.OverlayTakesCluster | pkg/config/types/types.go:798-839 | field by field: the cluster's own setting if it has one, else the default of the configuration |
| ConfigPrecedence.FullWins | pkg/config/types/types.go:715-748 | a configuration with every field set is not changed by what it is merged onto |
| ConfigPrecedence.FullClusterWins | pkg/config/types/types.go:753-839 | neither is a cluster configuration, apart from its two lists, nor by the defaults it is laid over |
| Versions.StringsOrder | vendor/github.com/Masterminds/semver/v3/version.go:671-693 | the comparison of texts is dictionary order |
| Versions.ComparePrerelease | vendor/github.com/Masterminds/semver/v3/version.go:601-641 | the padding loop decides as the recursive comparison of the identifier lists does |
| Versions.PartTransitive | vendor/github.com/Masterminds/semver/v3/version.go:643-693 | identifiers are ordered transitively, numbers before texts, overflowing numbers as texts |
| Versions.PartAntisymmetric | vendor/github.com/Masterminds/semver/v3/version.go:643-693 | swapping two valid identifiers swaps the verdict |
| Versions.IdsTransitive | vendor/github.com/Masterminds/semver/v3/version.go:601-641 | identifier lists are ordered transitively |
| Versions.ParsedIsValid | vendor/github.com/Masterminds/semver/v3/version.go:236-290 | what the parser accepts has valid pre-release identifiers, which the order relies on |
| Versions.ParseText | vendor/github.com/Masterminds/semver/v3/version.go:236-290 | every valid version whose segments fit in 64 bits has a text that parses to it |
| Versions.OverflowingText | vendor/github.com/Masterminds/semver/v3/version.go:236-290 | the parser accepts a text with a numeric identifier of 2^64 |
| VersionGrammar.ParseIs | vendor/github.com/Masterminds/semver/v3/version.go:236-288 | a text is accepted exactly when it is an optional v, one to three numbers within 64 bits, and well-formed identifiers behind a hyphen and behind a plus sign; missing numbers are read as zero and metadata does not matter |
| Versions.CompareIsOrder | vendor/github.com/Masterminds/semver/v3/version.go:497-525 | versions are totally ordered, and only equal ones draw |
| Versions.PartFollowsSpec | vendor/github.com/Masterminds/semver/v3/version.go:643-693 | identifiers that fit in 64 bits compare as rules 11.4.1 to 11.4.3 of Semantic Versioning 2.0.0 say |
| Versions.IdsFollowSpec | vendor/github.com/Masterminds/semver/v3/version.go:601-641 | lists of them compare by their first difference, or by length (rule 11.4.4) |
| Versions.CompareFollowsSpec | vendor/github.com/Masterminds/semver/v3/version.go:497-525 | a version is lower exactly when section 11 gives it lower precedence |
| Versions.OverflowBreaksOrder | vendor/github.com/Masterminds/semver/v3/version.go:671-693 | for every version with a numeric identifier too large, a version that ought to be above it and is put below |
| Versions.FollowsSpecExactly | vendor/github.com/Masterminds/semver/v3/version.go:497-525 | a version compares as section 11 says with all others exactly when its numeric identifiers fit in 64 bits |
| Charts.AppsAntisymmetric | pkg/catalog/helmconnection.go:105-146 | swapping the arguments of the chart comparator swaps its verdict |
| Charts.AppsTransitive | pkg/catalog/helmconnection.go:105-146 | the chart comparator is transitive across its four ways, so sorting by it is meaningful |
| Charts.AppsDraw | pkg/catalog/helmconnection.go:111-118 | it draws exactly between equal texts and between texts of one version |
| Charts.AppsFollowSpec | pkg/catalog/helmconnection.go:105-146 | a chart goes behind another exactly when its version is older: empty, then unreadable in dictionary order, then by precedence |
| Charts.AppsFollowSpecExactly | pkg/catalog/helmconnection.go:105-146 | a text is put as section 11 asks against all others that fit in 64 bits exactly when it fits itself |
| Charts.SortFunc | pkg/catalog/helmconnection.go:104-147 | sorting yields a sorted permutation |
| Charts.DeleteUnsupported | pkg/catalog/helmconnection.go:160-176 | each chart is kept as often as it was listed if it runs on the cluster, else not at all, and sortedness is kept |
| Charts.FromHelm | pkg/catalog/helmconnection.go:94-186 | fails exactly on an unreadable cluster version; every name lists exactly its supported charts, newest first |
| Charts.FindChartAtVersion | pkg/catalog/connection.go:81-104 | the first chart of the version, the first of all for no version, not found or a panic exactly as the conditions say |
| Charts.LatestIsNewest | pkg/catalog/connection.go:81-104 | the lookup without a version yields a supported chart no older than any supported one, and panics exactly when there is none |
| Charts.FirstIsNewest | pkg/catalog/connection.go:89-96 | among charts of one version the lookup finds one with the newest application |
| Charts.GetChart | pkg/catalog/helmconnection.go:70-90 | a request is answered with a chart of the repository that the cluster supports and that has the version asked for, and none such is newer; it fails exactly when there is none or the cluster's version cannot be read, and panics exactly when no version is asked for and no chart is supported |
| Names.NodeOfUnique | pkg/cluster/driver/libvirt/util.go:28-71 | a domain name determines cluster, role and number, whatever dashes the cluster's name has |
| Names.GeneratedNameBelongs | pkg/cluster/driver/libvirt/util.go:28-71 | a generated name is recognised for its own cluster and for no other |
| Names.DomainNameInjective | pkg/cluster/driver/libvirt/util.go:28-30 | different nodes have different domain names |
| Names.IsDomainFromCluster | pkg/cluster/driver/libvirt/util.go:42-71 | the splitting, matching and rebuilding returns true exactly for the names of the cluster's nodes |
| Names.Rebuild | pkg/cluster/driver/libvirt/util.go:51-68 | the loops put the cluster's part of the name together, with a dash at its end |
| Names.NotANode | pkg/cluster/driver/libvirt/util.go:42-71 | the shapes that are refused are no node's name |
| Names.RemoveNodes | pkg/cluster/driver/libvirt/libvirt.go:898-917 | the delete loop removes the cluster's domains in order, no others, and all of them unless a removal fails |
| Names.DeleteOwnNodesOnly | pkg/cluster/driver/libvirt/libvirt.go:898-917 | among generated domains it removes exactly those of its own cluster |
| Names.IncrementCount | pkg/util/bump.go:15-29 | the split, parse and join give the next name |
| Names.NthFromPlain | pkg/util/bump.go:15-29 | n steps from a name without a number give that name and "-n" |
| Names.NthFromNumber | pkg/util/bump.go:15-29 | n steps from number k give number k + n, below the 64-bit limit |
| Names.NthIs | pkg/util/bump.go:15-29 | n steps from any name give its stem and its count plus n modulo 2^64 |
| Names.NamesRepeatExactly | pkg/util/bump.go:15-29 | two counted names are the same exactly when their counts agree modulo 2^64, so none comes twice within 2^64 steps |
| Names.CountWraps | pkg/util/bump.go:15-29 | at the limit counting starts again at zero, and the empty name becomes "-1" |
| Waiters.StepKeepsInv | pkg/util/logutils/logutils.go:95-102 | every step of the polling loop or of a function keeps: each waiter is reported, seen or left exactly once, those seen have finished, and an error is noted exactly when one seen has failed |
| Waiters.WaitForIsComplete | pkg/util/logutils/logutils.go:170-230 | in every run waitFor returns only after all functions, reports each exactly once and returns whether one failed; if the terminal check fails, and only then, none is started and it returns true |
| Waiters.ReturnsWhenDone | pkg/util/logutils/logutils.go:189-229 | once all functions have finished, every step of its own brings the return nearer |
| Waiters.CanReturn | pkg/util/logutils/logutils.go:170-230 | from every state it can get into without a failed check there is a run in which it returns, with everything waited for |
| Waiters.SerialStepKeepsInv | pkg/util/logutils/logutils.go:236-282 | every step keeps the log of starts and ends in the order given |
| Waiters.SerialIsInOrder | pkg/util/logutils/logutils.go:236-282 | at any moment the functions have run one after the other in the order given, a failure stops none of them, and the result says whether one failed; only a failed terminal check keeps them from running |
| Waiters.SerialCanReturn | pkg/util/logutils/logutils.go:236-282 | from every state it can get into without a failed check there is a run in which it returns after all functions |
| YamlDocs.Unmarshall | pkg/k8s/yaml.go:23-76 | the streaming loop yields what splitting at the separators, dropping comments and blank lines, and parsing each group yields, unreadable documents and a reader that breaks off included |
| YamlDocs.BrokenIsBeginning | pkg/k8s/yaml.go:44-54 | a reader that breaks off yields a beginning of the objects of the text |
| YamlDocs.FlushBuffer | pkg/k8s/yaml.go:27-41 | an empty buffer and an empty object add nothing, an unreadable document ends the reading |
| YamlDocs.LineDocs | pkg/k8s/yaml.go:55-68 | what one line does to the documents still to come |
| YamlDocs.DocumentsAppend | pkg/k8s/yaml.go:55-60 | a separator divides the documents of a text |
| YamlDocs.DocumentArrives | pkg/k8s/yaml.go:23-76 | lines with visible characters and neither # nor --- in front are one document: the object the parser makes of their text is returned, an empty one is not, and an unreadable one fails |
| YamlDocs.SkippedLine | pkg/k8s/yaml.go:61-68 | an empty line, one of blanks or a comment makes no difference, wherever it stands |
| YamlDocs.Template | pkg/helm/helmcli.go:296-301 | the loop returns the manifests joined by separators |
| YamlDocs.JoinedObjects | pkg/helm/helmcli.go:296-299 | two joined texts read as the first, ended by a newline, and then the second, for every parser |
| YamlDocs.ManifestObjects | pkg/helm/helmcli.go:296-299 | so do any number of parts, failures included |
| YamlDocs.TemplateObjects | pkg/helm/helmcli.go:296-299 | with a parser that does not mind a newline at the end, the joined text can be read exactly when all parts can, and then yields their objects in order |
| YamlDocs.ManifestsArrive | pkg/helm/helmcli.go:296-301 | manifests of such lines arrive as their objects, one by one, in order |

## Left out

- Remote services: Kubernetes, Helm, OCI, oVirt, libvirt, HTTP and SSH clients, and the commands that wire them up.
- YAML, JSON, constraint and Ignition parsers are parameters; marshalling and parsing are taken to be inverse, so a file is the value it stands for.
- Fairness of the lock, its timeout's length, and reuse of pids; a pid is taken to be written in one piece, and a process does not take the lock while it has it.
- The cluster cache, which goes on when it cannot get the lock and gives it up between reading and writing, has no atomicity to prove; its Drop without the lock is in the lock's model.
- AddressFile.UsedAddresses.AllocateIP: does not model how the gateway and mask are looked up or how addresses are written; subnets are blocks of a size that divides the space of addresses, as contiguous masks make them, and smaller than the space.
- Addresses.SequentialRunsAreExact: makes its claim about addresses for one process at a time, because addresses are chosen before the lock is taken.
- ClusterRuns.RunsKeepPortsApart: does not follow the certificates and the first node made between allocating and recording; they may take any time and fail.
- IgnitionCompare.CompareKeyed: is one method for the nine matchers, which differ in the field that is the key.
- IgnitionMerge.MergeByKey: represents scalar fields by a map from path to value and does not tell a nil list from an empty one.
- IgnitionUpdate.SecondUpdate: is about values; what a second call does, which has to read them first, is IgnitionCalls.SecondCall.
- IgnitionCalls.SecondCall: has the parser's check for duplicates in full and its other checks (names, modes, links on the way to a path) as a parameter; it supposes that no list of the update has a key twice, as Ignition demands of each list.
- IgnitionBuilder.Ignition.AddFile: takes the making of a data URL as a parameter and numbers as texts.
- ClusterGraph.GetClusterGraph: has one namespace, and the API server does not change while the graph is read.
- HelmValues.MergeMaps: supposes that the two trees share no maps and hold no cycles, as parsed values do; a list is a scalar, as in the source.
- HelmValues.MergeValues: has overrides given as literals and files; values set one by one go through the library's own parser.
- ConfigOverlay.MergeAssociative: has unbounded integers for 16-bit ports and counts, which are only copied and compared with zero; nil arguments, which no caller passes, are left out.
- Charts.SortFunc: is an insertion sort in place of the library's; nothing but a sorted permutation is used.
- Charts.FromHelm: keeps of a chart the fields that sorting, filtering and looking up use.
- Charts.GetChart: has the answer of the search, which the source keeps between calls, as an argument, and ends with the archive to fetch.
- Names.IncrementCount: has a delimiter of one character; callers pass "-".
- Names.NthIs: supposes that the delimiter is not a digit.
- Names.DomainNameInjective: is about numbers that fit in a 64-bit int, as the source's do.
- Waiters.WaitForIsComplete: numbers the waiters, so a waiter listed twice is two; messages, colours and cursor movement are left out.
- YamlDocs.Unmarshall: has texts that are sequences of characters, not of bytes.
- Image candidates, uploads and virtual addresses: mostly remote lookups decided branch by branch.
