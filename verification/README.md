# sknf-cni: a verified model of the node plugin

sknf-cni is the CNI plugin of the sknf network fabric. On `ADD` it takes the next address from a
counter kept as CIDR text in one file, makes sure the bridge `brsknf` and the VXLAN `vxsknf` exist,
creates a veth pair for the pod, configures the pod's end inside the pod's network namespace, enslaves
the host's end and appends a NAT rule. On `DEL` it deletes the pair. This project models that plugin,
with a fault possible at every call that can fail, and proves what holds after any sequence of `ADD`s
and `DEL`s.

| file | models |
|---|---|
| `Words.dfy`, `Text.dfy` | 32-bit words, byte order, bitwise operators; C strings, decimal and hexadecimal text |
| `Cidrs.dfy` | `util_cidr_parse`, `util_cidr_serialize`, with `inet_pton`, `inet_ntop` and `atoi` |
| `Naming.dfy` | `util_fnv1a32` and the two interface name generators |
| `Io.dfy` | `io.c` over one file, with short reads, failing calls and torn writes |
| `Ip.dfy` | `ip.c`: bridge address and allocator |
| `IpRuns.dfy` | the allocator over whole runs: refinement of a counter, capacity |
| `Interleaving.dfy` | invocations of the allocator running side by side, with a fault possible at every step |
| `Exclusion.dfy`, `Turns.dfy` | when side-by-side runs are sequential, and exactly when they hand out no address twice |
| `Cluster.dfy` | the allocators of several nodes with their own subnets |
| `Nft.dfy` | the NAT rule and the packets it matches |
| `Kernels.dfy`, `Net.dfy` | the kernel state and what `net_utils.c` and `net.c` ask of it |
| `Hosts.dfy` | the same C functions as they run, over mutable state |
| `NetSteps.dfy`, `NetTheorems.dfy`, `Leftovers.dfy`, `Isolation.dfy` | what each function, attaching and detaching leave behind |
| `Cmd.dfy`, `NodeRuns.dfy` | `cmd_add` and `cmd_del`, and all runs of a node |
| `ClusterRuns.dfy` | all runs of a cluster's nodes |

The C code is imperative, and so are its counterparts: methods with loops over arrays (`Io`, `Ip`,
`Naming`, `Cidrs`) and a class whose methods update the kernel's tables and stop at the first failure
(`Hosts`). Each is proved equal to a function of its inputs and the old state (`Parse`, `Print`, `Fnv`,
`Acquire`, `Attach`, `Detach`, `CmdAdd`, ...), and the lemmas are about those functions. Faults are
chosen by the environment: a kernel invocation gets the set of call sites that fail, and the file
methods report in a ghost result which of their calls failed. The methods carry addresses as the C code
does, in network byte order, and swap them around each increment; the functions speak of the address as
a number.

## What does not hold

Several properties one would expect are false of the code. They are kept false, shown by a lemma, and
the condition under which they hold is proved.

- Interface names are not unique: the three hashes are combined by XOR, so swapping two components
  keeps the name and two equal components cancel (`NamesCollide`). Names agree exactly when the
  combined hashes agree; for attachments that differ in one component, exactly when that component's
  hashes agree.
- Cleaning up after a failed `ADD` is not always safe: when its host name is taken, the `DEL` that follows
  removes whatever has that name (`CleanupHitsTheNamesake`). It is safe exactly when no interface had the
  host name before (`CleanupIsSafeExactly`).
- An `ADD` can take the default route from another attachment of the same network namespace, since the
  route is installed with replacement. The route survives exactly when attaching does not get as far as
  installing one (`SharedNamespaceLosesItsRoute`); a `DEL` after that does not bring it back
  (`DetachUndoesAttach`).
- Any failure of the existence check makes the counter start over; past the first address an
  acquisition continues from the file exactly when that check did not fail (`OnlyTheExistsCheckRewinds`).
- Two invocations can hand out one address (`OverlapHandsOutTwice`). While writes succeed this happens
  exactly when some invocation computes its address out of turn: while another one has computed and not
  yet written, or after finding the file absent that is there by now (`HandedOutOnceExactlyInTurn`;
  beyond 2^32 addresses always). Never overlapping is enough (`ExclusionIsInTurn`) but not needed (`OverlapInTurn`).
- Overlapping invocations can leave the addresses they should hand out: when a write stops before
  its slash over a longer text, the next invocation reads, and continues from, an address nobody computed
  (`TornOverlapLeavesTheBound`). Writes that do not stop there keep the bound, whatever else fails
  (`AnyInterleavingIsBounded`).
- A bridge whose creation fails between adding the link and adding the address never gets an address
  (`BridgeAddressIsDecidedAtCreation`, `BridgeNeverChanges`).

Where comments and code disagree, the model follows the code: the names are `sknf` or `tmp` and eight
hexadecimal digits, not `v` and eight digits (`net.c:38`, `net.c:49`); the NAT rule matches the cluster's
block, not the pod's or the node's (`nft.c:27`, since the CIDR it gets carries the cluster's prefix); it
is an nftables rule, where the repository's `README.md:44` speaks of iptables.

## Assumptions

- The machine is little-endian, `int` has 32 bits and `long` 64, and `atoi` behaves as glibc's:
  it saturates to `long` and keeps the low 32 bits. `inet_pton` refuses leading zeros, as glibc's does.
- CIDR texts in the configuration are shorter than 64 bytes (`util.c:22` copies without a check), and
  the cluster's prefix is in 0..32 (`nft.c:43` shifts by 32 minus the prefix).
- A short `fread` means end of file or error. A write that fails leaves the file untouched, or holding
  some prefix of the new text, after truncation.
- A kernel request takes effect or fails without effect. `if_nametoindex`, where it decides whether the
  bridge or the VXLAN has to be made, answers correctly. The NAT batch takes effect when it is sent.
- A default route is installed whatever its gateway, unless the call is chosen to fail. A kernel refuses
  a gateway that is not on-link, for example under cluster prefix 32: there the call is one of the failing
  ones, and `FaultFreeAddSucceeds` and `AddSucceedsExactlyWhen` read accordingly.
- An interface name is accepted whatever it is, unless the call is chosen to fail. A kernel refuses an
  empty name, one of 16 or more bytes, or one with a slash: for such an `ifname` the rename (`MoveToPod`)
  is one of the failing calls.
- `nl_addr_parse` reads the bridge's CIDR text, which `ip_bridge` printed, as `util_cidr_parse` does.
- Nothing but the plugin changes its file, its chain, or the interfaces it made.

## Model

| member | source | states |
|---|---|---|
| Cidrs.PtonExactly | sknf-cni/src/util.c:33-37 | `inet_pton` accepts, for every address, exactly the one text `inet_ntop` prints for it |
| Cidrs.ParseExactly | sknf-cni/src/util.c:20-40 | the accepted texts and their values: an address, a slash, and anything `atoi` reads as the prefix |
| Cidrs.ParseFails | sknf-cni/src/util.c:24-37 | the refused texts and their errors: no slash, or no address in front of one |
| Cidrs.RoundTrip | sknf-cni/src/util.c:42-51 | every 32-bit address with every C `int` prefix survives printing and parsing; the text has at most 27 characters and no NUL, so neither the 64-byte `snprintf` nor `strcpy` is ever at its limit |
| Cidrs.Reprint | sknf-cni/src/util.c:20-51 | printing what was parsed and parsing again changes nothing, for every accepted text |
| Cidrs.TornText | sknf-cni/src/util.c:24-36 | a printed CIDR cut anywhere is refused while the slash is missing, and otherwise names the same address |
| Cidrs.CidrParse | sknf-cni/src/util.c:20-40 | the copy that is cut in place at the slash yields what `Parse` says, error cases included |
| Cidrs.CidrSerialize | sknf-cni/src/util.c:42-51 | the buffer holds the whole text, never a truncated one |
| Text.AtoiOfDecimal | sknf-cni/src/util.c:30-30 | `atoi` reads back every `int` that `%d` prints, negative ones included |
| Text.AtoiReads | sknf-cni/src/util.c:30-30 | blanks, an optional sign and digits up to the first other character, modulo 2^32 |
| Naming.UtilFnv1a32 | sknf-cni/src/util.c:10-18 | the hash loop computes FNV-1a |
| Naming.FnvReadsBack | sknf-cni/src/util.c:10-18 | undoing the last multiplication and XORing out the hash of the rest leaves the last byte, and the empty string hashes to 2166136261: XOR before multiply, byte by byte from the front |
| Naming.PrimeIsInvertible | sknf-cni/src/util.c:11-15 | multiplying by the FNV prime modulo 2^32 is undone by multiplying by 899433627 |
| Naming.FnvStepOneToOne | sknf-cni/src/util.c:13-16 | each hash step is a permutation of the words for a fixed byte and separates bytes for a fixed word |
| Naming.FnvSeparates | sknf-cni/src/util.c:10-18 | strings of one length that differ in exactly one byte have different hashes |
| Naming.SameNameIsSameHash | sknf-cni/src/net.c:31-51 | two attachments share a host name, or a temporary name, exactly when their combined hashes agree |
| Naming.OneComponentApart | sknf-cni/src/net.c:33-39 | attachments that differ in one component share a name exactly when that component's hashes agree |
| Naming.OneByteChangesTheName | sknf-cni/src/net.c:31-51 | changing one byte of one component always changes both names |
| Naming.NamesCollide | sknf-cni/src/net.c:33-36 | permuting the components never changes the name, and two equal components cancel |
| Naming.GeneratedNamesApart | sknf-cni/src/net.c:39-50 | names fit `char[16]`; host names, temporary names, bridge and VXLAN names never coincide |
| Naming.NamesSpellTheHash | sknf-cni/src/net.c:31-51 | both names are their prefix and eight lower-case hexadecimal digits that, read most significant first, are 2166136261 XOR the three hashes |
| Naming.GenerateHostIfName | sknf-cni/src/net.c:31-40 | the buffer holds that host name |
| Naming.GenerateContainerIfTemporaryName | sknf-cni/src/net.c:42-51 | the buffer holds that temporary name |
| Io.Disk.FileExists | sknf-cni/src/io.c:10-21 | any failure to open reads as absence |
| Io.Disk.ReadFileInto | sknf-cni/src/io.c:23-65 | for every behaviour of `fread` the loop ends; without a reported failure the buffer holds the longest prefix of the file that fits beside a NUL, and the result is 0 exactly when the file is strictly shorter than the room, 1 otherwise |
| Io.Disk.WriteText | sknf-cni/src/io.c:67-97 | success means the file is the text; failure leaves the file alone or holding a prefix of the text |
| Ip.TrimIsLongest | sknf-cni/src/ip.c:80-88 | trimming yields the longest prefix that does not end in a blank |
| Ip.TrimInPlace | sknf-cni/src/ip.c:80-88 | the in-place loop computes it and terminates the string there |
| Ip.BlanksDoNotMatter | sknf-cni/src/ip.c:71-134 | blanks after a stored CIDR change neither the answer nor the rewritten file while the file stays below 63 bytes; from there on the acquisition fails and leaves the file |
| Ip.GetFirstAllocableIp | sknf-cni/src/ip.c:14-32 | computes `FirstAllocable`, failing exactly on an unparsable subnet |
| Ip.FirstAllocableParses | sknf-cni/src/ip.c:14-32 | the text parses to the address after the subnet's, with the subnet's prefix |
| Ip.IpBridge | sknf-cni/src/ip.c:34-63 | computes `Bridge`, failing exactly when one of the two texts does not parse |
| Ip.IpContainerAcquire | sknf-cni/src/ip.c:67-134 | the new file and the answer are those of `Acquire` for the faults that happened; without faulty I/O there are none |
| IpRuns.AcquireSucceedsExactlyWhen | sknf-cni/src/ip.c:67-134 | exactly when an acquisition succeeds, and that it then returns the address after the last one with the cluster's prefix |
| IpRuns.AcquireLeaves | sknf-cni/src/ip.c:113-133 | what an acquisition leaves in the file, byte for byte, for every fault, and that it answers with what it wrote |
| IpRuns.AcquireStepsTheCounter | sknf-cni/src/ip.c:113-133 | one acquisition moves the counter to the next address, leaves it, or gets it stuck; an address is returned only with the move, and a stuck file is not touched |
| IpRuns.AbsOfTorn | sknf-cni/src/io.c:73-89 | a file torn at byte k holds the new address or is stuck, depending only on whether the slash was written |
| IpRuns.RunRefinesCounter | sknf-cni/src/ip.c:67-134 | over any run with any faults the file shows the address numbered by the advances so far, unless it is stuck |
| IpRuns.AnswerIsNumbered | sknf-cni/src/ip.c:113-133 | each returned address is the one numbered by the advances so far |
| IpRuns.RunsHandOutDistinctAddresses | sknf-cni/src/ip.c:67-134 | with fewer than 2^32 advances all returned addresses are pairwise different and none is the bridge's |
| IpRuns.StuckForever | sknf-cni/src/ip.c:97-103 | once stuck, every later acquisition fails and leaves the file unchanged: the counter is never rewound |
| IpRuns.OnlyTheExistsCheckRewinds | sknf-cni/src/ip.c:71-95 | past the first address an acquisition continues from the file exactly when the existence check did not fail, and otherwise returns the first address again |
| IpRuns.BridgeAddress | sknf-cni/src/ip.c:34-63 | the bridge has number 0 and the cluster's prefix, exactly when both texts parse |
| IpRuns.QuietRun | sknf-cni/src/ip.c:67-134 | without faults the n-th acquisition returns number n |
| IpRuns.CapacityIsExact | sknf-cni/src/ip.c:113-115 | in an aligned subnet with prefix at most 30, number n is a usable pod address exactly for n up to 2^(32-p)-3, and the broadcast address for n = 2^(32-p)-2 |
| Interleaving.UninterruptedIsAcquire | sknf-cni/src/ip.c:67-134 | the four separate steps of one process, uninterrupted, are one acquisition, whatever fails in them |
| Interleaving.AnyInterleavingIsBounded | sknf-cni/src/ip.c:65-133 | in any interleaving of k invocations with faults anywhere, only the k addresses after the bridge's are handed out, as long as no write stops between its first byte and its slash over text that is already there |
| Interleaving.OverlapHandsOutTwice | sknf-cni/src/ip.c:65-66 | two invocations that both check before either writes take the same address, for every valid configuration |
| Interleaving.TornOverlapLeavesTheBound | sknf-cni/src/io.c:67-97 | for every subnet x.7 there is a run of four invocations with one write of x.9 stopped over x.10 in which the fourth hands out x.91 |
| Exclusion.ExclusionIsSequential | sknf-cni/src/ip.c:65-133 | when no two invocations overlap, with faults anywhere, the file and every answer are those of one sequential run of acquisitions in the order in which they ended, each with the faults its steps met |
| Exclusion.ExclusionIsAtomic | sknf-cni/src/ip.c:65-133 | then, without faults, the runs are an atomic fetch-and-increment: the n-th to end holds the n-th address |
| Turns.DifferExactlyInTurn | sknf-cni/src/ip.c:65-133 | in any interleaving in which writes succeed, no two invocations hold, or are about to write, one address if and only if every address was computed in turn and at most 2^32 were computed |
| Turns.HandedOutOnceExactlyInTurn | sknf-cni/src/ip.c:126-133 | when nobody is left between computing and writing, the same if and only if for the addresses handed out |
| Turns.InTurnIsNumbered | sknf-cni/src/ip.c:113-120 | in turn, the n-th invocation to compute holds the n-th address |
| Turns.ExclusionIsInTurn | sknf-cni/src/ip.c:65-133 | invocations that never overlap, with truthful existence checks, compute in turn, so that without failing writes they differ exactly up to 2^32 addresses |
| Turns.InTurnGivesDistinctAddresses | sknf-cni/src/ip.c:65-133 | in turn, no address is handed out twice though checks and reads fail and writes fail or tear at any byte, up to 2^32 addresses that reached the file |
| Turns.PublishedAreAdvances | sknf-cni/src/ip.c:126-133 | without overlap, the addresses that reached the file are the advances of the sequential run |
| Turns.ExclusionGivesDistinctAddresses | sknf-cni/src/ip.c:126-133 | without overlap, with truthful existence checks and up to 2^32 advances, no address is handed out twice, though reads fail and writes tear anywhere |
| Turns.OverlapInTurn | sknf-cni/src/ip.c:65-133 | two invocations overlap, the second checking while the file is truncated, and still take the first and the second address |
| Cluster.FilesAreLocal | sknf-cni/src/ip.c:67-134 | in any interleaving of the nodes' runs each node's file is what its own run would have left |
| Cluster.ExamplePlan | sknf-cni/conf/example-conf.json:5-6 | the example configuration's subnet with its neighbour, inside the example cluster block, is an address plan |
| Cluster.ClusterAddressesDistinct | sknf-cni/src/ip.c:113-120 | nodes with disjoint aligned subnets, within capacity, never hand out an address twice |
| Cluster.BridgesApart | sknf-cni/src/ip.c:34-63 | the nodes' bridges have different addresses |
| Cluster.PodsAvoidBridges | sknf-cni/src/ip.c:113-120 | no pod gets the address of any node's bridge |
| Cluster.ClusterIsOneNetwork | sknf-cni/src/ip.c:117-120 | every address handed out, pods' and bridges', lies in the cluster's network under the printed prefix |
| ClusterRuns.WorldsAreLocal | sknf-cni/src/cmd.c:70-119 | in any interleaving of the nodes' ADDs and DELs each node is as its own run would have left it |
| ClusterRuns.LivePod | sknf-cni/src/cmd.c:70-119 | under an address plan and within capacity, every live pod's interface has exactly one address: the one of its number, usable in its node's subnet, in the cluster's network |
| ClusterRuns.LivePodsDiffer | sknf-cni/src/cmd.c:70-119 | then no two live pods of the cluster, on one node or on two, have the same address |
| ClusterRuns.PodsDifferFromBridges | sknf-cni/src/net_utils.c:147-189 | then no live pod has the address of any node's bridge, and every bridge address is in the cluster's network |
| Nft.ShiftedMask | sknf-cni/src/nft.c:43-43 | the 32-bit shift gives the mask with exactly the high bits set |
| Nft.MaskedEqualIsSameBlock | sknf-cni/src/nft.c:43-44 | masking in network byte order compares host-order quotients by the block size |
| Nft.RuleMatchesItsBlock | sknf-cni/src/nft.c:115-165 | a rule matches exactly the packets that leave through its interface with a source in its block |
| Nft.ChainIsBlockMembership | sknf-cni/src/nft.c:115-165 | any number of rules of one block decides like one |
| Nft.BuildRule | sknf-cni/src/nft.c:39-44 | the code's mask and network are those of `NatRule` |
| NetSteps.BridgeStep | sknf-cni/src/net_utils.c:143-197 | exactly when making the bridge succeeds and what it leaves when it stops: nothing, a bridge without address, a bridge with its address |
| NetSteps.VethStep | sknf-cni/src/net_utils.c:255-315 | exactly when the pair is made and moved; otherwise nothing, or a pair with its temporary name |
| NetSteps.ConfigureStep | sknf-cni/src/net.c:53-139 | how far configuring the pod's end gets, and the namespace it ends in |
| NetTheorems.AttachStep | sknf-cni/src/net.c:226-293 | exactly when attaching succeeds, all it then has set up, the states in which it can stop otherwise, exactly when the pair exists, the route is replaced and the rule is in the chain |
| Leftovers.AttachLeaves | sknf-cni/src/net.c:226-293 | wherever attaching stops: exactly which of bridge, VXLAN, host end and pod end exist and what each looks like, that no other interface changed, and the namespace, routes and rules, all decided by the state before and the failing calls |
| Leftovers.AttachedByName | sknf-cni/src/net_utils.c:143-253 | after a successful attach `brsknf` is an up bridge with its address, `vxsknf` an up VXLAN with group 239.1.1.100, VNI 100 and port 4789 where it was made, and it and the host end are on the bridge |
| Isolation.AttachIsolates | sknf-cni/src/net.c:257-278 | attaching, wherever it stops, leaves every existing interface alone except that the VXLAN may join the bridge, and every other namespace's route; with the host name taken it fails and makes no pair |
| Isolation.SharedNamespaceLosesItsRoute | sknf-cni/src/net_utils.c:127-127 | the default route of a shared namespace survives exactly when attaching does not get as far as installing one |
| Isolation.BridgeAddressIsDecidedAtCreation | sknf-cni/src/net_utils.c:147-189 | an existing bridge is never changed; a new one has the computed address exactly when no bridge call failed, and none otherwise |
| Isolation.DetachUndoesAttach | sknf-cni/src/net.c:226-327 | with the host name free, after attaching stopped anywhere, a fault-free detach restores the interfaces up to bridge and VXLAN, reports success exactly when the pair had been made, and of the routes only a replaced one is missing |
| Isolation.CleanupHitsTheNamesake | sknf-cni/src/net.c:295-327 | with the host name taken, by whatever interface, an attach fails and spares everything, but the following detach removes that interface and its peer, and nothing else |
| Isolation.CleanupIsSafeExactly | sknf-cni/src/net.c:226-327 | wherever attaching stopped, the cleanup restores the interfaces up to bridge and VXLAN if and only if the host name was free |
| Isolation.NothingOutsideThePod | sknf-cni/src/net.c:53-139 | configuring the pod's end changes no interface, address or route outside the pod's namespace |
| Isolation.NamespaceIsRestored | sknf-cni/src/net.c:127-131 | the process is back in its namespace on every exit, except exactly when it had entered another one, failed, and failed to go back |
| Hosts.Host.NuRtnlAddrBuild | sknf-cni/src/net_utils.c:20-68 | yields the parsed CIDR, or fails |
| Hosts.Host.NuCreateBridge | sknf-cni/src/net_utils.c:143-197 | the step-by-step code ends in the state and result of `CreateBridge` |
| Hosts.Host.NuCreateVxlan | sknf-cni/src/net_utils.c:199-253 | likewise for `CreateVxlan`; where the VXLAN was missing, success adds exactly `vxsknf` with group 239.1.1.100, VNI 100 and port 4789, up, and failure adds nothing |
| Hosts.Host.NuCreateVeth | sknf-cni/src/net_utils.c:255-315 | likewise for `CreateVeth` |
| Hosts.Host.NuAddRoutingRule | sknf-cni/src/net_utils.c:70-141 | likewise for `AddDefaultRoute` |
| Hosts.Host.NuEnableVeth | sknf-cni/src/net_utils.c:317-354 | likewise for `EnableVeth` |
| Hosts.Host.ConfigureVeth | sknf-cni/src/net.c:53-139 | the code with its `switched_ns` flag ends in the state and result of `ConfigureContainerVeth` |
| Hosts.Host.SetUpVeth | sknf-cni/src/net.c:141-159 | likewise for `SetupVeth` |
| Hosts.Host.AttachToBridge | sknf-cni/src/net.c:161-224 | likewise for `AttachIfsToBridge` |
| Hosts.Host.NftNatRule | sknf-cni/src/nft.c:28-205 | likewise for `InstallRule` |
| Hosts.Host.NetAttachContainer | sknf-cni/src/net.c:226-293 | the code ends in the state and result of `Attach`, and itself promises what `AttachStep` and `AttachLeaves` do |
| Hosts.Host.NetDetachContainer | sknf-cni/src/net.c:295-327 | likewise for `Detach`: 0 exactly when no call failed and the host name existed, and the pair is then deleted; otherwise nothing changes |
| Cmd.RunCmdAdd | sknf-cni/src/cmd.c:70-106 | kernel, file, result and reply are those of `CmdAdd` |
| Cmd.RunCmdDel | sknf-cni/src/cmd.c:108-119 | returns 0 exactly when no call failed and the host name existed, and then exactly that interface and its peer are gone; otherwise nothing changes; the file is never touched |
| NodeRuns.AddSucceedsExactlyWhen | sknf-cni/src/cmd.c:70-106 | exactly when an ADD succeeds on a node any run has left behind |
| NodeRuns.AddInTheKernel | sknf-cni/src/cmd.c:70-106 | an ADD leaves the kernel alone unless it gets an address, and then leaves exactly what attaching with the next address leaves, and replies with that address |
| NodeRuns.AddKeepsThePods | sknf-cni/src/cmd.c:70-106 | nobody stops being live through an ADD, and exactly a successful one adds its pod |
| NodeRuns.DelExactly | sknf-cni/src/cmd.c:108-119 | a DEL succeeds exactly when no call fails and the host name exists; then exactly that interface, its peer and the routes through them are gone, and otherwise nothing changes |
| NodeRuns.DelInTheNode | sknf-cni/src/cmd.c:108-119 | after a successful DEL neither end of its pod nor the pod's route is there; exactly the pods it touched stop being live, and file and counter stay |
| NodeRuns.FaultFreeAddSucceeds | sknf-cni/src/cmd.c:70-106 | without faults, the refusal of a gateway included, an ADD succeeds on any node a run left behind, if the allocator is not stuck, the namespace opens, the names are free and the VXLAN exists or has an underlay |
| NodeRuns.AddRepliesThePodsAddress | sknf-cni/src/cmd.c:92-105 | a successful ADD replies with exactly the address of the new pod's interface, under a host name no live pod had |
| NodeRuns.PodSurvivesAttach | sknf-cni/src/net.c:226-293 | an ADD, wherever it stops, leaves every live pod working, except that a pod loses its default route exactly when the ADD gets as far as installing one in the pod's namespace |
| NodeRuns.PodSurvivesDetach | sknf-cni/src/net_utils.c:356-380 | a DEL leaves every live pod working that does not have the deleted name |
| NodeRuns.EveryRunIsHealthy | sknf-cni/src/cmd.c:70-119 | after any ADDs and DELs with faults anywhere, every live pod has its host end up and on the bridge, its own end up in its namespace with exactly its numbered address, the VXLAN is on the bridge, its default route leads through its own end to the bridge's address if and only if no later ADD got as far as installing a route in its namespace, and all numbers differ |
| NodeRuns.NodeRunsTheAllocator | sknf-cni/src/cmd.c:81-96 | over any run the node's file and counter are those of the allocator run by the ADDs that reach it: no attaching, detaching or failing outside it matters |
| NodeRuns.LivePodsHaveTheirOwnAddress | sknf-cni/src/cmd.c:70-119 | before the counter wraps, live pods have pairwise different addresses, none of them the bridge's |
| NodeRuns.BridgeIsDecidedOnce | sknf-cni/src/net_utils.c:147-151 | no ADD or DEL changes an existing bridge, wherever it stops |
| NodeRuns.BridgeNeverChanges | sknf-cni/src/net_utils.c:147-189 | over whole runs the bridge keeps what it had when it first existed: its computed address or none |
| NodeRuns.EveryAddSpendsAnAddress | sknf-cni/src/cmd.c:70-119 | while the sysctls can be set and the files work, the counter counts the ADDs ever made, successful or not; DELs give nothing back |
| NodeRuns.NodeMasqueradesTheClusterBlock | sknf-cni/src/nft.c:28-165 | after any run within capacity, the accumulated rules masquerade exactly the packets that leave through the physical interface from the cluster's block |

## Left out

- The netlink, libmnl and libnftnl messages, sockets and reference counts: each kernel call is one step that succeeds or has no effect.
- The acknowledgement loop of `nft_nat_rule`: sending the batch is taken to add the rule, and the loop can only fail afterwards; the table and chain it also creates are taken as given.
- `configure_container_veth` jumping to its cleanup before `sk`, `link` and `raddr` are initialised: they count as null.
- Reading the configuration and environment (`args.c`), writing the responses (`cmd.c`), dispatch (`main.c`), error texts (`err.c`): one-branch properties only.
- `sys.c`: setting the sysctls is one call that can fail.
- The Go daemon and the Kubernetes manifests.
- Forwarding, VXLAN encapsulation and kube-proxy: behaviour of the kernel, not of this code.
- Success of a DEL for a missing interface: the code reports an error there, and the model does too.
- Interface indices: interfaces are identified by namespace and name, so a rename or reuse between two calls of one invocation is not modelled.
- Two invocations changing the kernel at the same time: interleaving is modelled for the allocator's file only.
- NodeRuns.EveryRunIsHealthy: starts from a node without bridge and VXLAN, and takes every existence check of the file as truthful (see `OnlyTheExistsCheckRewinds` for what happens otherwise). It does not keep a pod's default route once another ADD replaced it, because the code does not (see `SharedNamespaceLosesItsRoute`).
- Interleaving.AnyInterleavingIsBounded: no write stops between its first byte and its slash over text that is already there, because with one that does the bound is false (`TornOverlapLeavesTheBound`). The condition suffices; a run can break it and still stay within the bound.
- Turns.DifferExactlyInTurn: writes succeed, because an invocation that computed out of turn does no harm when its write then fails before the file is touched; checks and reads may fail. With failing writes one half remains: in turn is enough (`InTurnGivesDistinctAddresses`).
- Cidrs.CidrParse: takes texts shorter than 64 bytes only, because longer ones overrun the C buffer.
- Nft.BuildRule: takes prefixes in 0..32 only, because C does not define the shift for others.
