/** Attaching and detaching as a whole: what any stop leaves behind, exactly when attaching succeeds,
    cleanup after a failure, and isolation of everything that was there before. */
module NetTheorems {
  import opened Cidrs
  import opened Naming
  import opened Nft
  import opened Kernels
  import opened Net
  import opened NetSteps

  // ---------------------------------------------------------------- what any stop leaves behind

  /** Interfaces that existed stay as they were; only the VXLAN may have joined the bridge. */
  ghost predicate Kept(k0: Kernel, k1: Kernel) {
    forall q :: q in k0.links ==>
      (q in k1.links && (k1.links[q] == k0.links[q] || (q == VX && k1.links[q] == Mastered(k0.links[q]))))
  }

  ghost predicate NewWithin(k0: Kernel, k1: Kernel, own: set<Key>) {
    forall q :: q in k1.links && q !in k0.links ==> q in own
  }

  /** A bridge or VXLAN made here is no end of a pair. */
  ghost predicate Peerless(k: Kernel, q: Key) {
    q in k.links ==> k.links[q].peer == None
  }

  /** No pair yet: at most the bridge and the VXLAN are new. */
  ghost predicate Unpaired(k0: Kernel, k1: Kernel) {
    && Kept(k0, k1) && NewWithin(k0, k1, {BR, VX}) && MastersExist(k1)
    && (BR !in k0.links ==> Peerless(k1, BR)) && (VX !in k0.links ==> Peerless(k1, VX))
    && k1.routes == k0.routes && k1.paths == k0.paths && k1.chain == k0.chain
  }

  /** The pair exists with its far end at `e`; nothing else is new but the bridge and the VXLAN. */
  ghost predicate Paired(k0: Kernel, k1: Kernel, h: Key, e: Key) {
    && h !in k0.links && e !in k0.links && h != e && BR !in {h, e} && VX !in {h, e}
    && Kept(k0, k1) && NewWithin(k0, k1, {BR, VX, h, e}) && MastersExist(k1)
    && (BR !in k0.links ==> Peerless(k1, BR)) && (VX !in k0.links ==> Peerless(k1, VX))
    && h in k1.links && e in k1.links && k1.links[h].peer == Some(e) && k1.links[e].peer == Some(h)
    && k1.paths == k0.paths
  }

  /** Only the default route of the pod's namespace may be new, and it leaves through the pod's end. */
  ghost predicate RoutesKept(k0: Kernel, k1: Kernel, e: Key) {
    || k1.routes == k0.routes
    || (e.ns in k1.routes && k1.routes[e.ns].dev == e.name && k1.routes == k0.routes[e.ns := k1.routes[e.ns]])
  }

  lemma UnpairedIsSound(k0: Kernel, k1: Kernel)
    requires Sound(k0) && Unpaired(k0, k1)
    ensures Sound(k1)
  {
  }

  lemma PairedIsSound(k0: Kernel, k1: Kernel, h: Key, e: Key)
    requires Sound(k0) && Paired(k0, k1, h, e) && RoutesKept(k0, k1, e)
    ensures Sound(k1)
  {
    forall q | q in k1.links && k1.links[q].peer.Some?
      ensures var p := k1.links[q].peer.value; p != q && p in k1.links && k1.links[p].peer == Some(q)
    {
      if q !in {h, e} {
        OldPeersKept(k0, k1, h, e, q);
      }
    }
    forall ns | ns in k1.routes ensures Key(ns, k1.routes[ns].dev) in k1.links {
      if k1.routes != k0.routes && ns == e.ns {
        assert Key(ns, k1.routes[ns].dev) == e;
      } else {
        assert ns in k0.routes && k1.routes[ns] == k0.routes[ns];
      }
    }
  }

  lemma OldPeersKept(k0: Kernel, k1: Kernel, h: Key, e: Key, q: Key)
    requires Sound(k0) && Paired(k0, k1, h, e) && q in k1.links && q !in {h, e} && k1.links[q].peer.Some?
    ensures q in k0.links
    ensures var p := k1.links[q].peer.value; p != q && p in k1.links && k1.links[p].peer == Some(q)
  {
    hide MastersExist;
    assert q in k0.links && k1.links[q].peer == k0.links[q].peer;
    var p := k0.links[q].peer.value;
    assert p in k0.links && k1.links[p].peer == k0.links[p].peer;
  }

  lemma UnpairedGrows(k0: Kernel, k: Kernel, q: Key, l: Link)
    requires Unpaired(k0, k) && q in {BR, VX} && q !in k.links && l.master == None && l.peer == None
    ensures Unpaired(k0, Put(k, q, l))
  {
    assert q !in k0.links;
  }

  /** The bridge and the VXLAN are there, as found or as made here, and nothing else changed. */
  ghost predicate Opened(k0: Kernel, k: Kernel, a: AttachArgs) {
    && (forall q :: q in k.links <==> q in k0.links || q in {BR, VX})
    && (if BR in k0.links then k.links[BR] == k0.links[BR]
        else Assignable(a.bridgeCidr) && k.links[BR] == NewBridge({Parse(a.bridgeCidr).value}))
    && (k.links[VX] == if VX in k0.links then k0.links[VX] else Link(Vxlan(a.physicalIf), true, None, {}, None))
  }

  predicate OpeningSucceeds(k0: Kernel, f: Faults, a: AttachArgs) {
    && (BR in k0.links || (f !! BRIDGE_CALLS && Assignable(a.bridgeCidr)))
    && (VX in k0.links ||
        (f !! VXLAN_CALLS && (Key(HOST, a.physicalIf) in k0.links || a.physicalIf == HOST_BRIDGE_NAME)))
  }

  lemma OpeningStep(k0: Kernel, f: Faults, a: AttachArgs)
    requires k0.cur == HOST && Sound(k0)
    ensures var r := CreateBridge(k0, f, HOST, a.bridgeCidr);
      && Unpaired(k0, r.k) && r.k.cur == HOST
      && var s := CreateVxlan(r.k, f, HOST, a.physicalIf);
      && Unpaired(k0, s.k) && s.k.cur == HOST
      && (r.ok && s.ok <==> OpeningSucceeds(k0, f, a))
      && (r.ok && s.ok ==> Opened(k0, s.k, a))
  {
    hide CreateBridge, CreateVxlan, Parse, Sound, Unpaired;
    NothingDone(k0);
    BridgeStep(k0, f, a.bridgeCidr);
    var k := CreateBridge(k0, f, HOST, a.bridgeCidr).k;
    if BR !in k0.links && BR in k.links { UnpairedGrows(k0, k0, BR, k.links[BR]); }
    VxlanStep(k, f, a.physicalIf);
    if VX !in k.links { UnpairedGrows(k0, k, VX, Link(Vxlan(a.physicalIf), true, None, {}, None)); }
  }

  lemma PairingStep(k0: Kernel, k: Kernel, h: Key, e: Key, up: bool)
    requires Unpaired(k0, k) && BR in k.links && VX in k.links
    requires h !in k.links && e !in k.links && h != e
    ensures Paired(k0, Pair(k, h, e, up), h, e) && RoutesKept(k0, Pair(k, h, e, up), e)
  {
  }

  /** Changing the ends of the pair, its route, or the VXLAN's master keeps the shape. */
  lemma PairedKeepsEnds(k0: Kernel, k: Kernel, h: Key, e: Key, q: Key, l: Link)
    requires Paired(k0, k, h, e) && q in {h, e} && l.peer == k.links[q].peer
    requires l.master == k.links[q].master || (q.ns == HOST && l.master == Some(HOST_BRIDGE_NAME) && BR in k.links)
    ensures Paired(k0, Put(k, q, l), h, e)
  {
  }

  lemma PairedKeepsVxlan(k0: Kernel, k: Kernel, h: Key, e: Key)
    requires Paired(k0, k, h, e) && VX in k.links && BR in k.links
    ensures Paired(k0, Put(k, VX, Mastered(k.links[VX])), h, e)
  {
  }

  function PodKey(k: Kernel, id: PodId): Key
    requires id.netns in k.paths
  {
    Key(k.paths[id.netns], id.ifname)
  }

  /** Every state in which attaching can stop: no pair yet, a pair whose far end still has its
      temporary name, or a pair whose far end is in the pod. */
  ghost predicate Stopped(k0: Kernel, k1: Kernel, a: AttachArgs) {
    var h, t := HostKey(a.id), TmpKey(a.id);
    || Unpaired(k0, k1)
    || (Paired(k0, k1, h, t) && k1.routes == k0.routes && k1.chain == k0.chain)
    || (a.id.netns in k0.paths && Paired(k0, k1, h, PodKey(k0, a.id)) && RoutesKept(k0, k1, PodKey(k0, a.id))
        && ChainKept(k0, k1, a))
  }

  ghost predicate ChainKept(k0: Kernel, k1: Kernel, a: AttachArgs) {
    k1.chain == k0.chain || (Assignable(a.cidr) && k1.chain == k0.chain + [NatRule(a.physicalIf, Parse(a.cidr).value)])
  }

  /** The pair as attaching sets it up: both ends up, the far end with exactly the pod's address. */
  ghost predicate Wired(k: Kernel, h: Key, e: Key, c: Cidr, master: Option<string>) {
    && h in k.links && k.links[h] == Link(VethLink, true, master, {}, Some(e))
    && e in k.links && k.links[e] == Link(VethLink, true, None, {c}, Some(h))
  }

  predicate NamesFree(k: Kernel, id: PodId, e: Key) {
    HostKey(id) !in k.links && TmpKey(id) !in k.links && e !in k.links && e != HostKey(id)
  }

  predicate SetupCalls(f: Faults, a: AttachArgs) {
    f !! VETH_CALLS && GivesRoute(f, a.cidr, a.bridgeCidr) && LeaveNs !in f && f !! ENABLE_CALLS
  }

  function RoutesAfter(k0: Kernel, a: AttachArgs, ns: Ns, taken: bool): map<Ns, Route> {
    if taken && Parse(a.bridgeCidr).Ok? then Routed(k0, ns, a.bridgeCidr, a.id.ifname) else k0.routes
  }

  function RulesAfter(k0: Kernel, a: AttachArgs, sent: bool): seq<Rule> {
    if sent && Assignable(a.cidr) then k0.chain + [NatRule(a.physicalIf, Parse(a.cidr).value)] else k0.chain
  }

  /** The pair and the route are complete, and the process is back in the host's namespace. */
  ghost predicate SetupDone(k0: Kernel, k: Kernel, k1: Kernel, a: AttachArgs, e: Key) {
    && Assignable(a.cidr) && Parse(a.bridgeCidr).Ok? && k1.cur == HOST
    && Wired(k1, HostKey(a.id), e, Parse(a.cidr).value, None)
    && k1.routes == Routed(k0, e.ns, a.bridgeCidr, e.name)
    && BR in k.links && VX in k.links && BR in k1.links && VX in k1.links
    && k1.links[BR] == k.links[BR] && k1.links[VX] == k.links[VX]
  }

  lemma SetupStep(k0: Kernel, k: Kernel, f: Faults, a: AttachArgs)
    requires Sound(k0) && Unpaired(k0, k) && k.cur == HOST && BR in k.links && VX in k.links
    requires a.id.netns in k0.paths
    ensures var r, e := SetupVeth(k, f, HOST, a, k0.paths[a.id.netns]), PodKey(k0, a.id);
      && (r.ok <==> NamesFree(k, a.id, e) && SetupCalls(f, a))
      && Stopped(k0, r.k, a)
      && (HostKey(a.id) in r.k.links <==> HostKey(a.id) in k.links || (VethCreate !in f && TmpKey(a.id) !in k.links))
      && r.k.routes == RoutesAfter(k0, a, e.ns,
           NamesFree(k, a.id, e) && f !! VETH_CALLS && GivesRoute(f, a.cidr, a.bridgeCidr))
      && (r.ok ==> Paired(k0, r.k, HostKey(a.id), e) && RoutesKept(k0, r.k, e))
      && r.k.chain == k0.chain
      && (r.ok ==> SetupDone(k0, k, r.k, a, e))
  {
    hide HostName, TmpName, Sound, CreateVeth, ConfigureContainerVeth, EnableVeth, Parse, Paired, Unpaired, RoutesKept;
    var h, t, e := HostKey(a.id), TmpKey(a.id), PodKey(k0, a.id);
    GeneratedNamesApart(a.id, a.id);
    UnpairedIsSound(k0, k);
    UnpairedFacts(k0, k);
    VethStep(k, f, a.id, e.ns);
    if VethCreate !in f && h !in k.links && t !in k.links {
      PairingStep(k0, k, h, t, false);
      PairFacts(k, h, t, false);
      if CreateVeth(k, f, HOST, a.id, e.ns).ok {
        SetupInPod(k0, k, f, a);
        var r := ConfigureContainerVeth(Pair(k, h, e, true), f, e.ns, e.name, a.cidr, a.bridgeCidr);
        PairedFacts(k0, r.k, h, e);
        PairedFacts(k0, EnableVeth(r.k, f, HOST, h.name).k, h, e);
      }
    }
  }

  lemma UnpairedFacts(k0: Kernel, k: Kernel)
    requires Unpaired(k0, k)
    ensures k.routes == k0.routes && k.paths == k0.paths && k.chain == k0.chain
  {
  }

  lemma PairFacts(k: Kernel, h: Key, e: Key, up: bool)
    requires h != e
    ensures var p := Pair(k, h, e, up);
      && p.routes == k.routes && p.paths == k.paths && p.chain == k.chain && p.cur == k.cur
      && h in p.links && p.links[h] == Link(VethLink, false, None, {}, Some(e))
      && e in p.links && p.links[e] == Link(VethLink, up, None, {}, Some(h))
      && forall q :: q in k.links && q != h && q != e ==> q in p.links && p.links[q] == k.links[q]
  {
  }

  /** From the moment the far end is in the pod. */
  lemma SetupInPod(k0: Kernel, k: Kernel, f: Faults, a: AttachArgs)
    requires Sound(k0) && Unpaired(k0, k) && k.cur == HOST && BR in k.links && VX in k.links
    requires a.id.netns in k0.paths && NamesFree(k, a.id, PodKey(k0, a.id))
    ensures var h, e := HostKey(a.id), PodKey(k0, a.id);
      var r := ConfigureContainerVeth(Pair(k, h, e, true), f, e.ns, e.name, a.cidr, a.bridgeCidr);
      var s := EnableVeth(r.k, f, HOST, h.name);
      && (r.ok <==> GivesRoute(f, a.cidr, a.bridgeCidr) && LeaveNs !in f)
      && Paired(k0, r.k, h, e) && RoutesKept(k0, r.k, e) && r.k.chain == k0.chain
      && Paired(k0, s.k, h, e) && RoutesKept(k0, s.k, e) && s.k.chain == k0.chain
      && r.k.routes == s.k.routes == RoutesAfter(k0, a, e.ns, GivesRoute(f, a.cidr, a.bridgeCidr))
      && (s.ok <==> f !! ENABLE_CALLS)
      && (r.ok && s.ok ==> SetupDone(k0, k, s.k, a, e))
  {
    hide HostName, TmpName, Sound, ConfigureContainerVeth, EnableVeth, Parse, Paired, Unpaired, RoutesKept;
    var h, e := HostKey(a.id), PodKey(k0, a.id);
    var p := Pair(k, h, e, true);
    UnpairedFacts(k0, k);
    PairingStep(k0, k, h, e, true);
    PairFacts(k, h, e, true);
    PairedFacts(k0, p, h, e);
    ConfigureStep(p, f, e.ns, e.name, a.cidr, a.bridgeCidr);
    var r := ConfigureContainerVeth(p, f, e.ns, e.name, a.cidr, a.bridgeCidr);
    if GivesAddress(f, a.cidr) {
      PairedKeepsEnds(k0, p, h, e, e, p.links[e].(addrs := {Parse(a.cidr).value}));
    }
    PairedIsAboutLinks(k0, Kernel(r.k.links, p.routes, p.paths, p.cur, p.chain), r.k, h, e);
    NewRouteIsKept(k0, p, r.k, e);
    PairedFacts(k0, r.k, h, e);
    EnableStep(r.k, f, h.name);
    PairedKeepsEnds(k0, r.k, h, e, h, r.k.links[h].(up := true));
    NewRouteIsKept(k0, p, EnableVeth(r.k, f, HOST, h.name).k, e);
  }

  lemma PairedFacts(k0: Kernel, k: Kernel, h: Key, e: Key)
    requires Paired(k0, k, h, e)
    ensures h in k.links && e in k.links && h != e && BR !in {h, e} && VX !in {h, e}
    ensures k.links[h].peer == Some(e) && k.links[e].peer == Some(h) && k.paths == k0.paths
  {
  }

  lemma PairedIsAboutLinks(k0: Kernel, k: Kernel, k': Kernel, h: Key, e: Key)
    requires Paired(k0, k, h, e) && k'.links == k.links && k'.paths == k.paths
    ensures Paired(k0, k', h, e)
  {
  }

  lemma NewRouteIsKept(k0: Kernel, p: Kernel, k: Kernel, e: Key)
    requires p.routes == k0.routes
    requires k.routes == p.routes || exists g :: k.routes == p.routes[e.ns := Route(g, e.name)]
    ensures RoutesKept(k0, k, e)
  {
  }

  // ---------------------------------------------------------------- attaching as a whole

  predicate AttachSucceeds(k0: Kernel, f: Faults, a: AttachArgs) { SendsRule(k0, f, a) && NftAck !in f }

  /** Attaching gets as far as installing its NAT rule. */
  predicate SendsRule(k0: Kernel, f: Faults, a: AttachArgs) {
    && f !! {SocketAlloc, SocketConnect, OpenNetns} && a.id.netns in k0.paths
    && OpeningSucceeds(k0, f, a)
    && NamesFree(k0, a.id, PodKey(k0, a.id)) && PodKey(k0, a.id) !in {BR, VX}
    && SetupCalls(f, a)
    && f !! ENSLAVE_CALLS && (BR in k0.links ==> k0.links[BR].kind == BridgeLink)
    && f !! {NftOpen, NftBind, NftAlloc, NftSend}
  }

  predicate Reaches(k0: Kernel, f: Faults, a: AttachArgs) {
    f !! {SocketAlloc, SocketConnect, OpenNetns} && a.id.netns in k0.paths && OpeningSucceeds(k0, f, a)
  }

  /** The veth pair gets created. */
  predicate MakesPair(k0: Kernel, f: Faults, a: AttachArgs) {
    Reaches(k0, f, a) && VethCreate !in f && HostKey(a.id) !in k0.links && TmpKey(a.id) !in k0.links
  }

  /** Attaching gets as far as replacing the default route of the pod's namespace. */
  predicate TakesRoute(k0: Kernel, f: Faults, a: AttachArgs) {
    && Reaches(k0, f, a)
    && NamesFree(k0, a.id, PodKey(k0, a.id)) && PodKey(k0, a.id) !in {BR, VX}
    && f !! VETH_CALLS && GivesRoute(f, a.cidr, a.bridgeCidr)
  }

  /** Everything a successful attach sets up. */
  ghost predicate Attached(k0: Kernel, k1: Kernel, a: AttachArgs) {
    && a.id.netns in k0.paths && Assignable(a.cidr) && Parse(a.bridgeCidr).Ok?
    && var h, e := HostKey(a.id), PodKey(k0, a.id);
    && Paired(k0, k1, h, e) && k1.cur == HOST
    && Wired(k1, h, e, Parse(a.cidr).value, Some(HOST_BRIDGE_NAME))
    && k1.routes == Routed(k0, e.ns, a.bridgeCidr, e.name)
    && BR in k1.links && VX in k1.links && k1.links[VX].master == Some(HOST_BRIDGE_NAME)
    && (BR !in k0.links ==> Assignable(a.bridgeCidr) && k1.links[BR] == NewBridge({Parse(a.bridgeCidr).value}))
    && (VX !in k0.links ==> k1.links[VX].kind == Vxlan(a.physicalIf) && k1.links[VX].up)
    && k1.chain == k0.chain + [NatRule(a.physicalIf, Parse(a.cidr).value)]
  }

  lemma OpenedNames(k0: Kernel, k: Kernel, a: AttachArgs, e: Key)
    requires Opened(k0, k, a)
    ensures HostKey(a.id) in k.links <==> HostKey(a.id) in k0.links
    ensures TmpKey(a.id) in k.links <==> TmpKey(a.id) in k0.links
    ensures NamesFree(k, a.id, e) <==> NamesFree(k0, a.id, e) && e !in {BR, VX}
  {
    hide HostName, TmpName;
    GeneratedNamesApart(a.id, a.id);
  }

  lemma EnslavingStep(k0: Kernel, k2: Kernel, k: Kernel, f: Faults, a: AttachArgs)
    requires a.id.netns in k0.paths && Opened(k0, k2, a)
    requires Paired(k0, k, HostKey(a.id), PodKey(k0, a.id)) && RoutesKept(k0, k, PodKey(k0, a.id))
    requires SetupDone(k0, k2, k, a, PodKey(k0, a.id)) && k.chain == k0.chain
    ensures var h, e := HostKey(a.id), PodKey(k0, a.id);
      var r := AttachIfsToBridge(k, f, HOST, h.name);
      && (r.ok <==> f !! ENSLAVE_CALLS && (BR in k0.links ==> k0.links[BR].kind == BridgeLink))
      && Paired(k0, r.k, h, e) && RoutesKept(k0, r.k, e) && r.k.chain == k0.chain && r.k.routes == k.routes
      && (r.ok ==> Attached(k0, AddRule(r.k, NatRule(a.physicalIf, Parse(a.cidr).value)).k, a))
  {
    hide HostName, AttachIfsToBridge, Parse, NatRule, Paired, Vxlan;
    var h, e := HostKey(a.id), PodKey(k0, a.id);
    GeneratedNamesApart(a.id, a.id);
    EnslaveStep(k, f, h.name);
    PairedFacts(k0, k, h, e);
    PairedKeepsVxlan(k0, k, h, e);
    var half := Put(k, VX, Mastered(k.links[VX]));
    PairedKeepsEnds(k0, half, h, e, h, Mastered(half.links[h]));
    var r := AttachIfsToBridge(k, f, HOST, h.name);
    assert Paired(k0, r.k, h, e);
    PairedIsAboutLinks(k0, r.k, AddRule(r.k, NatRule(a.physicalIf, Parse(a.cidr).value)).k, h, e);
  }

  /** What follows once the bridge and the VXLAN are there. */
  function Tail(k: Kernel, f: Faults, a: AttachArgs, ns: Ns): Outcome
    requires ShiftDefined(a.cidr)
  {
    var k :- SetupVeth(k, f, HOST, a, ns);
    var k :- AttachIfsToBridge(k, f, HOST, HostName(a.id));
    InstallRule(k, f, a.physicalIf, a.cidr)
  }

  lemma TailStep(k0: Kernel, k: Kernel, f: Faults, a: AttachArgs)
    requires Sound(k0) && ShiftDefined(a.cidr) && a.id.netns in k0.paths
    requires Unpaired(k0, k) && k.cur == HOST && Opened(k0, k, a)
    ensures var r, e := Tail(k, f, a, k0.paths[a.id.netns]), PodKey(k0, a.id);
      var free := NamesFree(k0, a.id, e) && e !in {BR, VX};
      && (r.ok <==> free && SetupCalls(f, a) && f !! ENSLAVE_CALLS
                    && (BR in k0.links ==> k0.links[BR].kind == BridgeLink) && f !! NFT_CALLS)
      && Stopped(k0, r.k, a)
      && (r.ok ==> Attached(k0, r.k, a))
      && (HostKey(a.id) in r.k.links <==>
           HostKey(a.id) in k0.links || (VethCreate !in f && TmpKey(a.id) !in k0.links))
      && r.k.routes == RoutesAfter(k0, a, e.ns, free && f !! VETH_CALLS && GivesRoute(f, a.cidr, a.bridgeCidr))
      && r.k.chain == RulesAfter(k0, a, free && SetupCalls(f, a) && f !! ENSLAVE_CALLS
                                        && (BR in k0.links ==> k0.links[BR].kind == BridgeLink)
                                        && f !! {NftOpen, NftBind, NftAlloc, NftSend})
  {
    hide HostName, TmpName, Sound, SetupVeth, AttachIfsToBridge, InstallRule, Parse, Paired, Unpaired, RoutesKept,
      Opened, Attached, SetupDone, NamesFree, NatRule, RoutesAfter, GivesRoute;
    var h, e := HostKey(a.id), PodKey(k0, a.id);
    OpenedFacts(k0, k, a);
    OpenedNames(k0, k, a, e);
    SetupStep(k0, k, f, a);
    var s := SetupVeth(k, f, HOST, a, e.ns);
    if s.ok {
      PairedFacts(k0, s.k, h, e);
      EnslavingStep(k0, k, s.k, f, a);
      SetupNeedsAddress(k0, k, s.k, a, e);
      var m := AttachIfsToBridge(s.k, f, HOST, h.name);
      PairedFacts(k0, m.k, h, e);
      RuleStep(m.k, f, a.physicalIf, a.cidr);
      var last := InstallRule(m.k, f, a.physicalIf, a.cidr);
      PairedIsAboutLinks(k0, m.k, last.k, h, e);
      PairedFacts(k0, last.k, h, e);
      RoutesKeptIsAboutRoutes(k0, m.k, last.k, e);
    }
  }

  /** What attaching makes of `k0`: exactly when it succeeds, what is then set up, the only states in
      which it can stop otherwise, whether the pair exists, and the default routes. */
  ghost predicate AttachResult(k0: Kernel, k1: Kernel, ok: bool, f: Faults, a: AttachArgs) {
    && (ok <==> AttachSucceeds(k0, f, a))
    && (ok ==> Attached(k0, k1, a))
    && Stopped(k0, k1, a)
    && (HostKey(a.id) in k1.links <==> HostKey(a.id) in k0.links || MakesPair(k0, f, a))
    && (k1.routes == if TakesRoute(k0, f, a) then RoutesAfter(k0, a, k0.paths[a.id.netns], true) else k0.routes)
    && (k1.chain == if SendsRule(k0, f, a) then k0.chain + [NatRule(a.physicalIf, Parse(a.cidr).value)] else k0.chain)
  }

  lemma AttachStep(k0: Kernel, f: Faults, a: AttachArgs)
    requires Sound(k0) && k0.cur == HOST && ShiftDefined(a.cidr)
    ensures AttachResult(k0, Attach(k0, f, a).k, Attach(k0, f, a).ok, f, a)
  {
    hide HostName, TmpName, Sound, CreateBridge, CreateVxlan, SetupVeth, AttachIfsToBridge, InstallRule, Parse,
      Paired, Unpaired, RoutesKept, Opened, OpeningSucceeds, Attached, NamesFree, SetupCalls, RoutesAfter, GivesRoute;
    NothingDone(k0);
    if f !! {SocketAlloc, SocketConnect, OpenNetns} && a.id.netns in k0.paths {
      OpeningStep(k0, f, a);
      var k1 := CreateBridge(k0, f, HOST, a.bridgeCidr).k;
      UnpairedFacts(k0, k1);
      UnpairedHasNoPair(k0, k1, a.id);
      var k2 := CreateVxlan(k1, f, HOST, a.physicalIf).k;
      UnpairedFacts(k0, k2);
      UnpairedHasNoPair(k0, k2, a.id);
      if OpeningSucceeds(k0, f, a) {
        TailStep(k0, k2, f, a);
        RoutesAfterNothing(k0, a);
        SetupNeedsText(f, a);
        assert Attach(k0, f, a) == Tail(k2, f, a, k0.paths[a.id.netns]);
      }
    }
  }

  lemma SetupNeedsText(f: Faults, a: AttachArgs)
    ensures SetupCalls(f, a) ==> Assignable(a.cidr)
  {
    hide Parse;
  }

  lemma RoutesAfterNothing(k0: Kernel, a: AttachArgs)
    ensures forall ns :: RoutesAfter(k0, a, ns, false) == k0.routes
  {
  }

  lemma UnpairedHasNoPair(k0: Kernel, k: Kernel, id: PodId)
    requires Unpaired(k0, k)
    ensures HostKey(id) in k.links <==> HostKey(id) in k0.links
  {
    hide HostName, TmpName, MastersExist;
    GeneratedNamesApart(id, id);
  }

  lemma NothingDone(k0: Kernel)
    requires Sound(k0)
    ensures Unpaired(k0, k0)
  {
  }

  lemma OpenedFacts(k0: Kernel, k: Kernel, a: AttachArgs)
    requires Opened(k0, k, a)
    ensures BR in k.links && VX in k.links
  {
  }

  lemma SetupNeedsAddress(k0: Kernel, k: Kernel, k1: Kernel, a: AttachArgs, e: Key)
    requires SetupDone(k0, k, k1, a, e)
    ensures Assignable(a.cidr)
  {
  }

  lemma RoutesKeptIsAboutRoutes(k0: Kernel, k: Kernel, k': Kernel, e: Key)
    requires RoutesKept(k0, k, e) && k'.routes == k.routes
    ensures RoutesKept(k0, k', e)
  {
  }
}
