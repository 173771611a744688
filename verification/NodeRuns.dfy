/** Any sequence of ADD and DEL on one node, with a fault possible at every call: what holds of every
    live pod afterwards. */
module NodeRuns {
  import opened Words
  import opened Cidrs
  import opened Naming
  import opened Nft
  import opened Kernels
  import opened Net
  import opened NetSteps
  import opened NetTheorems
  import opened Isolation
  import opened Leftovers
  import opened Ip
  import opened IpRuns
  import opened Cmd
  import Cluster

  datatype Event =
    | Add(id: PodId, faults: Faults, env: Env)
    | Del(id: PodId, faults: Faults)

  /** A pod whose ADD succeeded and whose host name was not deleted since.  `end` is its interface,
      `number` its place in the order of addresses, and `routed` says that no later ADD got as far as
      installing a default route in its network namespace. */
  datatype Pod = Pod(id: PodId, end: Key, number: nat, routed: bool)

  /** The node, the live pods by host name, and how often the allocator's counter moved. */
  datatype World = World(node: Node, live: map<string, Pod>, advances: nat)

  /** The ADD names the namespace `ns`. */
  predicate Names(k: Kernel, id: PodId, ns: Ns) {
    id.netns in k.paths && k.paths[id.netns] == ns
  }

  function Reroute(live: map<string, Pod>, k: Kernel, id: PodId): map<string, Pod> {
    map h | h in live :: if Names(k, id, live[h].end.ns) then live[h].(routed := false) else live[h]
  }

  /** The ADD gets an address and then as far as replacing a default route. */
  predicate ReplacesRoute(s: Settings, n: Node, id: PodId, f: Faults, env: Env)
    requires Defined(s)
  {
    && EnableNetfilter !in f && Bridge(s.net).Ok? && Acquire(n.file, s.net, env).result.Ok?
    && TakesRoute(n.k.(cur := HOST), f,
         AttachArgs(id, Acquire(n.file, s.net, env).result.value, Bridge(s.net).value, s.physicalIf))
  }

  /** The pod has `name` as one of its two interfaces in the host's namespace. */
  predicate Touched(h: string, p: Pod, name: string) {
    h == name || p.end == Key(HOST, name)
  }

  function Survivors(live: map<string, Pod>, name: string): map<string, Pod> {
    map h | h in live && !Touched(h, live[h], name) :: live[h]
  }

  function Step(s: Settings, w: World, e: Event): World
    requires Defined(s)
  {
    match e
    case Add(id, f, env) =>
      var r := CmdAdd(s, w.node, id, f, env);
      var live := if ReplacesRoute(s, w.node, id, f, env) then Reroute(w.live, w.node.k, id) else w.live;
      var advances := w.advances + Moves(w.node.file, r.node.file);
      if r.ok && id.netns in w.node.k.paths
      then World(r.node, live[HostName(id) := Pod(id, PodKey(w.node.k, id), advances, true)], advances)
      else World(r.node, live, advances)
    case Del(id, f) =>
      var r := CmdDel(w.node.k, id, f);
      World(w.node.(k := r.k), if r.ok then Survivors(w.live, HostName(id)) else w.live, w.advances)
  }

  function Run(s: Settings, w: World, events: seq<Event>): World
    requires Defined(s)
  {
    if events == [] then w
    else Step(s, Run(s, w, events[..|events| - 1]), events[|events| - 1])
  }

  predicate NoFalseAbsence(events: seq<Event>) {
    forall i :: 0 <= i < |events| && events[i].Add? ==> !events[i].env.existsRefused
  }

  /** A node the plugin never ran on. */
  ghost predicate Untouched(w: World) {
    && Sound(w.node.k) && BR !in w.node.k.links && VX !in w.node.k.links && w.node.k.chain == []
    && w.node.file == None && w.live == map[] && w.advances == 0
  }

  // ---------------------------------------------------------------- the invariant

  function BridgeCidr(s: Settings): Cidr
    requires Parse(s.net.clusterCidr).Ok?
  {
    PodCidr(s.net, Nth(Base(s.net), 0))
  }

  ghost predicate BridgeAsMade(s: Settings, k: Kernel) {
    BR in k.links ==>
      (k.links[BR] == NewBridge({}) || (Parse(s.net.clusterCidr).Ok? && k.links[BR] == NewBridge({BridgeCidr(s)})))
  }

  /** One live pod: both ends up, the host end on the bridge, the pod end with exactly its address, and
      the default route of its namespace leads through its end to the bridge's address exactly while no
      later ADD replaced it. */
  ghost predicate PodWorks(s: Settings, k: Kernel, h: string, p: Pod) {
    && Parse(s.net.clusterCidr).Ok? && h == HostName(p.id)
    && Names(k, p.id, p.end.ns) && p.end.name == p.id.ifname
    && Wired(k, Key(HOST, h), p.end, PodCidr(s.net, Nth(Base(s.net), p.number)), Some(HOST_BRIDGE_NAME))
    && BR in k.links && VX in k.links && k.links[VX].master == Some(HOST_BRIDGE_NAME)
    && (p.routed <==> p.end.ns in k.routes && k.routes[p.end.ns] == Route(BridgeCidr(s).addr, p.end.name))
  }

  ghost predicate PodsWork(s: Settings, k: Kernel, live: map<string, Pod>) {
    forall h :: h in live ==> PodWorks(s, k, h, live[h])
  }

  ghost predicate NumbersApart(live: map<string, Pod>, advances: nat) {
    && (forall h :: h in live ==> 0 < live[h].number <= advances)
    && (forall h, i :: h in live && i in live && h != i ==> live[h].number != live[i].number)
  }

  /** Every NAT rule was made for one of the addresses numbered so far. */
  ghost predicate RulesNumbered(s: Settings, chain: seq<Rule>, advances: nat)
    requires Defined(s)
  {
    forall i :: 0 <= i < |chain| ==> RuleNumbered(s, chain[i], advances)
  }

  ghost predicate RuleNumbered(s: Settings, r: Rule, advances: nat)
    requires Defined(s)
  {
    Parse(s.net.clusterCidr).Ok? &&
    exists n :: 0 < n <= advances && r == NatRule(s.physicalIf, PodCidr(s.net, Nth(Base(s.net), n)))
  }

  ghost predicate Healthy(s: Settings, w: World)
    requires Defined(s)
  {
    && Sound(w.node.k) && Peerless(w.node.k, VX) && BridgeAsMade(s, w.node.k)
    && PodsWork(s, w.node.k, w.live) && NumbersApart(w.live, w.advances)
    && CounterShows(s.net, w.node.file, w.advances)
    && RulesNumbered(s, w.node.k.chain, w.advances)
  }

  // ---------------------------------------------------------------- the counter

  lemma CounterStep(s: Settings, file: Option<string>, env: Env, advances: nat)
    requires CounterShows(s.net, file, advances) && (file.Some? ==> !env.existsRefused)
    ensures var a := Acquire(file, s.net, env);
      var after := advances + Moves(file, a.file);
      && CounterShows(s.net, a.file, after)
      && (a.result.Ok? ==> after == advances + 1)
      && (a.result.Ok? ==> Parse(s.net.clusterCidr).Ok?)
      && (a.result.Ok? ==> a.result == Ok(Print(PodCidr(s.net, Nth(Base(s.net), after)))))
  {
    hide Acquire, Abs, Parse, Increment, Nth, Print, PodCidr;
    AcquireStepsTheCounter(file, s.net, env);
    AcquireSucceedsExactlyWhen(file, s.net, env);
    NthStep(Base(s.net), advances);
  }

  lemma NumbersStayApart(live: map<string, Pod>, advances: nat, more: nat)
    requires NumbersApart(live, advances) && advances <= more
    ensures NumbersApart(live, more)
  {
  }

  lemma RulesStayNumbered(s: Settings, chain: seq<Rule>, advances: nat, more: nat)
    requires Defined(s) && RulesNumbered(s, chain, advances) && advances <= more
    ensures RulesNumbered(s, chain, more)
  {
    hide Parse, NatRule, PodCidr, Nth, Base, FitsBuffers;
    forall i | 0 <= i < |chain| ensures RuleNumbered(s, chain[i], more) {
      assert RuleNumbered(s, chain[i], advances);
    }
  }

  // ---------------------------------------------------------------- pods across one attach or detach

  lemma EndsAreNotShared(s: Settings, k: Kernel, h: string, p: Pod)
    requires Sound(k) && PodWorks(s, k, h, p) && Peerless(k, VX) && BridgeAsMade(s, k)
    ensures BR !in {Key(HOST, h), p.end} && VX !in {Key(HOST, h), p.end}
  {
    hide Parse, HostName, Base, Nth, MastersExist;
    GeneratedNamesApart(p.id, p.id);
  }

  /** An ADD, wherever it stops, takes nothing from a working pod but its default route, and that only
      when it gets as far as installing one in the pod's namespace. */
  lemma PodSurvivesAttach(s: Settings, k: Kernel, f: Faults, a: AttachArgs, h: string, p: Pod)
    requires Sound(k) && k.cur == HOST && ShiftDefined(a.cidr)
    requires PodWorks(s, k, h, p) && Peerless(k, VX) && BridgeAsMade(s, k)
    ensures PodWorks(s, Attach(k, f, a).k, h,
      if TakesRoute(k, f, a) && Names(k, a.id, p.end.ns) then p.(routed := false) else p)
  {
    hide Attach, Parse, HostName, TmpName, Base, Nth, Sound, Unpaired, BridgeAsMade, PodCidr, OpeningSucceeds,
      GivesRoute;
    TakenRouteHasGateway(k, f, a);
    EndsAreNotShared(s, k, h, p);
    AttachIsolates(k, f, a);
    AttachStep(k, f, a);
    StoppedPaths(k, Attach(k, f, a).k, a);
  }

  lemma TakenRouteHasGateway(k: Kernel, f: Faults, a: AttachArgs)
    ensures TakesRoute(k, f, a) ==> Parse(a.bridgeCidr).Ok? && PodKey(k, a.id) !in k.links
  {
    hide Parse, HostName, TmpName, OpeningSucceeds;
  }

  lemma PodSurvivesDetach(s: Settings, k: Kernel, f: Faults, id: PodId, h: string, p: Pod)
    requires Sound(k) && k.cur == HOST
    requires PodWorks(s, k, h, p) && Peerless(k, VX) && BridgeAsMade(s, k)
    requires !Detach(k, f, id).ok || !Touched(h, p, HostName(id))
    ensures PodWorks(s, Detach(k, f, id).k, h, p)
  {
    hide Detach, Parse, HostName, Base, Nth, BridgeAsMade, PodCidr, MastersExist;
    EndsAreNotShared(s, k, h, p);
    DetachIsolates(k, f, id);
    if Detach(k, f, id).ok {
      InfrastructureStays(s, k, id);
      var gone := Gone(k.links, HostKey(id));
      assert Key(HOST, h) !in gone && p.end !in gone;
    }
  }

  /** Deleting a pair never reaches the bridge or the VXLAN. */
  lemma InfrastructureStays(s: Settings, k: Kernel, id: PodId)
    requires Sound(k) && Peerless(k, VX) && BridgeAsMade(s, k) && HostKey(id) in k.links
    ensures BR in k.links ==> BR !in Gone(k.links, HostKey(id))
    ensures VX in k.links ==> VX !in Gone(k.links, HostKey(id))
  {
    hide HostName, Parse, Base, Nth, PodCidr, MastersExist;
    GeneratedNamesApart(id, id);
  }

  lemma NewPodWorks(s: Settings, k0: Kernel, k1: Kernel, a: AttachArgs, n: nat)
    requires Attached(k0, k1, a) && Parse(s.net.clusterCidr).Ok?
    requires Parse(a.cidr) == Ok(PodCidr(s.net, Nth(Base(s.net), n)))
    requires Parse(a.bridgeCidr) == Ok(BridgeCidr(s))
    ensures PodWorks(s, k1, HostName(a.id), Pod(a.id, PodKey(k0, a.id), n, true))
  {
    hide HostName, TmpName, Parse, Base, Nth, NatRule, MastersExist, Kept, NewWithin, PodCidr;
  }

  /** The bridge never changes once it exists, whatever ADD or DEL comes and wherever it stops: an
      address missing after its creation is missing for good. */
  lemma BridgeIsDecidedOnce(s: Settings, w: World, e: Event)
    requires Defined(s) && Sound(w.node.k) && BridgeAsMade(s, w.node.k) && Peerless(w.node.k, VX)
    ensures BR in w.node.k.links ==>
      BR in Step(s, w, e).node.k.links && Step(s, w, e).node.k.links[BR] == w.node.k.links[BR]
  {
    hide Attach, Detach, Parse, Sound, Acquire, Bridge, HostName, Base, Nth, FitsBuffers, Abs, PodCidr;
    var k := w.node.k.(cur := HOST);
    SoundAnywhere(w.node.k, HOST);
    match e
    case Add(id, f, env) =>
      var a := Acquire(w.node.file, s.net, env);
      if EnableNetfilter !in f && Bridge(s.net).Ok? && a.result.Ok? {
        AcquiredIsShiftable(s, w.node.file, env);
        BridgeAddressIsDecidedAtCreation(k, f, AttachArgs(id, a.result.value, Bridge(s.net).value, s.physicalIf));
      }
    case Del(id, f) =>
      DetachIsolates(k, f, id);
      if BR in k.links && Detach(k, f, id).ok { InfrastructureStays(s, k, id); }
  }

  // ---------------------------------------------------------------- one event

  lemma StoppedPeerless(k0: Kernel, k1: Kernel, a: AttachArgs)
    requires Stopped(k0, k1, a) && Peerless(k0, VX)
    ensures Peerless(k1, VX)
  {
    hide HostName, TmpName, NewWithin, MastersExist, RoutesKept, Parse;
  }

  lemma StoppedRules(s: Settings, k0: Kernel, k1: Kernel, a: AttachArgs, n: nat)
    requires Defined(s) && Parse(s.net.clusterCidr).Ok? && n > 0
    requires Stopped(k0, k1, a) && RulesNumbered(s, k0.chain, n)
    requires a.physicalIf == s.physicalIf && Parse(a.cidr) == Ok(PodCidr(s.net, Nth(Base(s.net), n)))
    ensures RulesNumbered(s, k1.chain, n)
  {
    hide HostName, TmpName, Kept, NewWithin, MastersExist, RoutesKept, Parse, NatRule, Base, Nth, FitsBuffers;
    var r := NatRule(s.physicalIf, PodCidr(s.net, Nth(Base(s.net), n)));
    assert RuleNumbered(s, r, n);
    assert k1.chain == k0.chain || k1.chain == k0.chain + [r];
  }

  /** Texts an ADD works with parse back to the addresses they were printed for. */
  lemma AddTexts(s: Settings, w: World, env: Env)
    requires CounterShows(s.net, w.node.file, w.advances) && (w.node.file.Some? ==> !env.existsRefused)
    requires Bridge(s.net).Ok? && Acquire(w.node.file, s.net, env).result.Ok?
    ensures Parse(s.net.clusterCidr).Ok?
    ensures Parse(Bridge(s.net).value) == Ok(BridgeCidr(s))
    ensures Parse(Acquire(w.node.file, s.net, env).result.value) == Ok(PodCidr(s.net, Nth(Base(s.net), w.advances + 1)))
  {
    hide Acquire, Parse, Print, Base, Nth, Bridge, Abs, PodCidr;
    CounterStep(s, w.node.file, env, w.advances);
    BridgeAddress(s.net);
    RoundTrip(BridgeCidr(s));
    RoundTrip(PodCidr(s.net, Nth(Base(s.net), w.advances + 1)));
  }

  ghost predicate KernelHealthy(s: Settings, k: Kernel, live: map<string, Pod>, n: nat)
    requires Defined(s)
  {
    && Sound(k) && Peerless(k, VX) && BridgeAsMade(s, k) && PodsWork(s, k, live) && RulesNumbered(s, k.chain, n)
  }

  /** Attaching `id` added a pod under a host name that no live pod had. */
  ghost predicate AddsPod(s: Settings, k: Kernel, k1: Kernel, live: map<string, Pod>, id: PodId, n: nat) {
    && id.netns in k.paths && HostName(id) !in live
    && PodWorks(s, k1, HostName(id), Pod(id, PodKey(k, id), n, true))
  }

  /** The live pods after attaching, apart from the one it may have added. */
  function LiveAfter(live: map<string, Pod>, k: Kernel, f: Faults, a: AttachArgs): map<string, Pod> {
    if TakesRoute(k, f, a) then Reroute(live, k, a.id) else live
  }

  /** The kernel's part of an ADD that got an address. */
  lemma AttachKeepsHealthy(s: Settings, k: Kernel, live: map<string, Pod>, f: Faults, a: AttachArgs, n: nat)
    requires Defined(s) && Parse(s.net.clusterCidr).Ok? && ShiftDefined(a.cidr) && n > 0
    requires KernelHealthy(s, k, live, n) && k.cur == HOST
    requires a.physicalIf == s.physicalIf && Parse(a.cidr) == Ok(PodCidr(s.net, Nth(Base(s.net), n)))
    requires Parse(a.bridgeCidr) == Ok(BridgeCidr(s))
    ensures KernelHealthy(s, Attach(k, f, a).k, LiveAfter(live, k, f, a), n)
    ensures Attach(k, f, a).ok ==> AddsPod(s, k, Attach(k, f, a).k, live, a.id, n)
  {
    hide Attach, Parse, HostName, Base, Nth, Sound, BridgeAsMade, PodCidr, Peerless, RulesNumbered, PodWorks, Stopped,
      Attached, FitsBuffers, Paired, TakesRoute;
    var k1 := Attach(k, f, a).k;
    AttachKeepsSound(k, f, a);
    AttachStep(k, f, a);
    StoppedPeerless(k, k1, a);
    StoppedRules(s, k, k1, a, n);
    MadeBridge(s, k, f, a);
    forall h | h in live ensures PodWorks(s, k1, h, LiveAfter(live, k, f, a)[h]) {
      PodSurvivesAttach(s, k, f, a, h, live[h]);
    }
    if Attach(k, f, a).ok {
      AttachedNamespace(k, k1, a);
      NewPodWorks(s, k, k1, a, n);
      if HostName(a.id) in live {
        LiveHasHostLink(s, k, HostName(a.id), live[HostName(a.id)]);
        AttachIsolates(k, f, a);
        assert false;
      }
    }
  }

  lemma AttachedNamespace(k0: Kernel, k1: Kernel, a: AttachArgs)
    requires Attached(k0, k1, a)
    ensures a.id.netns in k0.paths
  {
  }

  lemma LiveHasHostLink(s: Settings, k: Kernel, h: string, p: Pod)
    requires PodWorks(s, k, h, p)
    ensures Key(HOST, h) in k.links
  {
  }

  lemma MadeBridge(s: Settings, k: Kernel, f: Faults, a: AttachArgs)
    requires Sound(k) && k.cur == HOST && ShiftDefined(a.cidr) && BridgeAsMade(s, k)
    requires Parse(s.net.clusterCidr).Ok? && Parse(a.bridgeCidr) == Ok(BridgeCidr(s))
    ensures BridgeAsMade(s, Attach(k, f, a).k)
  {
    hide Attach, Parse, Base, Nth, Sound, PodCidr;
    BridgeAddressIsDecidedAtCreation(k, f, a);
  }

  lemma DetachKeepsHealthy(s: Settings, k: Kernel, live: map<string, Pod>, f: Faults, id: PodId, n: nat)
    requires Defined(s) && KernelHealthy(s, k, live, n) && k.cur == HOST
    ensures var r := Detach(k, f, id);
      KernelHealthy(s, r.k, if r.ok then Survivors(live, HostName(id)) else live, n)
  {
    hide Detach, Parse, HostName, Base, Nth, Sound, PodCidr, RulesNumbered, PodWorks, FitsBuffers;
    var r := Detach(k, f, id);
    DetachKeepsSound(k, f, id);
    DetachIsolates(k, f, id);
    if r.ok {
      InfrastructureStays(s, k, id);
    }
    forall h | h in live && (!r.ok || !Touched(h, live[h], HostName(id))) ensures PodWorks(s, r.k, h, live[h]) {
      PodSurvivesDetach(s, k, f, id, h, live[h]);
    }
  }

  lemma RerouteKeepsNumbers(live: map<string, Pod>, k: Kernel, id: PodId, n: nat)
    requires NumbersApart(live, n)
    ensures NumbersApart(Reroute(live, k, id), n)
  {
  }

  lemma NewNumberIsApart(live: map<string, Pod>, h: string, p: Pod, n: nat)
    requires NumbersApart(live, n) && p.number == n + 1 && h !in live
    ensures NumbersApart(live[h := p], n + 1)
  {
  }

  lemma SurvivorsKeepNumbers(live: map<string, Pod>, name: string, n: nat)
    requires NumbersApart(live, n)
    ensures NumbersApart(Survivors(live, name), n)
  {
  }

  lemma HealthyAnywhere(s: Settings, k: Kernel, live: map<string, Pod>, n: nat)
    requires Defined(s) && KernelHealthy(s, k, live, n)
    ensures KernelHealthy(s, k.(cur := HOST), live, n)
  {
    hide Parse, HostName, Base, Nth, PodCidr, FitsBuffers, RulesNumbered;
    forall h | h in live ensures PodWorks(s, k.(cur := HOST), h, live[h]) {
      assert PodWorks(s, k, h, live[h]);
    }
  }

  lemma AddKeepsHealthy(s: Settings, w: World, e: Event)
    requires Defined(s) && Healthy(s, w) && e.Add? && !e.env.existsRefused
    ensures Healthy(s, Step(s, w, e))
  {
    hide Attach, Parse, HostName, Base, Nth, PodCidr, RulesNumbered, PodsWork, Acquire, Bridge, FitsBuffers,
      Abs, Sound, Peerless, BridgeAsMade, NumbersApart, CounterShows, Reroute, Moves, PodWorks, Print, TakesRoute;
    var k, cur := w.node.k, w.node.k.(cur := HOST);
    var a := Acquire(w.node.file, s.net, e.env);
    var after := w.advances + Moves(w.node.file, a.file);
    NothingMoves(w.node.file);
    CounterStep(s, w.node.file, e.env, w.advances);
    NumbersStayApart(w.live, w.advances, after);
    RulesStayNumbered(s, k.chain, w.advances, after);
    if EnableNetfilter !in e.faults && Bridge(s.net).Ok? && a.result.Ok? {
      AddTexts(s, w, e.env);
      AcquiredIsShiftable(s, w.node.file, e.env);
      HealthyAnywhere(s, k, w.live, after);
      var args := AttachArgs(e.id, a.result.value, Bridge(s.net).value, s.physicalIf);
      AttachKeepsHealthy(s, cur, w.live, e.faults, args, after);
      RerouteIgnoresCur(w.live, k, e.id);
      var live := LiveAfter(w.live, cur, e.faults, args);
      RerouteKeepsNumbers(w.live, cur, e.id, w.advances);
      NumbersStayApart(live, w.advances, after);
      if Attach(cur, e.faults, args).ok {
        var pod := Pod(e.id, PodKey(cur, e.id), after, true);
        AddPod(s, Attach(cur, e.faults, args).k, live, HostName(e.id), pod, w.advances);
      }
    }
  }

  lemma NothingMoves(file: Option<string>)
    ensures Moves(file, file) == 0
  {
  }

  lemma RerouteIgnoresCur(live: map<string, Pod>, k: Kernel, id: PodId)
    ensures Reroute(live, k.(cur := HOST), id) == Reroute(live, k, id)
    ensures Reroute(live, k, id).Keys == live.Keys
  {
  }

  /** The bookkeeping of a successful ADD. */
  lemma AddPod(s: Settings, k: Kernel, live: map<string, Pod>, h: string, p: Pod, n: nat)
    requires NumbersApart(live, n) && p.number == n + 1 && h !in live
    requires PodsWork(s, k, live) && PodWorks(s, k, h, p)
    ensures PodsWork(s, k, live[h := p]) && NumbersApart(live[h := p], n + 1)
  {
    hide PodWorks, NumbersApart;
    NewNumberIsApart(live, h, p, n);
  }

  lemma DelKeepsHealthy(s: Settings, w: World, e: Event)
    requires Defined(s) && Healthy(s, w) && e.Del?
    ensures Healthy(s, Step(s, w, e))
  {
    hide Detach, Parse, HostName, Base, Nth, PodCidr, RulesNumbered, PodsWork, FitsBuffers,
      Abs, Sound, Peerless, BridgeAsMade, NumbersApart, CounterShows, Survivors;
    HealthyAnywhere(s, w.node.k, w.live, w.advances);
    DetachKeepsHealthy(s, w.node.k.(cur := HOST), w.live, e.faults, e.id, w.advances);
    SurvivorsKeepNumbers(w.live, HostName(e.id), w.advances);
  }

  // ---------------------------------------------------------------- all runs

  lemma UntouchedIsHealthy(s: Settings, w: World)
    requires Defined(s) && Untouched(w)
    ensures Healthy(s, w)
  {
    hide Parse, FitsBuffers, Base, Nth;
  }

  /** Whatever ADDs and DELs a node has seen, with faults anywhere, every live pod works, and all live
      pods have different numbers. */
  lemma {:induction false} EveryRunIsHealthy(s: Settings, w: World, events: seq<Event>)
    requires Defined(s) && Untouched(w) && NoFalseAbsence(events)
    ensures Healthy(s, Run(s, w, events))
    decreases |events|
  {
    hide Healthy, Step, FitsBuffers, Parse, Untouched;
    if events == [] {
      UntouchedIsHealthy(s, w);
    } else {
      var init, last := events[..|events| - 1], events[|events| - 1];
      EveryRunIsHealthy(s, w, init);
      if last.Add? {
        AddKeepsHealthy(s, Run(s, w, init), last);
      } else {
        DelKeepsHealthy(s, Run(s, w, init), last);
      }
    }
  }

  /** What the allocator met over the run: an ADD reaches it when the sysctls were set and the bridge has
      an address. */
  function Acquisitions(s: Settings, events: seq<Event>): seq<Env> {
    if events == [] then []
    else
      var e := events[|events| - 1];
      Acquisitions(s, events[..|events| - 1])
      + if e.Add? && EnableNetfilter !in e.faults && Bridge(s.net).Ok? then [e.env] else []
  }

  lemma EventAtTheFile(s: Settings, w: World, e: Event)
    requires Defined(s)
    ensures var r := Step(s, w, e);
      if e.Add? && EnableNetfilter !in e.faults && Bridge(s.net).Ok?
      then r.node.file == Acquire(w.node.file, s.net, e.env).file
           && r.advances == w.advances + Moves(w.node.file, r.node.file)
      else r.node.file == w.node.file && r.advances == w.advances
  {
    hide Acquire, Attach, Detach, Parse, Bridge, HostName, FitsBuffers, Reroute, Survivors, Moves, ReplacesRoute;
    NothingMoves(w.node.file);
  }

  /** The node's file and counter are those of the allocator's own run: nothing else an ADD or DEL does,
      or fails to do, reaches them. */
  lemma {:induction false} NodeRunsTheAllocator(s: Settings, w: World, events: seq<Event>)
    requires Defined(s) && Untouched(w)
    ensures var r, envs := Run(s, w, events), Acquisitions(s, events);
      r.node.file == FileAfter(s.net, envs) && r.advances == Advances(s.net, envs)
    decreases |events|
  {
    hide Acquire, Bridge, Step, Defined, Sound, Moves;
    if events != [] {
      var init, e := events[..|events| - 1], events[|events| - 1];
      NodeRunsTheAllocator(s, w, init);
      EventAtTheFile(s, Run(s, w, init), e);
      var before, envs := Acquisitions(s, init), Acquisitions(s, events);
      if envs != before { assert envs[..|envs| - 1] == before && envs[|envs| - 1] == e.env; }
    }
  }

  /** Before the counter wraps, live pods have pairwise different addresses, none of them the
      bridge's. */
  lemma LivePodsHaveTheirOwnAddress(s: Settings, w: World, events: seq<Event>, h: string, i: string)
    requires Defined(s) && Untouched(w) && NoFalseAbsence(events)
    requires var r := Run(s, w, events); r.advances < TWO_32 && h in r.live && i in r.live && h != i
    ensures var r := Run(s, w, events);
      && r.live[h].end in r.node.k.links && r.live[i].end in r.node.k.links
      && r.node.k.links[r.live[h].end].addrs != r.node.k.links[r.live[i].end].addrs
      && (BR in r.node.k.links ==> r.node.k.links[r.live[h].end].addrs != r.node.k.links[BR].addrs)
  {
    hide Parse, FitsBuffers, Run, Untouched, NoFalseAbsence, Nth, Base, RulesNumbered, CounterShows, HostName,
      Sound;
    EveryRunIsHealthy(s, w, events);
    var r := Run(s, w, events);
    var p, q := r.live[h], r.live[i];
    assert PodWorks(s, r.node.k, h, p) && PodWorks(s, r.node.k, i, q);
    DifferentNumbers(s, p.number, q.number);
    DifferentNumbers(s, p.number, 0);
  }

  lemma DifferentNumbers(s: Settings, m: nat, n: nat)
    requires Parse(s.net.clusterCidr).Ok? && m != n && m < TWO_32 && n < TWO_32
    ensures PodCidr(s.net, Nth(Base(s.net), m)) != PodCidr(s.net, Nth(Base(s.net), n))
    ensures {PodCidr(s.net, Nth(Base(s.net), m))} != {PodCidr(s.net, Nth(Base(s.net), n))}
  {
    hide Parse, Base, Nth;
    var a, b := Nth(Base(s.net), m), Nth(Base(s.net), n);
    AnyTwoApart(Base(s.net), m, n);
    assert PodCidr(s.net, a) in {PodCidr(s.net, a)};
  }

  lemma AnyTwoApart(base: word, m: nat, n: nat)
    requires m != n && m < TWO_32 && n < TWO_32
    ensures Nth(base, m) != Nth(base, n)
  {
  }

  /** The ADD gets past the sysctls, the bridge's address and the allocator. */
  predicate GetsAddress(s: Settings, file: Option<string>, e: Event)
    requires e.Add?
  {
    && EnableNetfilter !in e.faults && Parse(s.net.subnet).Ok? && Parse(s.net.clusterCidr).Ok?
    && e.env.write.Complete? && !Abs(file).Stuck? && (Abs(file).At? ==> !e.env.readFailed)
  }

  /** What attaching is asked for the `n`-th address. */
  function ArgsOf(s: Settings, id: PodId, n: nat): AttachArgs
    requires Parse(s.net.clusterCidr).Ok?
  {
    AttachArgs(id, Print(PodCidr(s.net, Nth(Base(s.net), n))), Print(BridgeCidr(s)), s.physicalIf)
  }

  /** What an ADD makes of a healthy node's kernel: nothing unless it gets an address, and otherwise exactly
      what attaching with the next address leaves; it replies with that address. */
  lemma AddInTheKernel(s: Settings, w: World, e: Event)
    requires Defined(s) && Healthy(s, w) && e.Add? && !e.env.existsRefused
    ensures var r, k := CmdAdd(s, w.node, e.id, e.faults, e.env), w.node.k.(cur := HOST);
      if !GetsAddress(s, w.node.file, e) then !r.ok && r.node.k == w.node.k
      else
        var args := ArgsOf(s, e.id, w.advances + 1);
        && r.result == Ok(args.cidr)
        && AttachResult(k, r.node.k, r.ok, e.faults, args) && LeftBehind(k, r.node.k, e.faults, args)
  {
    hide Attach, Parse, HostName, Base, Nth, PodCidr, RulesNumbered, PodsWork, Acquire, Bridge, FitsBuffers,
      Abs, Sound, Peerless, BridgeAsMade, NumbersApart, CounterShows, Print, AttachResult, LeftBehind;
    var k, a := w.node.k.(cur := HOST), Acquire(w.node.file, s.net, e.env);
    AcquireSucceedsExactlyWhen(w.node.file, s.net, e.env);
    BridgeAddress(s.net);
    if EnableNetfilter !in e.faults && Bridge(s.net).Ok? && a.result.Ok? {
      CounterStep(s, w.node.file, e.env, w.advances);
      AcquiredIsShiftable(s, w.node.file, e.env);
      SoundAnywhere(w.node.k, HOST);
      var args := AttachArgs(e.id, a.result.value, Bridge(s.net).value, s.physicalIf);
      AttachStep(k, e.faults, args);
      AttachLeaves(k, e.faults, args);
    }
  }

  /** Who is live after an ADD: everybody who was, as they were up to the default route, and on success
      the new pod. */
  lemma AddKeepsThePods(s: Settings, w: World, e: Event)
    requires Defined(s) && Healthy(s, w) && e.Add? && !e.env.existsRefused
    ensures var after, name := Step(s, w, e), HostName(e.id);
      && (forall h :: h in after.live <==>
           h in w.live || (h == name && CmdAdd(s, w.node, e.id, e.faults, e.env).ok))
      && (forall h :: h in w.live ==> after.live[h] in {w.live[h], w.live[h].(routed := false)})
  {
    hide Attach, Parse, HostName, Acquire, Bridge, FitsBuffers, Healthy, Moves, ReplacesRoute, CmdAdd;
    if CmdAdd(s, w.node, e.id, e.faults, e.env).ok { AddRepliesThePodsAddress(s, w, e); }
  }

  /** Exactly when a DEL succeeds, and exactly what is gone then: the interface of the host name with its
      peer, and the routes through them. */
  lemma DelExactly(k: Kernel, id: PodId, f: Faults)
    requires Sound(k)
    ensures var r, h := CmdDel(k, id, f), HostKey(id);
      && (r.ok <==> f !! DETACH_CALLS && h in k.links)
      && (!r.ok ==> r.k == k.(cur := HOST))
      && (r.ok ==>
           var gone := {h} + if k.links[h].peer.Some? then {k.links[h].peer.value} else {};
           && (forall q :: q in r.k.links <==> q in k.links && q !in gone)
           && (forall q :: q in r.k.links ==> r.k.links[q] == Release(k.links[q], q.ns, gone))
           && (forall ns :: ns in r.k.routes <==> ns in k.routes && Key(ns, k.routes[ns].dev) !in gone)
           && (forall ns :: ns in r.k.routes ==> r.k.routes[ns] == k.routes[ns])
           && r.k.paths == k.paths && r.k.chain == k.chain && r.k.cur == HOST)
  {
    hide HostName, Detach, Sound;
    SoundAnywhere(k, HOST);
    DetachIsolates(k.(cur := HOST), f, id);
  }

  /** A DEL that succeeds leaves neither end of its pod, nor the pod's route; every other pod stays live as
      it was, and a DEL that fails changes nothing. */
  lemma DelInTheNode(s: Settings, w: World, e: Event)
    requires Defined(s) && Healthy(s, w) && e.Del?
    ensures var after, name := Step(s, w, e), HostName(e.id);
      var ok := e.faults !! DETACH_CALLS && HostKey(e.id) in w.node.k.links;
      && (ok ==> HostKey(e.id) !in after.node.k.links && name !in after.live)
      && (ok && name in w.live ==>
           var end := w.live[name].end;
           end !in after.node.k.links
           && (end.ns in after.node.k.routes ==> after.node.k.routes[end.ns].dev != end.name))
      && (forall h :: h in after.live <==> h in w.live && !(ok && Touched(h, w.live[h], name)))
      && (forall h :: h in after.live ==> after.live[h] == w.live[h])
      && (!ok ==> after.node.k == w.node.k.(cur := HOST))
      && after.node.file == w.node.file && after.advances == w.advances
  {
    hide Detach, Parse, HostName, Base, Nth, PodCidr, RulesNumbered, FitsBuffers, Abs, Sound, Peerless, BridgeAsMade,
      NumbersApart, CounterShows, CmdDel;
    DelExactly(w.node.k, e.id, e.faults);
    if HostName(e.id) in w.live { assert PodWorks(s, w.node.k, HostName(e.id), w.live[HostName(e.id)]); }
  }

  /** Exactly when an ADD succeeds on a healthy node. */
  lemma AddSucceedsExactlyWhen(s: Settings, w: World, e: Event)
    requires Defined(s) && Healthy(s, w) && e.Add? && !e.env.existsRefused
    ensures var cfg, k := s.net, w.node.k.(cur := HOST);
      CmdAdd(s, w.node, e.id, e.faults, e.env).ok <==>
        GetsAddress(s, w.node.file, e) && AttachSucceeds(k, e.faults, ArgsOf(s, e.id, w.advances + 1))
  {
    hide Attach, Parse, HostName, Base, Nth, PodCidr, RulesNumbered, PodsWork, Acquire, Bridge, FitsBuffers,
      Abs, Sound, Peerless, BridgeAsMade, NumbersApart, CounterShows, PodWorks, Print, AttachSucceeds;
    var a := Acquire(w.node.file, s.net, e.env);
    AcquireSucceedsExactlyWhen(w.node.file, s.net, e.env);
    BridgeAddress(s.net);
    if EnableNetfilter !in e.faults && Bridge(s.net).Ok? && a.result.Ok? {
      CounterStep(s, w.node.file, e.env, w.advances);
      AcquiredIsShiftable(s, w.node.file, e.env);
      AttachOk(w.node.k, e.faults, AttachArgs(e.id, a.result.value, Bridge(s.net).value, s.physicalIf));
    }
  }

  lemma AttachOk(k: Kernel, f: Faults, a: AttachArgs)
    requires Sound(k) && ShiftDefined(a.cidr)
    ensures Attach(k.(cur := HOST), f, a).ok <==> AttachSucceeds(k.(cur := HOST), f, a)
  {
    hide Attach, Parse, HostName, Sound, AttachSucceeds, Attached, Stopped, TakesRoute, MakesPair;
    SoundAnywhere(k, HOST);
    AttachStep(k.(cur := HOST), f, a);
  }

  /** Without faults an ADD succeeds on any healthy node whose allocator is not stuck, if the pod's
      namespace can be opened, the names are free, and the VXLAN exists or has an underlay. */
  lemma FaultFreeAddSucceeds(s: Settings, w: World, id: PodId)
    requires Defined(s) && Healthy(s, w) && Parse(s.net.subnet).Ok? && Parse(s.net.clusterCidr).Ok?
    requires !Abs(w.node.file).Stuck?
    requires var k := w.node.k;
      && id.netns in k.paths && NamesFree(k, id, PodKey(k, id)) && PodKey(k, id) !in {BR, VX}
      && (VX in k.links || Key(HOST, s.physicalIf) in k.links)
    ensures CmdAdd(s, w.node, id, {}, NO_FAULT).ok
  {
    hide Attach, Parse, HostName, TmpName, Base, Nth, RulesNumbered, PodsWork, FitsBuffers, Abs, Sound, Print,
      NumbersApart, CounterShows, CmdAdd;
    AddSucceedsExactlyWhen(s, w, Add(id, {}, NO_FAULT));
    RoundTrip(PodCidr(s.net, Nth(Base(s.net), w.advances + 1)));
    RoundTrip(BridgeCidr(s));
  }

  /** A successful ADD replies with the very address its pod's interface got. */
  lemma AddRepliesThePodsAddress(s: Settings, w: World, e: Event)
    requires Defined(s) && Healthy(s, w) && e.Add? && !e.env.existsRefused
    requires CmdAdd(s, w.node, e.id, e.faults, e.env).ok
    ensures var r, after := CmdAdd(s, w.node, e.id, e.faults, e.env), Step(s, w, e);
      && HostName(e.id) in after.live && HostName(e.id) !in w.live
      && r.result.Ok? && Parse(r.result.value).Ok?
      && var p := after.live[HostName(e.id)];
      && p.id == e.id && p.end in after.node.k.links
      && after.node.k.links[p.end].addrs == {Parse(r.result.value).value}
  {
    hide Attach, Parse, HostName, Base, Nth, PodCidr, RulesNumbered, Acquire, Bridge, FitsBuffers,
      Abs, Sound, Peerless, BridgeAsMade, NumbersApart, CounterShows, Reroute, Moves, Print, Attached;
    CounterStep(s, w.node.file, e.env, w.advances);
    AddTexts(s, w, e.env);
    AcquiredIsShiftable(s, w.node.file, e.env);
    RulesStayNumbered(s, w.node.k.chain, w.advances, w.advances + 1);
    HealthyAnywhere(s, w.node.k, w.live, w.advances + 1);
    var a := AttachArgs(e.id, Acquire(w.node.file, s.net, e.env).result.value, Bridge(s.net).value, s.physicalIf);
    AttachKeepsHealthy(s, w.node.k.(cur := HOST), w.live, e.faults, a, w.advances + 1);
    AddKeepsHealthy(s, w, e);
  }

  /** The bridge's address is decided once: whatever it has when it first exists it has for good. */
  lemma {:induction false} BridgeNeverChanges(s: Settings, w: World, events: seq<Event>, i: nat)
    requires Defined(s) && Untouched(w) && NoFalseAbsence(events) && i <= |events|
    requires BR in Run(s, w, events[..i]).node.k.links
    ensures var before, after := Run(s, w, events[..i]).node.k, Run(s, w, events).node.k;
      BR in after.links && after.links[BR] == before.links[BR]
    ensures BridgeAsMade(s, Run(s, w, events).node.k)
    decreases |events|
  {
    hide Step, FitsBuffers, Parse, Untouched, PodsWork, RulesNumbered, NumbersApart, CounterShows, Sound, BridgeAsMade;
    EveryRunIsHealthy(s, w, events);
    if i == |events| {
      assert events[..i] == events;
    } else {
      var init := events[..|events| - 1];
      assert init[..i] == events[..i];
      BridgeNeverChanges(s, w, init, i);
      EveryRunIsHealthy(s, w, init);
      BridgeIsDecidedOnce(s, Run(s, w, init), events[|events| - 1]);
    }
  }

  // ---------------------------------------------------------------- what runs use up

  function Adds(events: seq<Event>): nat {
    if events == [] then 0
    else Adds(events[..|events| - 1]) + if events[|events| - 1].Add? then 1 else 0
  }

  /** File I/O works and the sysctls can be set; everything else may fail. */
  predicate FilesWork(events: seq<Event>) {
    forall i :: 0 <= i < |events| && events[i].Add? ==>
      (events[i].env == NO_FAULT && EnableNetfilter !in events[i].faults)
  }

  /** Every ADD uses up one address, whether or not its attach succeeds, and no DEL gives one back. */
  lemma {:induction false} EveryAddSpendsAnAddress(s: Settings, w: World, events: seq<Event>)
    requires Defined(s) && Untouched(w) && FilesWork(events)
    requires Parse(s.net.subnet).Ok? && Parse(s.net.clusterCidr).Ok?
    ensures var r := Run(s, w, events);
      r.advances == Adds(events) && CounterShows(s.net, r.node.file, r.advances) && !Abs(r.node.file).Stuck?
    decreases |events|
  {
    hide Acquire, Attach, Detach, Parse, Abs, Base, Nth, HostName, FitsBuffers, Reroute, Survivors, Sound, Moves, Print,
      PodCidr;
    if events == [] {
      AbsOfMissing();
    } else {
      var init, last := events[..|events| - 1], events[|events| - 1];
      EveryAddSpendsAnAddress(s, w, init);
      if last.Add? {
        var file := Run(s, w, init).node.file;
        BridgeAddress(s.net);
        CounterStep(s, file, last.env, Run(s, w, init).advances);
        AcquireSucceedsExactlyWhen(file, s.net, last.env);
        AcquireStepsTheCounter(file, s.net, last.env);
      }
    }
  }

  // ---------------------------------------------------------------- NAT over runs

  /** One rule of the node matches like its cluster's block. */
  lemma RuleOfNode(s: Settings, cluster: Cidr, r: Rule, advances: nat, p: Packet)
    requires Defined(s) && Cluster.Planned(s.net, cluster) && Ipv4(p)
    requires advances <= Cluster.BlockSize(s.net, cluster) - 3 && RuleNumbered(s, r, advances)
    ensures Matches(r, p) <==>
      p.oif == s.physicalIf && Block(Source(p), cluster.prefix) == Block(cluster.addr, cluster.prefix)
  {
    hide Parse, Base, Nth, Block, Source, Matches, NatRule, FitsBuffers, Pow2;
    var n :| 0 < n <= advances && r == NatRule(s.physicalIf, PodCidr(s.net, Nth(Base(s.net), n)));
    var a := Nth(Base(s.net), n);
    Cluster.CapacityBound(s.net, cluster);
    Cluster.NthUnwrapped(Base(s.net), n);
    InClusterBlock(s.net, cluster, a);
    RuleMatchesItsBlock(s.physicalIf, PodCidr(s.net, a), p);
  }

  lemma InClusterBlock(cfg: Config, cluster: Cidr, address: word)
    requires Cluster.Planned(cfg, cluster)
    requires Base(cfg) <= address < Base(cfg) + Cluster.BlockSize(cfg, cluster)
    ensures Block(address, cluster.prefix) == Block(cluster.addr, cluster.prefix)
  {
    hide Parse, Base, Pow2;
    Cluster.InNetwork(cfg, cluster, address);
  }

  /** After any run within capacity, the node's chain masquerades exactly the packets that leave
      through the physical interface with a source in the cluster block, as soon as it holds any rule
      at all: the rules that every ADD adds, and no DEL removes, never change a verdict. */
  lemma NodeMasqueradesTheClusterBlock(s: Settings, w: World, events: seq<Event>, cluster: Cidr, p: Packet)
    requires Defined(s) && Untouched(w) && NoFalseAbsence(events) && Ipv4(p)
    requires Cluster.Planned(s.net, cluster)
    requires Run(s, w, events).advances <= Cluster.BlockSize(s.net, cluster) - 3
    requires Run(s, w, events).node.k.chain != []
    ensures Masquerades(Run(s, w, events).node.k.chain, p) <==>
      p.oif == s.physicalIf && Block(Source(p), cluster.prefix) == Block(cluster.addr, cluster.prefix)
  {
    hide Parse, Base, Nth, Block, Source, Matches, RuleNumbered, FitsBuffers, Run, Untouched, PodsWork, Sound,
      NumbersApart, CounterShows, BridgeAsMade;
    EveryRunIsHealthy(s, w, events);
    var r := Run(s, w, events);
    var chain := r.node.k.chain;
    forall i | 0 <= i < |chain|
      ensures Matches(chain[i], p) <==>
        p.oif == s.physicalIf && Block(Source(p), cluster.prefix) == Block(cluster.addr, cluster.prefix)
    {
      RuleOfNode(s, cluster, chain[i], r.advances, p);
    }
    assert Masquerades(chain, p) <==> Matches(chain[0], p);
  }
}
