/** Exactly what attaching leaves behind, wherever it stops: every interface, the namespace of the
    process, the routes and the rules, each decided by what was there before and which calls fail. */
module Leftovers {
  import opened Cidrs
  import opened Naming
  import opened Nft
  import opened Kernels
  import opened Net
  import opened NetSteps
  import opened NetTheorems

  /** Attaching gets past its sockets and opens the pod's namespace. */
  predicate Begins(k0: Kernel, f: Faults, a: AttachArgs) {
    f !! {SocketAlloc, SocketConnect, OpenNetns} && a.id.netns in k0.paths
  }

  /** The far end of the pair gets into the pod's namespace, under the pod's name. */
  predicate MovesPair(k0: Kernel, f: Faults, a: AttachArgs) {
    && Reaches(k0, f, a) && f !! VETH_CALLS
    && NamesFree(k0, a.id, PodKey(k0, a.id)) && PodKey(k0, a.id) !in {BR, VX}
  }

  predicate SetsUp(k0: Kernel, f: Faults, a: AttachArgs) {
    MovesPair(k0, f, a) && SetupCalls(f, a)
  }

  predicate Enslaves(k0: Kernel, f: Faults, a: AttachArgs, calls: Faults) {
    SetsUp(k0, f, a) && f !! calls && (BR in k0.links ==> k0.links[BR].kind == BridgeLink)
  }

  /** The process enters the pod's namespace and fails twice to leave it. */
  predicate Strands(k0: Kernel, f: Faults, a: AttachArgs) {
    && MovesPair(k0, f, a) && Entered(f) && RestoreNs in f
    && !(GivesRoute(f, a.cidr, a.bridgeCidr) && LeaveNs !in f)
  }

  function FarKey(k0: Kernel, f: Faults, a: AttachArgs): Key {
    if MovesPair(k0, f, a) then PodKey(k0, a.id) else TmpKey(a.id)
  }

  function BridgeLeft(k0: Kernel, f: Faults, a: AttachArgs): Link {
    if BR in k0.links then k0.links[BR]
    else
      var addrs := if f !! BRIDGE_CALLS && Assignable(a.bridgeCidr) then {Parse(a.bridgeCidr).value} else {};
      Link(BridgeLink, true, None, addrs, None)
  }

  function VxlanFound(k0: Kernel, a: AttachArgs): Link {
    if VX in k0.links then k0.links[VX]
    else Link(VxlanLink(a.physicalIf, "239.1.1.100", 100, 4789), true, None, {}, None)
  }

  /** The bridge, the VXLAN and the two ends of the pair, where they exist at all. */
  ghost predicate OwnLinks(k0: Kernel, k1: Kernel, f: Faults, a: AttachArgs) {
    var h, e := HostKey(a.id), FarKey(k0, f, a);
    && (BR in k1.links <==> BR in k0.links || (Begins(k0, f, a) && f !! {BridgeAlloc, BridgeAdd}))
    && (BR in k1.links ==> k1.links[BR] == BridgeLeft(k0, f, a))
    && (VX in k1.links <==> VX in k0.links || Reaches(k0, f, a))
    && (VX in k1.links ==>
         k1.links[VX] == if Enslaves(k0, f, a, ENSLAVE_CALLS - {EnslaveVeth})
                         then Mastered(VxlanFound(k0, a)) else VxlanFound(k0, a))
    && (MakesPair(k0, f, a) ==>
         h in k1.links && e in k1.links
         && k1.links[h] == Link(VethLink, SetsUp(k0, f, a),
                                if Enslaves(k0, f, a, ENSLAVE_CALLS) then Some(HOST_BRIDGE_NAME) else None, {}, Some(e))
         && k1.links[e] == Link(VethLink, MovesPair(k0, f, a), None,
                                if MovesPair(k0, f, a) && GivesAddress(f, a.cidr) then {Parse(a.cidr).value} else {},
                                Some(h)))
  }

  /** Every interface that is none of these. */
  ghost predicate OtherLinks(k0: Kernel, k1: Kernel, f: Faults, a: AttachArgs) {
    forall q :: q !in {BR, VX} && (MakesPair(k0, f, a) ==> q !in {HostKey(a.id), FarKey(k0, f, a)}) ==>
      (q in k1.links <==> q in k0.links) && (q in k0.links ==> k1.links[q] == k0.links[q])
  }

  ghost predicate LinksLeft(k0: Kernel, k1: Kernel, f: Faults, a: AttachArgs) {
    && OwnLinks(k0, k1, f, a) && OtherLinks(k0, k1, f, a)
    && k1.cur == if Strands(k0, f, a) then k0.paths[a.id.netns] else k0.cur
  }

  ghost predicate LeftBehind(k0: Kernel, k1: Kernel, f: Faults, a: AttachArgs) {
    && LinksLeft(k0, k1, f, a)
    && k1.paths == k0.paths
    && (k1.routes == if TakesRoute(k0, f, a) then RoutesAfter(k0, a, k0.paths[a.id.netns], true) else k0.routes)
    && (k1.chain == if SendsRule(k0, f, a) then k0.chain + [NatRule(a.physicalIf, Parse(a.cidr).value)] else k0.chain)
  }

  // ---------------------------------------------------------------- one stage after the other

  /** The pair as far as it got, on top of `k`. */
  function PairOver(k: Kernel, h: Key, e: Key, up: bool, master: Option<string>, far: bool, addrs: set<Cidr>)
    : map<Key, Link>
  {
    k.links[h := Link(VethLink, up, master, {}, Some(e))][e := Link(VethLink, far, None, addrs, Some(h))]
  }

  lemma SetupLeaves(k: Kernel, f: Faults, a: AttachArgs, ns: Ns)
    requires Sound(k) && k.cur == HOST
    ensures var r, h, t, e := SetupVeth(k, f, HOST, a, ns), HostKey(a.id), TmpKey(a.id), Key(ns, a.id.ifname);
      var makes := VethCreate !in f && h !in k.links && t !in k.links;
      var moves := f !! VETH_CALLS && NamesFree(k, a.id, e);
      && (r.ok <==> moves && SetupCalls(f, a))
      && r.k.paths == k.paths && r.k.chain == k.chain
      && r.k.links == (if !makes then k.links
                       else if !moves then PairOver(k, h, t, false, None, false, {})
                       else PairOver(k, h, e, r.ok, None, true,
                                     if GivesAddress(f, a.cidr) then {Parse(a.cidr).value} else {}))
      && r.k.cur == (if moves && Entered(f) && RestoreNs in f && !(GivesRoute(f, a.cidr, a.bridgeCidr) && LeaveNs !in f)
                     then ns else HOST)
  {
    hide HostName, TmpName, Sound, CreateVeth, ConfigureContainerVeth, EnableVeth, Parse;
    var h, e := HostKey(a.id), Key(ns, a.id.ifname);
    GeneratedNamesApart(a.id, a.id);
    VethStep(k, f, a.id, ns);
    if f !! VETH_CALLS && NamesFree(k, a.id, e) {
      var p := Pair(k, h, e, true);
      ConfigureStep(p, f, ns, e.name, a.cidr, a.bridgeCidr);
      var c := ConfigureContainerVeth(p, f, ns, e.name, a.cidr, a.bridgeCidr);
      EnableStep(c.k, f, h.name);
    }
  }

  lemma OpeningLeaves(k0: Kernel, f: Faults, a: AttachArgs)
    requires Sound(k0) && k0.cur == HOST && Begins(k0, f, a) && !OpeningSucceeds(k0, f, a)
    ensures var r := CreateBridge(k0, f, HOST, a.bridgeCidr);
      var k := if r.ok then CreateVxlan(r.k, f, HOST, a.physicalIf).k else r.k;
      LinksLeft(k0, k, f, a)
  {
    hide HostName, TmpName, CreateBridge, CreateVxlan, Parse, Sound;
    BridgeStep(k0, f, a.bridgeCidr);
    VxlanStep(CreateBridge(k0, f, HOST, a.bridgeCidr).k, f, a.physicalIf);
    OpeningStep(k0, f, a);
    GeneratedNamesApart(a.id, a.id);
  }

  /** All interfaces, from those there are once the bridge and the VXLAN exist. */
  function LinksOver(k0: Kernel, k: Kernel, f: Faults, a: AttachArgs): map<Key, Link>
    requires VX in k.links
  {
    var base := if Enslaves(k0, f, a, ENSLAVE_CALLS - {EnslaveVeth})
                then Put(k, VX, Mastered(k.links[VX])) else k;
    if !MakesPair(k0, f, a) then base.links
    else
      PairOver(base, HostKey(a.id), FarKey(k0, f, a), SetsUp(k0, f, a),
               if Enslaves(k0, f, a, ENSLAVE_CALLS) then Some(HOST_BRIDGE_NAME) else None, MovesPair(k0, f, a),
               if MovesPair(k0, f, a) && GivesAddress(f, a.cidr) then {Parse(a.cidr).value} else {})
  }

  /** Where things stand before the interfaces join the bridge. */
  lemma SetupForm(k0: Kernel, k: Kernel, f: Faults, a: AttachArgs)
    requires Sound(k0) && k0.cur == HOST && Reaches(k0, f, a)
    requires Unpaired(k0, k) && k.cur == HOST && Opened(k0, k, a)
    ensures var r := SetupVeth(k, f, HOST, a, k0.paths[a.id.netns]);
      && VX in k.links && BR in k.links
      && (r.ok <==> SetsUp(k0, f, a))
      && (!r.ok || !Enslaves(k0, f, a, ENSLAVE_CALLS - {EnslaveVeth}) ==> r.k.links == LinksOver(k0, k, f, a))
      && (r.ok ==> r.k.links == PairOver(k, HostKey(a.id), PodKey(k0, a.id), true, None, true, {Parse(a.cidr).value}))
      && r.k.cur == if Strands(k0, f, a) then k0.paths[a.id.netns] else HOST
  {
    hide HostName, TmpName, SetupVeth, Parse, Sound, Unpaired, Opened;
    OpenedNames(k0, k, a, PodKey(k0, a.id));
    OpenedFacts(k0, k, a);
    UnpairedIsSound(k0, k);
    SetupLeaves(k, f, a, k0.paths[a.id.netns]);
  }

  /** What joining the bridge makes of the finished pair. */
  lemma EnslaveForm(k0: Kernel, k: Kernel, s: Kernel, f: Faults, a: AttachArgs)
    requires SetsUp(k0, f, a) && GivesAddress(f, a.cidr) && Assignable(a.cidr)
    requires Opened(k0, k, a) && BR in k.links && VX in k.links
    requires s.links == PairOver(k, HostKey(a.id), PodKey(k0, a.id), true, None, true, {Parse(a.cidr).value})
    ensures var r := AttachIfsToBridge(s, f, HOST, HostName(a.id));
      && (r.ok <==> Enslaves(k0, f, a, ENSLAVE_CALLS))
      && r.k.links == LinksOver(k0, k, f, a) && r.k.cur == s.cur
  {
    hide HostName, TmpName, AttachIfsToBridge, Parse, GivesRoute, GivesAddress, OpeningSucceeds, SetupCalls, Opened,
      LinksOver, PairOver, NamesFree;
    var h, e, addrs := HostKey(a.id), PodKey(k0, a.id), {Parse(a.cidr).value};
    GeneratedNamesApart(a.id, a.id);
    NamesFreeMakesPair(k0, f, a);
    BridgeFound(k0, k, a);
    PairOverLinks(k, h, e, addrs);
    EnslaveStep(s, f, HostName(a.id));
    LinksOverWhenSetUp(k0, k, f, a);
  }

  lemma NamesFreeMakesPair(k0: Kernel, f: Faults, a: AttachArgs)
    requires MovesPair(k0, f, a)
    ensures MakesPair(k0, f, a) && PodKey(k0, a.id) !in {BR, VX, HostKey(a.id)}
  {
    hide HostName, TmpName, OpeningSucceeds;
  }

  lemma BridgeFound(k0: Kernel, k: Kernel, a: AttachArgs)
    requires Opened(k0, k, a) && BR in k.links
    ensures k.links[BR].kind == BridgeLink <==> (BR in k0.links ==> k0.links[BR].kind == BridgeLink)
  {
    hide Parse;
  }

  lemma PairOverLinks(k: Kernel, h: Key, e: Key, addrs: set<Cidr>)
    requires BR in k.links && VX in k.links && h != e && BR !in {h, e} && VX !in {h, e}
    ensures var links, half := PairOver(k, h, e, true, None, true, addrs), Put(k, VX, Mastered(k.links[VX]));
      && h in links && e in links && BR in links && VX in links
      && links[BR] == k.links[BR] && links[VX] == k.links[VX]
      && links[VX := Mastered(links[VX])] == PairOver(half, h, e, true, None, true, addrs)
      && links[VX := Mastered(links[VX])][h := Mastered(links[h])]
         == PairOver(half, h, e, true, Some(HOST_BRIDGE_NAME), true, addrs)
  {
    var half := Put(k, VX, Mastered(k.links[VX]));
    var links := PairOver(k, h, e, true, None, true, addrs);
    assert links[VX := Mastered(links[VX])] == PairOver(half, h, e, true, None, true, addrs);
  }

  lemma LinksOverWhenSetUp(k0: Kernel, k: Kernel, f: Faults, a: AttachArgs)
    requires SetsUp(k0, f, a) && GivesAddress(f, a.cidr) && MakesPair(k0, f, a) && VX in k.links
    ensures var half := Put(k, VX, Mastered(k.links[VX]));
      LinksOver(k0, k, f, a)
      == PairOver(if Enslaves(k0, f, a, ENSLAVE_CALLS - {EnslaveVeth}) then half else k,
                  HostKey(a.id), PodKey(k0, a.id), true,
                  if Enslaves(k0, f, a, ENSLAVE_CALLS) then Some(HOST_BRIDGE_NAME) else None, true,
                  {Parse(a.cidr).value})
  {
    hide HostName, TmpName, Parse, MakesPair, Enslaves, PairOver, GivesAddress;
  }

  lemma TailForm(k0: Kernel, k: Kernel, f: Faults, a: AttachArgs)
    requires Sound(k0) && k0.cur == HOST && ShiftDefined(a.cidr) && Reaches(k0, f, a)
    requires Unpaired(k0, k) && k.cur == HOST && Opened(k0, k, a)
    ensures var r := Tail(k, f, a, k0.paths[a.id.netns]).k;
      && VX in k.links && r.links == LinksOver(k0, k, f, a)
      && r.cur == if Strands(k0, f, a) then k0.paths[a.id.netns] else HOST
  {
    hide HostName, TmpName, SetupVeth, AttachIfsToBridge, InstallRule, Parse, Sound, Unpaired, NatRule,
      GivesRoute, GivesAddress, OpeningSucceeds, MastersExist, Opened, Enslaves, LinksOver, PairOver, Strands,
      SetupCalls, NamesFree;
    var h, e := HostKey(a.id), PodKey(k0, a.id);
    GeneratedNamesApart(a.id, a.id);
    SetupForm(k0, k, f, a);
    var s := SetupVeth(k, f, HOST, a, e.ns);
    if s.ok {
      SetupNeedsText(f, a);
      GivesAddressInSetup(f, a);
      EnslaveForm(k0, k, s.k, f, a);
      var m := AttachIfsToBridge(s.k, f, HOST, h.name);
      if m.ok { RuleStep(m.k, f, a.physicalIf, a.cidr); }
    }
  }

  lemma GivesAddressInSetup(f: Faults, a: AttachArgs)
    ensures SetupCalls(f, a) ==> GivesAddress(f, a.cidr)
  {
    hide Parse;
  }

  lemma FormLeaves(k0: Kernel, k: Kernel, k1: Kernel, f: Faults, a: AttachArgs)
    requires k0.cur == HOST && Reaches(k0, f, a) && Unpaired(k0, k) && Opened(k0, k, a)
    requires VX in k.links && k1.links == LinksOver(k0, k, f, a)
    requires k1.cur == if Strands(k0, f, a) then k0.paths[a.id.netns] else HOST
    ensures LinksLeft(k0, k1, f, a)
  {
    hide HostName, TmpName, Parse, MastersExist, SetupCalls, Entered, GivesRoute, GivesAddress;
    GeneratedNamesApart(a.id, a.id);
  }

  /** Attaching, with any faults and wherever it stops, leaves exactly this. */
  lemma AttachLeaves(k0: Kernel, f: Faults, a: AttachArgs)
    requires Sound(k0) && k0.cur == HOST && ShiftDefined(a.cidr)
    ensures LeftBehind(k0, Attach(k0, f, a).k, f, a)
  {
    hide HostName, TmpName, CreateBridge, CreateVxlan, SetupVeth, AttachIfsToBridge, InstallRule, Parse, Sound,
      LinksLeft, Unpaired, Opened, Stopped, NatRule;
    AttachStep(k0, f, a);
    var r := Attach(k0, f, a);
    if !Begins(k0, f, a) {
      NothingLeft(k0, f, a);
    } else if !OpeningSucceeds(k0, f, a) {
      OpeningLeaves(k0, f, a);
      OpeningStep(k0, f, a);
    } else {
      OpeningStep(k0, f, a);
      var k := CreateVxlan(CreateBridge(k0, f, HOST, a.bridgeCidr).k, f, HOST, a.physicalIf).k;
      TailForm(k0, k, f, a);
      FormLeaves(k0, k, r.k, f, a);
      assert r == Tail(k, f, a, k0.paths[a.id.netns]);
    }
    StoppedPaths(k0, r.k, a);
  }

  lemma NothingLeft(k0: Kernel, f: Faults, a: AttachArgs)
    requires !Begins(k0, f, a)
    ensures LinksLeft(k0, k0, f, a)
  {
    hide HostName, TmpName, Parse;
  }

  lemma StoppedPaths(k0: Kernel, k1: Kernel, a: AttachArgs)
    requires Stopped(k0, k1, a)
    ensures k1.paths == k0.paths
  {
    hide HostName, TmpName, Kept, NewWithin, MastersExist, RoutesKept, Parse;
  }

  /** What is there after a successful attach, by the names and numbers the node is left with. */
  lemma AttachedByName(k0: Kernel, f: Faults, a: AttachArgs)
    requires Sound(k0) && k0.cur == HOST && ShiftDefined(a.cidr) && Attach(k0, f, a).ok
    ensures var k1, bridge, vxlan := Attach(k0, f, a).k, Key(0, "brsknf"), Key(0, "vxsknf");
      var host := Key(0, HostName(a.id));
      && bridge in k1.links && vxlan in k1.links && host in k1.links
      && Parse(a.bridgeCidr).Ok?
      && (bridge !in k0.links ==>
           k1.links[bridge] == Link(BridgeLink, true, None, {Parse(a.bridgeCidr).value}, None))
      && (vxlan !in k0.links ==>
           k1.links[vxlan] == Link(VxlanLink(a.physicalIf, "239.1.1.100", 100, 4789), true, Some("brsknf"), {}, None))
      && k1.links[vxlan].master == Some("brsknf") && k1.links[host].master == Some("brsknf")
  {
    hide HostName, TmpName, Attach, Parse, Sound, Stopped, Paired, MastersExist, OtherLinks, NatRule;
    AttachStep(k0, f, a);
    AttachLeaves(k0, f, a);
  }
}
