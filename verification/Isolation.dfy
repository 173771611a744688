/** What attaching and detaching promise to everybody else, and how a failed attach is undone. */
module Isolation {
  import opened Words
  import opened Cidrs
  import opened Naming
  import opened Kernels
  import opened Net
  import opened NetSteps
  import opened NetTheorems

  // ---------------------------------------------------------------- attaching

  lemma StoppedKeeps(k0: Kernel, k1: Kernel, a: AttachArgs)
    requires Stopped(k0, k1, a)
    ensures Kept(k0, k1) && k1.paths == k0.paths && MastersExist(k1)
    ensures HostKey(a.id) in k0.links ==> Unpaired(k0, k1)
  {
    hide HostName, TmpName, NewWithin, RoutesKept, MastersExist;
  }

  lemma AttachKeepsSound(k0: Kernel, f: Faults, a: AttachArgs)
    requires Sound(k0) && k0.cur == HOST && ShiftDefined(a.cidr)
    ensures Sound(Attach(k0, f, a).k)
  {
    hide HostName, TmpName, Attach, Sound, Paired, Unpaired, RoutesKept, Parse;
    AttachStep(k0, f, a);
    var k1, h, t := Attach(k0, f, a).k, HostKey(a.id), TmpKey(a.id);
    if Unpaired(k0, k1) {
      UnpairedIsSound(k0, k1);
    } else if Paired(k0, k1, h, t) && k1.routes == k0.routes {
      SameRoutesKept(k0, k1, t);
      PairedIsSound(k0, k1, h, t);
    } else {
      PairedIsSound(k0, k1, h, PodKey(k0, a.id));
    }
  }

  lemma SameRoutesKept(k0: Kernel, k1: Kernel, e: Key)
    requires k1.routes == k0.routes
    ensures RoutesKept(k0, k1, e)
  {
  }

  /** Attaching, wherever it stops, leaves every interface it found as it was, except that the VXLAN
      may join the bridge; and it leaves every other namespace's default route alone.  When the host
      name is taken it fails and has created at most the bridge and the VXLAN. */
  lemma AttachIsolates(k0: Kernel, f: Faults, a: AttachArgs)
    requires Sound(k0) && k0.cur == HOST && ShiftDefined(a.cidr)
    ensures var r := Attach(k0, f, a);
      && Kept(k0, r.k)
      && (forall ns :: !(a.id.netns in k0.paths && ns == k0.paths[a.id.netns]) ==>
           (ns in r.k.routes <==> ns in k0.routes) && (ns in k0.routes ==> r.k.routes[ns] == k0.routes[ns]))
      && (HostKey(a.id) in k0.links ==> !r.ok && Unpaired(k0, r.k))
  {
    hide HostName, TmpName, Attach, Sound, Paired, Unpaired, Kept, Parse, Stopped, SetupCalls, OpeningSucceeds;
    AttachStep(k0, f, a);
    StoppedKeeps(k0, Attach(k0, f, a).k, a);
  }

  /** The one thing attaching can take from another attachment is the default route of a namespace
      they share: that route survives exactly when attaching does not get as far as installing one. */
  lemma SharedNamespaceLosesItsRoute(k0: Kernel, f: Faults, a: AttachArgs)
    requires Sound(k0) && k0.cur == HOST && ShiftDefined(a.cidr)
    requires a.id.netns in k0.paths && k0.paths[a.id.netns] in k0.routes
    ensures var ns, r := k0.paths[a.id.netns], Attach(k0, f, a);
      && ns in r.k.routes
      && (r.k.routes[ns] == k0.routes[ns] <==> !TakesRoute(k0, f, a))
      && (TakesRoute(k0, f, a) ==> r.k.routes[ns].dev == a.id.ifname)
  {
    hide HostName, TmpName, Attach, Paired, Unpaired, Kept, Parse, Stopped, SetupCalls, OpeningSucceeds, Attached,
      MastersExist;
    AttachStep(k0, f, a);
  }

  /** The bridge found is never changed; a bridge made here has the computed address exactly when no
      bridge call failed, and otherwise none. */
  lemma BridgeAddressIsDecidedAtCreation(k0: Kernel, f: Faults, a: AttachArgs)
    requires Sound(k0) && k0.cur == HOST && ShiftDefined(a.cidr)
    ensures var k1 := Attach(k0, f, a).k;
      && (BR in k0.links ==> BR in k1.links && k1.links[BR] == k0.links[BR])
      && (BR !in k0.links && BR in k1.links ==>
           k1.links[BR] == NewBridge(if f !! BRIDGE_CALLS && Assignable(a.bridgeCidr)
                                     then {Parse(a.bridgeCidr).value} else {}))
  {
    hide HostName, TmpName, Sound, Attach, Parse, Stopped, CreateBridge, MastersExist, Kept;
    AttachStep(k0, f, a);
    StoppedKeeps(k0, Attach(k0, f, a).k, a);
    if BR in k0.links {
      KeptBridge(k0, Attach(k0, f, a).k);
    } else {
      BridgeStep(k0, f, a.bridgeCidr);
      var r := CreateBridge(k0, f, HOST, a.bridgeCidr);
      AttachAfterBridge(k0, f, a);
      if BR in Attach(k0, f, a).k.links && r.ok {
        OpeningStep(k0, f, a);
        UnpairedIsSound(k0, r.k);
        AttachStep(r.k, f, a);
        StoppedKeeps(r.k, Attach(r.k, f, a).k, a);
        KeptBridge(r.k, Attach(r.k, f, a).k);
      }
    }
  }

  lemma KeptBridge(k0: Kernel, k1: Kernel)
    requires Kept(k0, k1) && BR in k0.links
    ensures BR in k1.links && k1.links[BR] == k0.links[BR]
  {
  }

  /** Attaching goes on after making the bridge as it would have done with the bridge in place. */
  lemma AttachAfterBridge(k0: Kernel, f: Faults, a: AttachArgs)
    requires k0.cur == HOST && ShiftDefined(a.cidr)
    ensures var r := CreateBridge(k0, f, HOST, a.bridgeCidr);
      && (f !! {SocketAlloc, SocketConnect, OpenNetns} && a.id.netns in k0.paths ==>
           Attach(k0, f, a) == if r.ok then Attach(r.k, f, a) else r)
      && (!(f !! {SocketAlloc, SocketConnect, OpenNetns} && a.id.netns in k0.paths) ==> Attach(k0, f, a).k == k0)
  {
    hide CreateVxlan, SetupVeth, AttachIfsToBridge, InstallRule, Parse, HostName;
    BridgeStep(k0, f, a.bridgeCidr);
  }

  // ---------------------------------------------------------------- detaching

  /** Detaching removes the pair of the attachment's host name and the routes through it; every other
      interface stays as it was unless its master is gone, every other route stays. */
  lemma DetachIsolates(k: Kernel, f: Faults, id: PodId)
    requires Sound(k) && k.cur == HOST
    ensures var r, h := Detach(k, f, id), HostKey(id);
      && (r.ok <==> f !! DETACH_CALLS && h in k.links)
      && (!r.ok ==> r.k == k)
      && (r.ok ==>
           var gone := Gone(k.links, h);
           && (forall q :: q in r.k.links <==> q in k.links && q !in gone)
           && (forall q :: q in r.k.links ==> r.k.links[q] == Release(k.links[q], q.ns, gone))
           && r.k.routes == DropRoutes(k.routes, gone)
           && r.k.paths == k.paths && r.k.chain == k.chain && r.k.cur == k.cur)
  {
    hide HostName, Detach, Sound;
    DetachStep(k, f, id);
  }

  lemma DetachKeepsSound(k: Kernel, f: Faults, id: PodId)
    requires Sound(k) && k.cur == HOST
    ensures Sound(Detach(k, f, id).k)
  {
    hide HostName, Detach;
    DetachIsolates(k, f, id);
    var r, h := Detach(k, f, id), HostKey(id);
    if r.ok {
      var gone := Gone(k.links, h);
      forall q | q in r.k.links && r.k.links[q].peer.Some?
        ensures var p := r.k.links[q].peer.value; p != q && p in r.k.links && r.k.links[p].peer == Some(q)
      {
        var p := k.links[q].peer.value;
        assert p in k.links && k.links[p].peer == Some(q);
      }
    }
  }

  // ---------------------------------------------------------------- cleanup

  /** Attaching and then detaching without faults: interfaces are back to what they were, plus at most
      the bridge and the VXLAN; detaching reports success exactly when the pair had been created; and
      of the routes only one that attaching replaced is missing. */
  lemma DetachUndoesAttach(k0: Kernel, f: Faults, a: AttachArgs)
    requires Sound(k0) && k0.cur == HOST && ShiftDefined(a.cidr)
    requires HostKey(a.id) !in k0.links
    ensures var k1 := Attach(k0, f, a).k;
      var d := Detach(k1.(cur := HOST), {}, a.id);
      && (d.ok <==> MakesPair(k0, f, a))
      && Kept(k0, d.k) && NewWithin(k0, d.k, {BR, VX})
      && (d.k.routes == if TakesRoute(k0, f, a) then k0.routes - {k0.paths[a.id.netns]} else k0.routes)
      && d.k.paths == k0.paths && d.k.chain == k1.chain
  {
    hide HostName, TmpName, Attach, Detach, Parse, Sound, Paired, Unpaired, Kept, RoutesKept, RoutesAfter, MakesPair,
      TakesRoute;
    AttachStep(k0, f, a);
    var r, h, t := Attach(k0, f, a), HostKey(a.id), TmpKey(a.id);
    var k1 := r.k.(cur := HOST);
    AttachKeepsSound(k0, f, a);
    StoppedKeeps(k0, r.k, a);
    SoundAnywhere(r.k, HOST);
    DetachIsolates(k1, {}, a.id);
    RouteTakenShows(k0, f, a);
    if Unpaired(k0, r.k) {
      UnpairedUndone(k0, r.k, k1, h);
      UnpairedFacts(k0, r.k);
      UnpairedHasNoPair(k0, r.k, a.id);
    } else {
      var e := if Paired(k0, r.k, h, t) && r.k.routes == k0.routes then t else PodKey(k0, a.id);
      PairedFacts(k0, r.k, h, e);
      PairUndone(k0, r.k, k1, Detach(k1, {}, a.id).k, h, e);
      RoutesUndone(k0, f, a, h, e);
    }
  }

  lemma RouteTakenShows(k0: Kernel, f: Faults, a: AttachArgs)
    requires Sound(k0) && k0.cur == HOST && ShiftDefined(a.cidr)
    ensures TakesRoute(k0, f, a) ==> Attach(k0, f, a).k.routes != k0.routes
  {
    hide HostName, TmpName, Attach, MastersExist, Stopped, Parse, OpeningSucceeds;
    AttachStep(k0, f, a);
    if TakesRoute(k0, f, a) {
      var e, routes := PodKey(k0, a.id), Attach(k0, f, a).k.routes;
      assert e.ns in routes && routes[e.ns].dev == e.name;
      assert e.ns in k0.routes ==> Key(e.ns, k0.routes[e.ns].dev) in k0.links;
    }
  }

  lemma SoundAnywhere(k: Kernel, ns: Ns)
    requires Sound(k)
    ensures Sound(k.(cur := ns))
  {
  }

  lemma UnpairedUndone(k0: Kernel, k1: Kernel, k: Kernel, h: Key)
    requires Unpaired(k0, k1) && k.links == k1.links
    ensures Kept(k0, k) && NewWithin(k0, k, {BR, VX})
  {
    hide MastersExist;
  }

  lemma PairUndone(k0: Kernel, k1: Kernel, k: Kernel, d: Kernel, h: Key, e: Key)
    requires Sound(k0) && Paired(k0, k1, h, e) && k.links == k1.links && Sound(k)
    requires h in k.links
    requires var gone := Gone(k.links, h);
      && (forall q :: q in d.links <==> q in k.links && q !in gone)
      && (forall q :: q in d.links ==> d.links[q] == Release(k.links[q], q.ns, gone))
    ensures Kept(k0, d) && NewWithin(k0, d, {BR, VX})
  {
    hide Sound;
    assert Gone(k.links, h) == {h, e};
    OldMastersStay(k0, h, e);
    forall q | q in k0.links
      ensures q in d.links && (d.links[q] == k0.links[q] || (q == VX && d.links[q] == Mastered(k0.links[q])))
    {
      assert q in k1.links && q !in {h, e};
    }
  }

  lemma OldMastersStay(k0: Kernel, h: Key, e: Key)
    requires Sound(k0) && h !in k0.links && e !in k0.links
    ensures forall q :: q in k0.links ==> Release(k0.links[q], q.ns, {h, e}) == k0.links[q]
  {
  }

  /** A route through one of the two ends can only be the one attaching installed. */
  lemma RoutesUndone(k0: Kernel, f: Faults, a: AttachArgs, h: Key, e: Key)
    requires Sound(k0) && k0.cur == HOST && ShiftDefined(a.cidr) && h == HostKey(a.id)
    requires Paired(k0, Attach(k0, f, a).k, h, e)
    requires TakesRoute(k0, f, a) ==> e == PodKey(k0, a.id)
    ensures DropRoutes(Attach(k0, f, a).k.routes, {h, e})
         == if TakesRoute(k0, f, a) then k0.routes - {k0.paths[a.id.netns]} else k0.routes
  {
    hide HostName, TmpName, Attach, MastersExist, Stopped, Parse;
    AttachStep(k0, f, a);
  }

  // ---------------------------------------------------------------- colliding names

  /** An attach whose host name is taken fails and spares everything, but the fault-free detach that
      follows removes the interface of that name and its peer, and nothing else that was there. */
  lemma CleanupHitsTheNamesake(k0: Kernel, f: Faults, a: AttachArgs)
    requires Sound(k0) && k0.cur == HOST && ShiftDefined(a.cidr)
    requires HostKey(a.id) in k0.links
    ensures var r := Attach(k0, f, a);
      var d := Detach(r.k.(cur := HOST), {}, a.id);
      && !r.ok && Kept(k0, r.k) && d.ok
      && (forall q :: q in k0.links ==> (q in d.k.links <==> q !in Gone(k0.links, HostKey(a.id))))
  {
    hide HostName, Attach, Detach, Parse, Sound, MastersExist, Stopped;
    AttachIsolates(k0, f, a);
    AttachKeepsSound(k0, f, a);
    var r, h := Attach(k0, f, a), HostKey(a.id);
    HostIsNotVxlan(a.id);
    assert r.k.links[h] == k0.links[h];
    SoundAnywhere(r.k, HOST);
    DetachIsolates(r.k.(cur := HOST), {}, a.id);
  }

  lemma HostIsNotVxlan(id: PodId)
    ensures HostKey(id) != VX
  {
    hide HostName;
    GeneratedNamesApart(id, id);
  }

  /** Cleaning up after an attach, wherever it stopped, restores the interfaces up to the bridge and
      the VXLAN exactly when no interface had the host name before. */
  lemma CleanupIsSafeExactly(k0: Kernel, f: Faults, a: AttachArgs)
    requires Sound(k0) && k0.cur == HOST && ShiftDefined(a.cidr)
    ensures var d := Detach(Attach(k0, f, a).k.(cur := HOST), {}, a.id);
      Kept(k0, d.k) && NewWithin(k0, d.k, {BR, VX}) <==> HostKey(a.id) !in k0.links
  {
    hide HostName, Attach, Detach, Sound, MakesPair, TakesRoute, NewWithin;
    if HostKey(a.id) in k0.links {
      CleanupHitsTheNamesake(k0, f, a);
    } else {
      DetachUndoesAttach(k0, f, a);
    }
  }

  // ---------------------------------------------------------------- namespaces

  /** Nothing outside namespace `ns` differs from `k`. */
  ghost predicate OnlyInside(k: Kernel, ns: Ns, links: map<Key, Link>, routes: map<Ns, Route>) {
    && links.Keys == k.links.Keys
    && (forall q :: q in k.links && q.ns != ns ==> links[q] == k.links[q])
    && (forall n :: n != ns ==> (n in routes <==> n in k.routes) && (n in k.routes ==> routes[n] == k.routes[n]))
  }

  /** Configuring the pod's end, from any kernel and with any faults, changes no interface, address or
      route outside the pod's namespace, and neither paths nor rules. */
  lemma NothingOutsideThePod(k: Kernel, f: Faults, ns: Ns, dev: string, cidr: string, bridgeCidr: string)
    ensures var r := ConfigureContainerVeth(k, f, ns, dev, cidr, bridgeCidr);
      OnlyInside(k, ns, r.k.links, r.k.routes) && r.k.paths == k.paths && r.k.chain == k.chain
  {
    hide Parse, AddrAdd, RouteAdd, OnlyInside;
    var inside := k.(cur := ns);
    NothingYet(k, ns);
    if Parse(cidr).Ok? {
      AddrAddStaysInside(k, inside, ns, dev, Parse(cidr).value);
      if Parse(bridgeCidr).Ok? {
        RouteAddStaysInside(k, AddrAdd(inside, ns, dev, Parse(cidr).value).k, ns, Parse(bridgeCidr).value.addr, dev);
      }
    }
  }

  lemma NothingYet(k: Kernel, ns: Ns)
    ensures OnlyInside(k, ns, k.links, k.routes)
  {
  }

  lemma AddrAddStaysInside(k0: Kernel, k: Kernel, sk: Ns, dev: string, c: Cidr)
    requires OnlyInside(k0, sk, k.links, k.routes)
    ensures var r := AddrAdd(k, sk, dev, c);
      && OnlyInside(k0, sk, r.k.links, r.k.routes)
      && r.k.paths == k.paths && r.k.chain == k.chain && r.k.cur == k.cur
  {
  }

  lemma RouteAddStaysInside(k0: Kernel, k: Kernel, sk: Ns, gateway: word, dev: string)
    requires OnlyInside(k0, sk, k.links, k.routes)
    ensures var r := RouteAdd(k, sk, gateway, dev);
      && OnlyInside(k0, sk, r.k.links, r.k.routes)
      && r.k.paths == k.paths && r.k.chain == k.chain && r.k.cur == k.cur
  {
  }

  /** The process is back where it was unless it had entered the pod's namespace, failed, and failed
      again to go back. */
  lemma NamespaceIsRestored(k: Kernel, f: Faults, ns: Ns, dev: string, cidr: string, bridgeCidr: string)
    ensures var r := ConfigureContainerVeth(k, f, ns, dev, cidr, bridgeCidr);
      r.k.cur == k.cur <==> r.ok || RestoreNs !in f || !Entered(f) || ns == k.cur
  {
    hide Parse, AddrAdd, RouteAdd;
    var inside := k.(cur := ns);
    if Parse(cidr).Ok? {
      AddrAddStaysHere(inside, ns, dev, Parse(cidr).value);
      if Parse(bridgeCidr).Ok? {
        RouteAddStaysHere(AddrAdd(inside, ns, dev, Parse(cidr).value).k, ns, Parse(bridgeCidr).value.addr, dev);
      }
    }
  }

  lemma AddrAddStaysHere(k: Kernel, sk: Ns, dev: string, c: Cidr)
    ensures AddrAdd(k, sk, dev, c).k.cur == k.cur
  {
  }

  lemma RouteAddStaysHere(k: Kernel, sk: Ns, gateway: word, dev: string)
    ensures RouteAdd(k, sk, gateway, dev).k.cur == k.cur
  {
  }
}
