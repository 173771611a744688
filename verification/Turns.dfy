/** Exactly when invocations running side by side hand out different addresses: when each computes its
    address in turn. */
module Turns {
  import opened Words
  import opened Text
  import opened Cidrs
  import opened Io
  import opened Ip
  import opened IpRuns
  import opened Interleaving
  import opened Exclusion

  predicate Pending(p: Process) { p.Ready? || p.Opened? }

  predicate ComputesNow(cfg: Config, s: State, m: Move)
    requires m.proc < |s.procs|
  {
    s.procs[m.proc].Checked? && Next(cfg, s, m).procs[m.proc].Ready?
  }

  /** Unless the step computes an address while another one is on its way to the file, or takes the
      file to be absent when it is there. */
  predicate InTurnStep(cfg: Config, s: State, m: Move)
    requires m.proc < |s.procs|
  {
    ComputesNow(cfg, s, m) ==>
      (s.file.Some? ==> s.procs[m.proc].present) && forall i :: 0 <= i < |s.procs| ==> !Pending(s.procs[i])
  }

  ghost predicate InTurn(cfg: Config, k: nat, sched: seq<Move>)
    requires Schedule(k, sched)
  {
    forall n :: 0 <= n < |sched| ==> InTurnStep(cfg, Run(cfg, k, sched[..n]), sched[n])
  }

  function OrderAfter(cfg: Config, s: State, m: Move, order: seq<nat>): seq<nat>
    requires m.proc < |s.procs|
  {
    if ComputesNow(cfg, s, m) then order + [m.proc] else order
  }

  /** The processes that computed an address, in that order. */
  function Computed(cfg: Config, k: nat, sched: seq<Move>): seq<nat>
    requires Schedule(k, sched)
  {
    if sched == [] then []
    else
      var init := sched[..|sched| - 1];
      OrderAfter(cfg, Run(cfg, k, init), sched[|sched| - 1], Computed(cfg, k, init))
  }

  /** Whoever holds an address, or is about to, holds one of its own. */
  predicate AllDiffer(procs: seq<Process>) {
    forall i, j :: 0 <= i < j < |procs| && Holding(procs[i]) && Holding(procs[j]) ==>
      procs[i].cidr.addr != procs[j].cidr.addr
  }

  /** Checks and reads may fail, writes do not. */
  predicate WriteSucceeds(m: Move) { !m.fault.OpenFails? && !m.fault.TearsAfter? }

  predicate WritesSucceed(sched: seq<Move>) { forall n :: 0 <= n < |sched| ==> WriteSucceeds(sched[n]) }

  predicate Configured(cfg: Config) { Parse(cfg.subnet).Ok? && Parse(cfg.clusterCidr).Ok? }

  /** The file that shows the `m`-th address. */
  function FileAt(cfg: Config, m: nat): Option<string>
    requires Configured(cfg)
  {
    if m == 0 then None else Some(Print(PodCidr(cfg, Nth(Base(cfg), m))))
  }

  predicate Numbered(cfg: Config, p: Process, n: nat) {
    Configured(cfg) && Holding(p) && p.cidr == PodCidr(cfg, Nth(Base(cfg), n))
  }

  predicate FileInTurn(cfg: Config, file: Option<string>, last: Process, m: nat)
    requires Configured(cfg) && m > 0
  {
    match last
    case Ready(_) => file == FileAt(cfg, m - 1)
    case Opened(_) => file == Some("")
    case _ => file == FileAt(cfg, m)
  }

  /** The holders are numbered in the order in which they computed, only the last can be pending, and
      the file is as far as the last has got. */
  ghost predicate Turned(cfg: Config, s: State, order: seq<nat>) {
    && (forall n :: 0 <= n < |order| ==> order[n] < |s.procs| && Numbered(cfg, s.procs[order[n]], n + 1))
    && (forall m, n :: 0 <= m < n < |order| ==> order[m] != order[n])
    && (forall i :: 0 <= i < |s.procs| && Holding(s.procs[i]) ==> i in order)
    && (forall i :: 0 <= i < |s.procs| && Pending(s.procs[i]) ==> order != [] && i == order[|order| - 1])
    && if order == [] then s.file == None
       else FileInTurn(cfg, s.file, s.procs[order[|order| - 1]], |order|)
  }

  // ---------------------------------------------------------------- computing

  lemma ComputeFrom(cfg: Config, m: nat, present: bool, fails: bool)
    requires Configured(cfg)
    ensures ReadAndCompute(cfg, FileAt(cfg, m), present, fails) ==
      if m == 0 || !present then Ready(PodCidr(cfg, Nth(Base(cfg), 1)))
      else if fails then Failed else Ready(PodCidr(cfg, Nth(Base(cfg), m + 1)))
  {
    hide Parse, StoredText, Nth, Base, Print, PodCidr, NextCidr;
    ComputeInTurn(cfg, None, 0);
    if m > 0 { ComputeInTurn(cfg, FileAt(cfg, m), m); }
  }

  lemma ComputeFromEmpty(cfg: Config, present: bool, fails: bool)
    requires Configured(cfg)
    ensures ReadAndCompute(cfg, Some(""), present, fails) ==
      if present then Failed else Ready(PodCidr(cfg, Nth(Base(cfg), 1)))
  {
    hide Parse, Nth, Base, Print, PodCidr;
    ComputeInTurn(cfg, None, 0);
    EmptyDoesNotParse();
    StoredTextOfCidrText("");
  }

  lemma NothingToCompute(cfg: Config, present: bool, fails: bool)
    requires !Configured(cfg)
    ensures ReadAndCompute(cfg, None, present, fails) == Failed
  {
  }

  // ---------------------------------------------------------------- one step

  /** A step between states in which its process holds nothing. */
  lemma NothingHeld(cfg: Config, s: State, order: seq<nat>, i: nat, p: Process)
    requires Turned(cfg, s, order) && i < |s.procs| && !Holding(s.procs[i]) && !Holding(p)
    ensures Turned(cfg, s.(procs := s.procs[i := p]), order)
  {
    hide Numbered, FileInTurn;
    forall n | 0 <= n < |order| ensures order[n] != i {
      assert Numbered(cfg, s.procs[order[n]], n + 1);
      NumberedHolds(cfg, s.procs[order[n]], n + 1);
    }
  }

  lemma NumberedHolds(cfg: Config, p: Process, n: nat)
    requires Numbered(cfg, p, n)
    ensures Holding(p) && Configured(cfg)
  {
  }

  /** The last holder opens or writes the file. */
  lemma LastGoesOn(cfg: Config, s: State, order: seq<nat>, i: nat, t: State)
    requires Turned(cfg, s, order) && i < |s.procs| && Pending(s.procs[i]) && |t.procs| == |s.procs|
    requires t.procs == s.procs[i := t.procs[i]]
    requires Numbered(cfg, t.procs[i], |order|) && FileInTurn(cfg, t.file, t.procs[i], |order|)
    ensures Turned(cfg, t, order)
  {
    hide Numbered, FileInTurn;
    NumberedHolds(cfg, t.procs[i], |order|);
    forall n | 0 <= n < |order| ensures Numbered(cfg, t.procs[order[n]], n + 1) {
      assert Numbered(cfg, s.procs[order[n]], n + 1);
    }
  }

  /** A process computes the next address while nobody is pending. */
  lemma NextInOrder(cfg: Config, s: State, order: seq<nat>, i: nat, p: Process)
    requires Turned(cfg, s, order) && i < |s.procs| && !Holding(s.procs[i])
    requires forall j :: 0 <= j < |s.procs| ==> !Pending(s.procs[j])
    requires p.Ready? && Numbered(cfg, p, |order| + 1) && s.file == FileAt(cfg, |order|)
    ensures Turned(cfg, s.(procs := s.procs[i := p]), order + [i])
  {
    hide Numbered, FileAt;
    var t, longer := s.(procs := s.procs[i := p]), order + [i];
    NumberedHolds(cfg, p, |order| + 1);
    forall n | 0 <= n < |order| ensures order[n] != i {
      assert Numbered(cfg, s.procs[order[n]], n + 1);
      NumberedHolds(cfg, s.procs[order[n]], n + 1);
    }
    forall j | 0 <= j < |t.procs| && Holding(t.procs[j]) ensures j in longer {
      if j == i { assert longer[|order|] == i; } else { assert j in order; }
    }
  }

  /** With nobody pending the file shows the last address computed. */
  lemma FileWhenSettled(cfg: Config, s: State, order: seq<nat>)
    requires Turned(cfg, s, order) && Configured(cfg)
    requires forall j :: 0 <= j < |s.procs| ==> !Pending(s.procs[j])
    ensures s.file == FileAt(cfg, |order|)
  {
    hide Numbered, FileAt;
    if order == [] {
      NoFile(cfg);
    } else {
      assert !Pending(s.procs[order[|order| - 1]]);
    }
  }

  lemma NoFile(cfg: Config)
    requires Configured(cfg)
    ensures FileAt(cfg, 0) == None
  {
  }

  lemma Alike(cfg: Config, procs: seq<Process>, i: nat, j: nat, n: nat)
    requires i < |procs| && j < |procs| && i != j && Numbered(cfg, procs[i], n) && Numbered(cfg, procs[j], n)
    ensures !AllDiffer(procs)
  {
    var a, b := if i < j then i else j, if i < j then j else i;
    assert procs[a].cidr.addr == procs[b].cidr.addr;
  }

  /** Out of turn, a process computes the first address again, or the last. */
  lemma OutOfTurnRepeats(cfg: Config, s: State, order: seq<nat>, i: nat, fails: bool)
    requires Turned(cfg, s, order) && i < |s.procs| && s.procs[i].Checked?
    requires var p := ReadAndCompute(cfg, s.file, s.procs[i].present, fails);
      && p.Ready?
      && !((s.file.Some? ==> s.procs[i].present) && forall j :: 0 <= j < |s.procs| ==> !Pending(s.procs[j]))
    ensures !AllDiffer(s.procs[i := ReadAndCompute(cfg, s.file, s.procs[i].present, fails)])
  {
    hide ReadAndCompute, Parse, Nth, Base, PodCidr, Print;
    var present := s.procs[i].present;
    var p, m := ReadAndCompute(cfg, s.file, present, fails), |order|;
    if !Configured(cfg) { NothingToCompute(cfg, present, fails); }
    NoFile(cfg);
    assert m > 0;
    var last := order[m - 1];
    assert Numbered(cfg, s.procs[last], m) && Numbered(cfg, s.procs[order[0]], 1);
    if s.file == Some("") { ComputeFromEmpty(cfg, present, fails); }
    ComputeFrom(cfg, m - 1, present, fails);
    ComputeFrom(cfg, m, present, fails);
    var n := if Numbered(cfg, p, 1) then 1 else m;
    assert Numbered(cfg, p, n);
    Alike(cfg, s.procs[i := p], i, order[n - 1], n);
  }

  lemma TurnedStep(cfg: Config, s: State, m: Move, order: seq<nat>)
    requires m.proc < |s.procs| && Turned(cfg, s, order) && WriteSucceeds(m)
    ensures if InTurnStep(cfg, s, m) then Turned(cfg, Next(cfg, s, m), OrderAfter(cfg, s, m, order))
            else !AllDiffer(Next(cfg, s, m).procs)
  {
    hide ReadAndCompute, Parse, Turned, Nth, Base, PodCidr, Print, Overlay, AllDiffer, Numbered, FileInTurn;
    var i, t := m.proc, Next(cfg, s, m);
    match s.procs[i]
    case Idle => NothingHeld(cfg, s, order, i, t.procs[i]);
    case Checked(present) =>
      var p := ReadAndCompute(cfg, s.file, present, m.fault.ReadFails?);
      if p.Ready? {
        if InTurnStep(cfg, s, m) {
          InTurnComputes(cfg, s, order, present, m.fault.ReadFails?);
          NextInOrder(cfg, s, order, i, p);
        } else {
          OutOfTurnRepeats(cfg, s, order, i, m.fault.ReadFails?);
        }
      } else {
        ReadsOrFails(cfg, s.file, present, m.fault.ReadFails?);
        NothingHeld(cfg, s, order, i, p);
      }
    case Ready(c) =>
      PendingIsLast(cfg, s, order, i);
      OpensInTurn(cfg, c, |order|);
      LastGoesOn(cfg, s, order, i, t);
    case Opened(c) =>
      PendingIsLast(cfg, s, order, i);
      WritesInTurn(cfg, c, |order|);
      LastGoesOn(cfg, s, order, i, t);
    case _ =>
  }

  lemma ReadsOrFails(cfg: Config, file: Option<string>, present: bool, fails: bool)
    ensures var p := ReadAndCompute(cfg, file, present, fails); p.Ready? || p == Failed
  {
  }

  lemma InTurnComputes(cfg: Config, s: State, order: seq<nat>, present: bool, fails: bool)
    requires Turned(cfg, s, order) && (s.file.Some? ==> present) && ReadAndCompute(cfg, s.file, present, fails).Ready?
    requires forall j :: 0 <= j < |s.procs| ==> !Pending(s.procs[j])
    ensures Numbered(cfg, ReadAndCompute(cfg, s.file, present, fails), |order| + 1)
    ensures s.file == FileAt(cfg, |order|)
  {
    hide ReadAndCompute, Parse, Turned, Nth, Base, PodCidr, Print;
    Settled(cfg, s, order);
    if !Configured(cfg) { NothingToCompute(cfg, present, fails); }
    FileWhenSettled(cfg, s, order);
    ComputeFrom(cfg, |order|, present, fails);
  }

  lemma Settled(cfg: Config, s: State, order: seq<nat>)
    requires Turned(cfg, s, order)
    ensures !Configured(cfg) ==> s.file == None
  {
    if order != [] { assert Numbered(cfg, s.procs[order[0]], 1); }
  }

  lemma PendingIsLast(cfg: Config, s: State, order: seq<nat>, i: nat)
    requires Turned(cfg, s, order) && i < |s.procs| && Pending(s.procs[i])
    ensures |order| > 0 && Numbered(cfg, s.procs[i], |order|)
    ensures FileInTurn(cfg, s.file, s.procs[i], |order|)
    ensures s.procs[i].Opened? ==> s.file == Some("")
  {
    hide Numbered;
    assert Numbered(cfg, s.procs[order[|order| - 1]], |order|);
  }

  lemma OpensInTurn(cfg: Config, c: Cidr, m: nat)
    requires m > 0 && Numbered(cfg, Ready(c), m)
    ensures Numbered(cfg, Opened(c), m) && FileInTurn(cfg, Some(""), Opened(c), m)
  {
  }

  lemma WritesInTurn(cfg: Config, c: Cidr, m: nat)
    requires m > 0 && Numbered(cfg, Opened(c), m)
    ensures Numbered(cfg, Done(c), m) && FileInTurn(cfg, Some(Overlay(Print(c), "")), Done(c), m)
  {
    hide Print, Overlay;
    OverlayOfNothing(Print(c));
  }

  /** An address held twice stays held twice. */
  lemma AlikeForGood(cfg: Config, s: State, m: Move)
    requires m.proc < |s.procs| && WriteSucceeds(m) && !AllDiffer(s.procs)
    ensures !AllDiffer(Next(cfg, s, m).procs)
  {
    hide ReadAndCompute, Print, Overlay;
    var i, j :| 0 <= i < j < |s.procs| && Holding(s.procs[i]) && Holding(s.procs[j])
      && s.procs[i].cidr.addr == s.procs[j].cidr.addr;
    var t := Next(cfg, s, m);
    assert Holding(t.procs[i]) && t.procs[i].cidr == s.procs[i].cidr;
    assert Holding(t.procs[j]) && t.procs[j].cidr == s.procs[j].cidr;
  }

  // ---------------------------------------------------------------- runs

  lemma InTurnSoFar(cfg: Config, k: nat, sched: seq<Move>)
    requires Schedule(k, sched) && sched != []
    ensures var init := sched[..|sched| - 1];
      InTurn(cfg, k, sched) <==> InTurn(cfg, k, init) && InTurnStep(cfg, Run(cfg, k, init), sched[|sched| - 1])
  {
    hide Run, InTurnStep;
    var init := sched[..|sched| - 1];
    assert forall n :: 0 <= n < |init| ==> init[..n] == sched[..n] && init[n] == sched[n];
  }

  /** A run is in turn and numbers its holders in the order in which they computed, or two of them hold
      the same address. */
  lemma {:induction false} TurnedOrAlike(cfg: Config, k: nat, sched: seq<Move>)
    requires Schedule(k, sched) && WritesSucceed(sched)
    ensures var s := Run(cfg, k, sched);
      if InTurn(cfg, k, sched) then Turned(cfg, s, Computed(cfg, k, sched)) else !AllDiffer(s.procs)
    decreases |sched|
  {
    if sched != [] {
      hide Next, Turned, AllDiffer, InTurnStep, OrderAfter, InTurn;
      var init, m := sched[..|sched| - 1], sched[|sched| - 1];
      TurnedOrAlike(cfg, k, init);
      InTurnSoFar(cfg, k, sched);
      var s := Run(cfg, k, init);
      if InTurn(cfg, k, init) {
        TurnedStep(cfg, s, m, Computed(cfg, k, init));
      } else {
        AlikeForGood(cfg, s, m);
      }
    }
  }

  lemma NthAlikeExactly(base: word, m: nat, n: nat)
    requires 0 < m < n
    ensures n <= TWO_32 ==> Nth(base, m) != Nth(base, n)
    ensures m == 1 && n == TWO_32 + 1 ==> Nth(base, m) == Nth(base, n)
  {
  }

  lemma TurnedDiffers(cfg: Config, s: State, order: seq<nat>)
    requires Turned(cfg, s, order)
    ensures AllDiffer(s.procs) <==> |order| <= TWO_32
  {
    hide Nth, Base, Parse, FileInTurn;
    if |order| > TWO_32 {
      NthAlikeExactly(Base(cfg), 1, TWO_32 + 1);
      var i, j := order[0], order[TWO_32];
      assert Numbered(cfg, s.procs[i], 1) && Numbered(cfg, s.procs[j], TWO_32 + 1);
      assert Numbered(cfg, s.procs[j], 1);
      Alike(cfg, s.procs, i, j, 1);
    } else {
      forall i, j | 0 <= i < j < |s.procs| && Holding(s.procs[i]) && Holding(s.procs[j])
        ensures s.procs[i].cidr.addr != s.procs[j].cidr.addr
      {
        var m :| 0 <= m < |order| && order[m] == i;
        var n :| 0 <= n < |order| && order[n] == j;
        assert Numbered(cfg, s.procs[i], m + 1) && Numbered(cfg, s.procs[j], n + 1);
        NthAlikeExactly(Base(cfg), if m < n then m + 1 else n + 1, if m < n then n + 1 else m + 1);
      }
    }
  }

  /** While writes succeed, nobody shares an address exactly when every process computed its address in
      turn and there were no more of them than addresses; checks and reads may fail. */
  lemma DifferExactlyInTurn(cfg: Config, k: nat, sched: seq<Move>)
    requires Schedule(k, sched) && WritesSucceed(sched)
    ensures AllDiffer(Run(cfg, k, sched).procs) <==>
      InTurn(cfg, k, sched) && |Computed(cfg, k, sched)| <= TWO_32
  {
    hide Run, InTurn, Turned, AllDiffer, Computed;
    TurnedOrAlike(cfg, k, sched);
    if InTurn(cfg, k, sched) { TurnedDiffers(cfg, Run(cfg, k, sched), Computed(cfg, k, sched)); }
  }

  /** When nobody is still under way, these are the addresses handed out. */
  lemma HandedOutOnceExactlyInTurn(cfg: Config, k: nat, sched: seq<Move>)
    requires Schedule(k, sched) && WritesSucceed(sched)
    requires forall i :: 0 <= i < k ==> !Pending(Run(cfg, k, sched).procs[i])
    ensures var procs := Run(cfg, k, sched).procs;
      (forall i, j :: 0 <= i < j < k && procs[i].Done? && procs[j].Done? ==>
        procs[i].cidr.addr != procs[j].cidr.addr)
      <==> InTurn(cfg, k, sched) && |Computed(cfg, k, sched)| <= TWO_32
  {
    hide Run, InTurn, Computed;
    DifferExactlyInTurn(cfg, k, sched);
    var procs := Run(cfg, k, sched).procs;
    assert forall i :: 0 <= i < k ==> (Holding(procs[i]) <==> procs[i].Done?);
  }

  /** In turn, the `n`-th process to compute holds the `n`-th address. */
  lemma InTurnIsNumbered(cfg: Config, k: nat, sched: seq<Move>, n: nat)
    requires Schedule(k, sched) && WritesSucceed(sched) && InTurn(cfg, k, sched)
    requires n < |Computed(cfg, k, sched)|
    ensures var i := Computed(cfg, k, sched)[n];
      i < k && Numbered(cfg, Run(cfg, k, sched).procs[i], n + 1)
  {
    hide Run, InTurn, Computed, Numbered, FileInTurn;
    TurnedOrAlike(cfg, k, sched);
  }

  // ---------------------------------------------------------------- writes that fail

  /** How many writes put an address into the file, complete or not. */
  function Published(cfg: Config, k: nat, sched: seq<Move>): nat
    requires Schedule(k, sched)
  {
    if sched == [] then 0
    else
      var init, m := sched[..|sched| - 1], sched[|sched| - 1];
      var s := Run(cfg, k, init);
      Published(cfg, k, init) + if s.procs[m.proc].Opened? && Abs(Next(cfg, s, m).file).At? then 1 else 0
  }

  predicate HasNumber(cfg: Config, p: Process, n: nat) {
    Parse(cfg.clusterCidr).Ok? && Holding(p) && p.cidr == PodCidr(cfg, Nth(Base(cfg), n))
  }

  ghost predicate DoneWithin(cfg: Config, p: Process, d: nat) {
    exists n :: 0 < n <= d && HasNumber(cfg, p, n)
  }

  predicate DoneDiffer(procs: seq<Process>) {
    forall i, j :: 0 <= i < j < |procs| && procs[i].Done? && procs[j].Done? ==>
      procs[i].cidr.addr != procs[j].cidr.addr
  }

  /** With `d` addresses published at most one process is pending, with the next one, and it alone can
      have truncated the file; whoever is done has a published address. */
  ghost predicate Orderly(cfg: Config, s: State, d: nat) {
    && (forall i, j :: 0 <= i < j < |s.procs| ==> !(Pending(s.procs[i]) && Pending(s.procs[j])))
    && (forall i :: 0 <= i < |s.procs| && Pending(s.procs[i]) ==> HasNumber(cfg, s.procs[i], d + 1))
    && (forall i :: 0 <= i < |s.procs| && s.procs[i].Opened? ==> s.file == Some(""))
    && (forall i :: 0 <= i < |s.procs| && s.procs[i].Done? ==> DoneWithin(cfg, s.procs[i], d))
    && DoneDiffer(s.procs) && CounterShows(cfg, s.file, d)
  }

  lemma ComputesUpcoming(cfg: Config, file: Option<string>, present: bool, fails: bool, d: nat)
    requires (file.Some? ==> present) && CounterShows(cfg, file, d)
    ensures var p := ReadAndCompute(cfg, file, present, fails);
      p == Failed || (p.Ready? && HasNumber(cfg, p, d + 1))
  {
    hide Parse, StoredText, Increment, Nth, Base, Abs, Print, LastAcquired;
    var env := Env(!present, fails, Complete);
    LastAcquiredByCounter(file, cfg, env);
    var l := LastAcquired(file, cfg.subnet, env);
    if l.Ok? && Parse(l.value).Ok? { UpcomingIsIncrement(file, cfg, env); }
    NthStep(Base(cfg), d);
  }

  /** A step that publishes nothing and ends no process well. */
  lemma OrderlyGoesOn(cfg: Config, s: State, i: nat, t: State, d: nat)
    requires Orderly(cfg, s, d) && i < |s.procs| == |t.procs| && t.procs == s.procs[i := t.procs[i]]
    requires !s.procs[i].Done? && !t.procs[i].Done? && CounterShows(cfg, t.file, d)
    requires Pending(t.procs[i]) ==> HasNumber(cfg, t.procs[i], d + 1)
    requires Pending(t.procs[i]) ==> forall j :: 0 <= j < |s.procs| && j != i ==> !Pending(s.procs[j])
    requires t.procs[i].Opened? ==> t.file == Some("")
    requires t.file == s.file || Pending(s.procs[i])
    ensures Orderly(cfg, t, d)
  {
    hide HasNumber, CounterShows, DoneWithin;
  }

  /** The pending process writes its address. */
  lemma OrderlyPublishes(cfg: Config, s: State, i: nat, t: State, d: nat)
    requires Orderly(cfg, s, d) && i < |s.procs| == |t.procs| && t.procs == s.procs[i := t.procs[i]]
    requires s.procs[i].Opened? && (t.procs[i] == Failed || t.procs[i] == Done(s.procs[i].cidr))
    requires CounterShows(cfg, t.file, d + 1) && d < TWO_32
    ensures Orderly(cfg, t, d + 1)
  {
    hide HasNumber, CounterShows, Nth, Base, Parse;
    MoreDone(cfg, s.procs, d);
    assert HasNumber(cfg, s.procs[i], d + 1);
    if t.procs[i].Done? {
      SameNumber(cfg, s.procs[i], t.procs[i], d + 1);
      forall j | 0 <= j < |s.procs| && s.procs[j].Done?
        ensures s.procs[j].cidr.addr != t.procs[i].cidr.addr
      {
        var n :| 0 < n <= d && HasNumber(cfg, s.procs[j], n);
        NumbersDiffer(cfg, s.procs[j], t.procs[i], n, d + 1);
      }
      assert DoneWithin(cfg, t.procs[i], d + 1);
    }
  }

  lemma MoreDone(cfg: Config, procs: seq<Process>, d: nat)
    requires forall i :: 0 <= i < |procs| && procs[i].Done? ==> DoneWithin(cfg, procs[i], d)
    ensures forall i :: 0 <= i < |procs| && procs[i].Done? ==> DoneWithin(cfg, procs[i], d + 1)
  {
    hide HasNumber;
  }

  lemma SameNumber(cfg: Config, p: Process, q: Process, n: nat)
    requires HasNumber(cfg, p, n) && Holding(q) && q.cidr == p.cidr
    ensures HasNumber(cfg, q, n)
  {
  }

  lemma NumbersDiffer(cfg: Config, p: Process, q: Process, m: nat, n: nat)
    requires HasNumber(cfg, p, m) && HasNumber(cfg, q, n) && 0 < m < n <= TWO_32
    ensures p.cidr.addr != q.cidr.addr
  {
    hide Nth, Base, Parse;
    NthAlikeExactly(Base(cfg), m, n);
  }

  lemma WrittenShows(cfg: Config, p: Process, kept: nat, d: nat)
    requires HasNumber(cfg, p, d + 1) && CounterShows(cfg, Some(""), d)
    ensures var torn := Some(Overlay(Print(p.cidr)[..Min(kept, |Print(p.cidr)|)], ""));
      CounterShows(cfg, torn, if Abs(torn).At? then d + 1 else d)
    ensures Abs(Some(Overlay(Print(p.cidr), ""))).At? && CounterShows(cfg, Some(Overlay(Print(p.cidr), "")), d + 1)
  {
    hide Print, Abs, Nth, Base, Parse, Overlay, Ntop;
    OverlayOfNothing(Print(p.cidr));
    AbsOfPrinted(p.cidr);
    AbsOfTorn(p.cidr, Min(kept, |Print(p.cidr)|));
  }

  lemma TruncatedShows(cfg: Config, d: nat)
    ensures CounterShows(cfg, Some(""), d)
  {
    hide Parse;
    EmptyDoesNotParse();
    StoredTextOfCidrText("");
  }

  lemma OrderlyStep(cfg: Config, s: State, m: Move, d: nat)
    requires m.proc < |s.procs| && Orderly(cfg, s, d) && InTurnStep(cfg, s, m)
    requires d < TWO_32 || !(s.procs[m.proc].Opened? && Abs(Next(cfg, s, m).file).At?)
    ensures var t := Next(cfg, s, m);
      Orderly(cfg, t, if s.procs[m.proc].Opened? && Abs(t.file).At? then d + 1 else d)
  {
    hide ReadAndCompute, Orderly, Print, Overlay, HasNumber, CounterShows, Abs, DoneDiffer, DoneWithin;
    var i, t, p := m.proc, Next(cfg, s, m), s.procs[m.proc];
    OrderlyFacts(cfg, s, i, d);
    TruncatedShows(cfg, d);
    match p
    case Idle => OrderlyGoesOn(cfg, s, i, t, d);
    case Checked(present) =>
      ReadsOrFails(cfg, s.file, present, m.fault.ReadFails?);
      if t.procs[i].Ready? { ComputesUpcoming(cfg, s.file, present, m.fault.ReadFails?, d); }
      OrderlyGoesOn(cfg, s, i, t, d);
    case Ready(c) =>
      if t.procs[i].Opened? { SameNumber(cfg, p, t.procs[i], d + 1); }
      OrderlyGoesOn(cfg, s, i, t, d);
    case Opened(c) =>
      WrittenShows(cfg, p, if m.fault.TearsAfter? then m.fault.kept else 0, d);
      if Abs(t.file).At? { OrderlyPublishes(cfg, s, i, t, d); } else { OrderlyGoesOn(cfg, s, i, t, d); }
    case _ =>
  }

  lemma OrderlyFacts(cfg: Config, s: State, i: nat, d: nat)
    requires Orderly(cfg, s, d) && i < |s.procs|
    ensures CounterShows(cfg, s.file, d)
    ensures Pending(s.procs[i]) ==>
      HasNumber(cfg, s.procs[i], d + 1) && forall j :: 0 <= j < |s.procs| && j != i ==> !Pending(s.procs[j])
    ensures s.procs[i].Opened? ==> s.file == Some("")
  {
    hide HasNumber, CounterShows, DoneDiffer, DoneWithin;
  }

  lemma StartIsOrderly(cfg: Config, k: nat)
    ensures Orderly(cfg, Start(k), 0)
  {
    hide HasNumber, DoneWithin;
    AbsOfMissing();
  }

  lemma {:induction false} InTurnIsOrderly(cfg: Config, k: nat, sched: seq<Move>)
    requires Schedule(k, sched) && InTurn(cfg, k, sched) && Published(cfg, k, sched) <= TWO_32
    ensures Orderly(cfg, Run(cfg, k, sched), Published(cfg, k, sched))
    decreases |sched|
  {
    hide Next, Orderly, InTurnStep, InTurn, Abs;
    if sched == [] {
      StartIsOrderly(cfg, k);
    } else {
      var init, m := sched[..|sched| - 1], sched[|sched| - 1];
      InTurnSoFar(cfg, k, sched);
      InTurnIsOrderly(cfg, k, init);
      OrderlyStep(cfg, Run(cfg, k, init), m, Published(cfg, k, init));
    }
  }

  /** In turn, no address is handed out twice, with checks, reads and writes failing or tearing at any
      byte, up to 2^32 published addresses. */
  lemma InTurnGivesDistinctAddresses(cfg: Config, k: nat, sched: seq<Move>)
    requires Schedule(k, sched) && InTurn(cfg, k, sched) && Published(cfg, k, sched) <= TWO_32
    ensures DoneDiffer(Run(cfg, k, sched).procs)
  {
    hide Run, InTurn, Published, DoneDiffer, CounterShows, DoneWithin, HasNumber;
    InTurnIsOrderly(cfg, k, sched);
  }

  // ---------------------------------------------------------------- runs without overlap

  lemma SequentialIsInTurn(cfg: Config, s: State, l: Ledger, m: Move)
    requires m.proc < |s.procs| && Sequential(cfg, s, l) && AtMostOneActive(s) && !l.current.existsRefused
    ensures InTurnStep(cfg, s, m)
  {
    hide Sequential, FileAfter, Computes, ReadAndCompute, Print, Overlay;
    StepOf(cfg, s, l, m.proc);
    if s.procs[m.proc].Checked? {
      forall j | 0 <= j < |s.procs| ensures !Pending(s.procs[j]) {
        if j != m.proc { assert Active(s.procs[m.proc]) && !Active(s.procs[j]); }
      }
    }
  }

  /** Invocations that never overlap, with truthful checks, are in turn, whatever else goes wrong. */
  lemma ExclusionIsInTurn(cfg: Config, k: nat, sched: seq<Move>)
    requires Schedule(k, sched) && Exclusive(cfg, k, sched) && NoRefusals(sched)
    ensures InTurn(cfg, k, sched)
    ensures WritesSucceed(sched) ==>
      (AllDiffer(Run(cfg, k, sched).procs) <==> |Computed(cfg, k, sched)| <= TWO_32)
  {
    hide Run, Account, Computed, AllDiffer, Sequential, InTurnStep, AtMostOneActive, WriteSucceeds;
    forall n | 0 <= n < |sched| ensures InTurnStep(cfg, Run(cfg, k, sched[..n]), sched[n]) {
      var init, m := sched[..n], sched[n];
      assert forall p :: 0 <= p <= |init| ==> init[..p] == sched[..p];
      ExclusionIsSequential(cfg, k, init);
      RefusalsAreBooked(cfg, k, init);
      SequentialIsInTurn(cfg, Run(cfg, k, init), Account(cfg, k, init), m);
    }
    if WritesSucceed(sched) { DifferExactlyInTurn(cfg, k, sched); }
  }

  /** What the pending process of a sequential run writes moves the counter, unless it stops before the
      slash. */
  lemma WritingMoves(cfg: Config, file: Option<string>, e: Env, c: Cidr, kept: nat)
    requires Computes(cfg, file, e, c) && !e.existsRefused
    ensures var torn := Some(Overlay(Print(c)[..Min(kept, |Print(c)|)], ""));
      Moves(file, torn) == if Abs(torn).At? then 1 else 0
    ensures Moves(file, Some(Overlay(Print(c), ""))) == 1 && Abs(Some(Overlay(Print(c), ""))).At?
  {
    hide Print, Abs, Parse, Overlay, Ntop, LastAcquired, Nth, Base;
    OverlayOfNothing(Print(c));
    AbsOfPrinted(c);
    AbsOfTorn(c, Min(kept, |Print(c)|));
    LastAcquiredByCounter(file, cfg, e);
    UpcomingIsIncrement(file, cfg, e);
    if Abs(file).At? { assert Increment(Abs(file).last) != Abs(file).last; }
  }

  lemma OneMoreAcquired(cfg: Config, envs: seq<Env>, e: Env)
    ensures Advances(cfg, envs + [e]) == Advances(cfg, envs) + Moves(FileAfter(cfg, envs), FileAfter(cfg, envs + [e]))
  {
    hide Acquire, Abs;
    assert (envs + [e])[..|envs|] == envs;
  }

  /** One step of an exclusive run publishes exactly when it ends an acquisition that moves the counter. */
  lemma PublishingStep(cfg: Config, s: State, l: Ledger, m: Move)
    requires m.proc < |s.procs| && Sequential(cfg, s, l) && !l.current.existsRefused
    requires AtMostOneActive(s) && AtMostOneActive(Next(cfg, s, m))
    ensures var t := Next(cfg, s, m);
      Advances(cfg, Book(l, s.procs[m.proc], t.procs[m.proc], m.proc, m.fault).envs)
      == Advances(cfg, l.envs) + if s.procs[m.proc].Opened? && Abs(t.file).At? then 1 else 0
  {
    hide Sequential, FileAfter, Advances, Acquire, Print, Overlay, Abs, ReadAndCompute, Computes, Moves, Agrees;
    var t, i := Next(cfg, s, m), m.proc;
    var p, l' := s.procs[i], Book(l, s.procs[i], t.procs[i], i, m.fault);
    SequentialStep(cfg, s, l, m);
    StepOf(cfg, s, l, i);
    StepOf(cfg, t, l', i);
    if l'.envs != l.envs {
      OneMoreAcquired(cfg, l.envs, l'.envs[|l.envs|]);
      forall j | 0 <= j < |t.procs| ensures !Active(t.procs[j]) {
        if j != i { assert t.procs[j] == s.procs[j]; }
      }
      assert t.file == FileAfter(cfg, l'.envs);
      NothingMoved(s.file);
      if p.Opened? {
        WritingMoves(cfg, FileAfter(cfg, l.envs), l.current, p.cidr, if m.fault.TearsAfter? then m.fault.kept else 0);
      }
    }
  }

  lemma NothingMoved(file: Option<string>)
    ensures Moves(file, file) == 0
  {
  }

  /** Without overlap the addresses published are the advances of the sequential run. */
  lemma {:induction false} PublishedAreAdvances(cfg: Config, k: nat, sched: seq<Move>)
    requires Schedule(k, sched) && Exclusive(cfg, k, sched) && NoRefusals(sched)
    ensures Published(cfg, k, sched) == Advances(cfg, Account(cfg, k, sched).envs)
    decreases |sched|
  {
    hide Next, Abs, Sequential, AtMostOneActive, Book;
    if sched != [] {
      var init, m := sched[..|sched| - 1], sched[|sched| - 1];
      assert forall n :: 0 <= n <= |init| ==> init[..n] == sched[..n];
      assert sched[..|init|] == init && sched[..|sched|] == sched;
      PublishedAreAdvances(cfg, k, init);
      ExclusionIsSequential(cfg, k, init);
      RefusalsAreBooked(cfg, k, init);
      PublishingStep(cfg, Run(cfg, k, init), Account(cfg, k, init), m);
    }
  }

  /** Without overlap and false absences no address is handed out twice, with reads and writes failing or
      tearing at any byte, up to 2^32 advances of the counter. */
  lemma ExclusionGivesDistinctAddresses(cfg: Config, k: nat, sched: seq<Move>)
    requires Schedule(k, sched) && Exclusive(cfg, k, sched) && NoRefusals(sched)
    requires Advances(cfg, Account(cfg, k, sched).envs) <= TWO_32
    ensures DoneDiffer(Run(cfg, k, sched).procs)
  {
    hide Run, InTurn, Published, DoneDiffer, Account, Advances, Exclusive;
    ExclusionIsInTurn(cfg, k, sched);
    PublishedAreAdvances(cfg, k, sched);
    InTurnGivesDistinctAddresses(cfg, k, sched);
  }

  lemma OfPodCidr(cfg: Config, address: word)
    requires Configured(cfg)
    ensures PodCidr(cfg, address).addr == address
  {
  }

  lemma FirstHalf(cfg: Config)
    requires Configured(cfg)
    ensures Run(cfg, 2, [Go(0), Go(0), Go(0), Go(1)])
         == State(Some(""), [Opened(PodCidr(cfg, Nth(Base(cfg), 1))), Checked(true)])
  {
    hide Parse, Nth, Base, PodCidr, Play, Run, Print, ReadAndCompute;
    var first := [Go(0), Go(0), Go(0), Go(1)];
    StartRun(cfg, 2);
    RunThenPlay(cfg, 2, [], first);
    assert [] + first == first;
    assert Start(2).procs == [Idle, Idle];
    PlayFour(cfg, Start(2), Go(0), Go(0), Go(0), Go(1));
    ComputeInTurn(cfg, None, 0);
  }

  lemma SecondHalf(cfg: Config, c: Cidr, d: Cidr)
    requires Configured(cfg) && c == PodCidr(cfg, Nth(Base(cfg), 1)) && d == PodCidr(cfg, Nth(Base(cfg), 2))
    ensures Play(cfg, State(Some(""), [Opened(c), Checked(true)]), [Go(0), Go(1), Go(1), Go(1)]).procs
         == [Done(c), Done(d)]
  {
    hide Parse, Nth, Base, PodCidr, Play, Print, Overlay, ReadAndCompute;
    PlayFour(cfg, State(Some(""), [Opened(c), Checked(true)]), Go(0), Go(1), Go(1), Go(1));
    OverlayOfNothing(Print(c));
    ComputeInTurn(cfg, Some(Print(c)), 1);
  }

  /** Turns are all it takes: process 1 checks between the truncation and the write of process 0, and
      both get addresses of their own. */
  lemma OverlapInTurn(cfg: Config)
    requires Configured(cfg)
    ensures var sched := [Go(0), Go(0), Go(0), Go(1)] + [Go(0), Go(1), Go(1), Go(1)];
      && Schedule(2, sched) && WritesSucceed(sched) && !Exclusive(cfg, 2, sched) && InTurn(cfg, 2, sched)
      && Run(cfg, 2, sched).procs
         == [Done(PodCidr(cfg, Nth(Base(cfg), 1))), Done(PodCidr(cfg, Nth(Base(cfg), 2)))]
  {
    hide Parse, Nth, Base, PodCidr, Play, Run, InTurn, Computed;
    var c, d := PodCidr(cfg, Nth(Base(cfg), 1)), PodCidr(cfg, Nth(Base(cfg), 2));
    var first, rest := [Go(0), Go(0), Go(0), Go(1)], [Go(0), Go(1), Go(1), Go(1)];
    FirstHalf(cfg);
    SecondHalf(cfg, c, d);
    RunThenPlay(cfg, 2, first, rest);
    assert (first + rest)[..4] == first;
    var s := Run(cfg, 2, first);
    assert Active(s.procs[0]) && Active(s.procs[1]);
    NthAlikeExactly(Base(cfg), 1, 2);
    OfPodCidr(cfg, Nth(Base(cfg), 1));
    OfPodCidr(cfg, Nth(Base(cfg), 2));
    assert AllDiffer([Done(c), Done(d)]);
    DifferExactlyInTurn(cfg, 2, first + rest);
  }
}
