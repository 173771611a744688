/** Invocations that never overlap: the interleaved steps, with any faults, are one sequential run of
    the allocator. */
module Exclusion {
  import opened Cidrs
  import opened Io
  import opened Ip
  import opened IpRuns
  import opened Interleaving

  predicate Active(p: Process) { p.Checked? || p.Ready? || p.Opened? }

  ghost predicate AtMostOneActive(s: State) {
    forall i, j :: 0 <= i < j < |s.procs| ==> !(Active(s.procs[i]) && Active(s.procs[j]))
  }

  /** No two invocations are ever between their existence check and the end of their write. */
  ghost predicate Exclusive(cfg: Config, k: nat, sched: seq<Move>)
    requires Schedule(k, sched)
  {
    forall n :: 0 <= n <= |sched| ==> AtMostOneActive(Run(cfg, k, sched[..n]))
  }

  /** What a run amounts to: the processes in the order in which they ended, what the environment did
      to each, and what it did so far to the one under way. */
  datatype Ledger = Ledger(ended: seq<nat>, envs: seq<Env>, current: Env)

  function Observe(p: Process, e: Env, fault: Fault): Env {
    match p
    case Idle => NO_FAULT.(existsRefused := fault.CheckRefused?)
    case Checked(_) => e.(readFailed := fault.ReadFails?)
    case Ready(_) => e.(write := if fault.OpenFails? then OpenRefused else Complete)
    case Opened(_) => e.(write := if fault.TearsAfter? then Torn(fault.kept) else Complete)
    case _ => e
  }

  function Book(l: Ledger, before: Process, after: Process, i: nat, fault: Fault): Ledger {
    if before.Done? || before.Failed? then l
    else
      var e := Observe(before, l.current, fault);
      if after.Done? || after.Failed? then Ledger(l.ended + [i], l.envs + [e], NO_FAULT) else l.(current := e)
  }

  function Account(cfg: Config, k: nat, sched: seq<Move>): Ledger
    requires Schedule(k, sched)
  {
    if sched == [] then Ledger([], [], NO_FAULT)
    else
      var init, m := sched[..|sched| - 1], sched[|sched| - 1];
      var s := Run(cfg, k, init);
      Book(Account(cfg, k, init), s.procs[m.proc], Next(cfg, s, m).procs[m.proc], m.proc, m.fault)
  }

  /** How a process ended against what the sequential run answered. */
  predicate Agrees(p: Process, answer: Result<string>) {
    match p
    case Done(c) => answer == Ok(Print(c))
    case Failed => answer.Err?
    case _ => false
  }

  /** The process under way is about to hand out `c`. */
  predicate Computes(cfg: Config, file: Option<string>, e: Env, c: Cidr) {
    var l := LastAcquired(file, cfg.subnet, e);
    l.Ok? && NextCidr(l.value, cfg.clusterCidr) == Ok(c)
  }

  ghost predicate InStep(cfg: Config, s: State, i: nat, p: Process, l: Ledger) {
    var file := FileAfter(cfg, l.envs);
    match p
    case Idle => true
    case Checked(present) => s.file == file && present == (file.Some? && !l.current.existsRefused)
    case Ready(c) => s.file == file && Computes(cfg, file, l.current, c)
    case Opened(c) => s.file == Some("") && Computes(cfg, file, l.current, c)
    case Done(_) => i in l.ended
    case Failed => i in l.ended
  }

  ghost predicate EndedInOrder(cfg: Config, procs: seq<Process>, l: Ledger) {
    && |l.ended| == |l.envs|
    && forall n :: 0 <= n < |l.ended| ==>
         l.ended[n] < |procs| && Agrees(procs[l.ended[n]], Answer(cfg, l.envs, n))
  }

  /** The state is that of the sequential run, up to the process under way. */
  ghost predicate Sequential(cfg: Config, s: State, l: Ledger) {
    && EndedInOrder(cfg, s.procs, l)
    && (forall i :: 0 <= i < |s.procs| ==> InStep(cfg, s, i, s.procs[i], l))
    && ((forall i :: 0 <= i < |s.procs| ==> !Active(s.procs[i])) ==> s.file == FileAfter(cfg, l.envs))
  }

  lemma AnswersStay(cfg: Config, envs: seq<Env>, e: Env)
    ensures FileAfter(cfg, envs + [e]) == Acquire(FileAfter(cfg, envs), cfg, e).file
    ensures forall n :: 0 <= n < |envs| ==> Answer(cfg, envs + [e], n) == Answer(cfg, envs, n)
    ensures Answer(cfg, envs + [e], |envs|) == Acquire(FileAfter(cfg, envs), cfg, e).result
  {
    hide Acquire;
    assert (envs + [e])[..|envs|] == envs;
    forall n | 0 <= n < |envs| ensures Answer(cfg, envs + [e], n) == Answer(cfg, envs, n) {
      assert (envs + [e])[..n] == envs[..n];
    }
  }

  /** A process that ends adds one acquisition to the sequential run. */
  lemma EndingExtends(cfg: Config, s: State, l: Ledger, i: nat, e: Env, t: State)
    requires i < |s.procs| == |t.procs| && Active(s.procs[i]) && AtMostOneActive(s) && Sequential(cfg, s, l)
    requires t.procs == s.procs[i := t.procs[i]] && (t.procs[i].Done? || t.procs[i].Failed?)
    requires t.file == Acquire(FileAfter(cfg, l.envs), cfg, e).file
    requires Agrees(t.procs[i], Acquire(FileAfter(cfg, l.envs), cfg, e).result)
    ensures Sequential(cfg, t, Ledger(l.ended + [i], l.envs + [e], NO_FAULT))
  {
    hide Acquire, Agrees, FileAfter, Answer, Computes;
    var l' := Ledger(l.ended + [i], l.envs + [e], NO_FAULT);
    AnswersStay(cfg, l.envs, e);
    EndedStay(cfg, s.procs, t.procs, l, i, e);
    forall j | 0 <= j < |t.procs| ensures InStep(cfg, t, j, t.procs[j], l') {
      if j != i {
        assert InStep(cfg, s, j, s.procs[j], l);
        assert !Active(s.procs[j]);
      }
    }
  }

  lemma EndedStay(cfg: Config, procs: seq<Process>, procs': seq<Process>, l: Ledger, i: nat, e: Env)
    requires EndedInOrder(cfg, procs, l) && i < |procs| && Active(procs[i]) && |procs'| == |procs|
    requires procs' == procs[i := procs'[i]]
    requires Agrees(procs'[i], Acquire(FileAfter(cfg, l.envs), cfg, e).result)
    ensures EndedInOrder(cfg, procs', Ledger(l.ended + [i], l.envs + [e], NO_FAULT))
  {
    hide Acquire, FileAfter, Answer, Print;
    AnswersStay(cfg, l.envs, e);
    var ended, envs := l.ended + [i], l.envs + [e];
    forall n | 0 <= n < |ended| ensures ended[n] < |procs'| && Agrees(procs'[ended[n]], Answer(cfg, envs, n)) {
      if n < |l.ended| {
        assert ended[n] == l.ended[n];
        assert Agrees(procs[l.ended[n]], Answer(cfg, l.envs, n));
      }
    }
  }

  /** A step that does not end its process leaves the sequential run where it is. */
  lemma GoingOn(cfg: Config, s: State, l: Ledger, i: nat, e: Env, t: State)
    requires i < |s.procs| == |t.procs| && Sequential(cfg, s, l) && !s.procs[i].Done? && !s.procs[i].Failed?
    requires forall j :: 0 <= j < |s.procs| && j != i ==> !Active(s.procs[j])
    requires t.procs == s.procs[i := t.procs[i]] && Active(t.procs[i])
    requires InStep(cfg, t, i, t.procs[i], l.(current := e))
    ensures Sequential(cfg, t, l.(current := e))
  {
    hide Acquire, FileAfter, Answer, Computes, Print;
    var l' := l.(current := e);
    forall j | 0 <= j < |t.procs| ensures InStep(cfg, t, j, t.procs[j], l') {
      if j != i { assert InStep(cfg, s, j, s.procs[j], l); }
    }
    forall n | 0 <= n < |l.ended|
      ensures l.ended[n] < |t.procs| && Agrees(t.procs[l.ended[n]], Answer(cfg, l.envs, n))
    {
      assert Agrees(s.procs[l.ended[n]], Answer(cfg, l.envs, n));
    }
  }

  /** What one acquisition does, by what its process computed. */
  lemma AcquireAsSteps(cfg: Config, file: Option<string>, e: Env, c: Cidr)
    ensures Computes(cfg, file, e, c) ==>
      Acquire(file, cfg, e) == Acquired(AfterWrite(file, Print(c), e.write),
                                        if e.write.Complete? then Ok(Print(c)) else Err(WriteFailed))
    ensures ReadAndCompute(cfg, file, file.Some? && !e.existsRefused, e.readFailed) == Failed ==>
      Acquire(file, cfg, e).result.Err? && Acquire(file, cfg, e).file == file
    ensures ReadAndCompute(cfg, file, file.Some? && !e.existsRefused, e.readFailed) == Ready(c) <==>
      Computes(cfg, file, e, c)
  {
    hide Print, NextCidr, StoredText, FirstAllocable;
    var present := file.Some? && !e.existsRefused;
    assert LastAcquired(file, cfg.subnet, Env(!present, e.readFailed, Complete)) == LastAcquired(file, cfg.subnet, e);
  }

  lemma ComputesIgnoresWrite(cfg: Config, file: Option<string>, e: Env, c: Cidr, w: WriteOutcome)
    ensures Computes(cfg, file, e.(write := w), c) == Computes(cfg, file, e, c)
  {
  }

  /** One step of an exclusive run. */
  lemma SequentialStep(cfg: Config, s: State, l: Ledger, m: Move)
    requires m.proc < |s.procs| && Sequential(cfg, s, l)
    requires AtMostOneActive(s) && AtMostOneActive(Next(cfg, s, m))
    ensures var t := Next(cfg, s, m);
      Sequential(cfg, t, Book(l, s.procs[m.proc], t.procs[m.proc], m.proc, m.fault))
  {
    hide Sequential, FileAfter, Print, Acquire, ReadAndCompute, Computes, Overlay, Agrees;
    var t, i := Next(cfg, s, m), m.proc;
    var p, q, e := s.procs[i], t.procs[i], Observe(s.procs[i], l.current, m.fault);
    var file := FileAfter(cfg, l.envs);
    if p.Done? || p.Failed? {
    } else {
      OthersRest(s, t, i);
      StepOf(cfg, s, l, i);
      match p
      case Idle =>
        GoingOn(cfg, s, l, i, e, t);
      case Checked(present) =>
        ReadingStep(cfg, file, e, present, m.fault);
        if q.Ready? { GoingOn(cfg, s, l, i, e, t); } else { EndingExtends(cfg, s, l, i, e, t); }
      case Ready(c) =>
        ComputesIgnoresWrite(cfg, file, l.current, c, e.write);
        AcquireAsSteps(cfg, file, e, c);
        EndsWithError(WriteFailed);
        if q.Opened? { GoingOn(cfg, s, l, i, e, t); } else { EndingExtends(cfg, s, l, i, e, t); }
      case Opened(c) =>
        ComputesIgnoresWrite(cfg, file, l.current, c, e.write);
        AcquireAsSteps(cfg, file, e, c);
        OverlayOfNothing(Print(c));
        EndsWithError(WriteFailed);
        EndsWithAddress(c);
        EndingExtends(cfg, s, l, i, e, t);
    }
  }

  lemma EndsWithError(e: Error)
    ensures Agrees(Failed, Err(e))
  {
  }

  lemma EndsWithAddress(c: Cidr)
    ensures Agrees(Done(c), Ok(Print(c)))
  {
  }

  lemma ReadingStep(cfg: Config, file: Option<string>, e: Env, present: bool, fault: Fault)
    requires present == (file.Some? && !e.existsRefused) && e.readFailed == fault.ReadFails?
    ensures var q := ReadAndCompute(cfg, file, present, fault.ReadFails?);
      && (q == Failed || q.Ready?)
      && (q.Ready? ==> Computes(cfg, file, e, q.cidr))
      && (q == Failed ==> Agrees(q, Acquire(file, cfg, e).result) && Acquire(file, cfg, e).file == file)
  {
    var q := ReadAndCompute(cfg, file, present, fault.ReadFails?);
    AcquireAsSteps(cfg, file, e, if q.Ready? then q.cidr else Cidr(0, 0));
  }

  lemma OthersRest(s: State, t: State, i: nat)
    requires i < |s.procs| == |t.procs| && t.procs == s.procs[i := t.procs[i]]
    requires AtMostOneActive(s) && AtMostOneActive(t) && (Active(s.procs[i]) || Active(t.procs[i]))
    ensures forall j :: 0 <= j < |s.procs| && j != i ==> !Active(s.procs[j])
  {
    forall j | 0 <= j < |s.procs| && j != i ensures !Active(s.procs[j]) {
      assert t.procs[j] == s.procs[j];
    }
  }

  lemma StepOf(cfg: Config, s: State, l: Ledger, i: nat)
    requires i < |s.procs| && Sequential(cfg, s, l)
    ensures InStep(cfg, s, i, s.procs[i], l)
    ensures (forall j :: 0 <= j < |s.procs| ==> !Active(s.procs[j])) ==> s.file == FileAfter(cfg, l.envs)
  {
  }

  /** Runs without overlap are sequential: whatever goes wrong in them, the file and every ended process
      agree with one run of acquisitions in the order in which the processes ended. */
  lemma {:induction false} ExclusionIsSequential(cfg: Config, k: nat, sched: seq<Move>)
    requires Schedule(k, sched) && Exclusive(cfg, k, sched)
    ensures Sequential(cfg, Run(cfg, k, sched), Account(cfg, k, sched))
    decreases |sched|
  {
    hide Next, Acquire, Print, Book;
    if sched != [] {
      hide Sequential, AtMostOneActive;
      var init := sched[..|sched| - 1];
      assert forall n :: 0 <= n <= |init| ==> init[..n] == sched[..n];
      ExclusionIsSequential(cfg, k, init);
      assert sched[..|init|] == init && sched[..|sched|] == sched;
      SequentialStep(cfg, Run(cfg, k, init), Account(cfg, k, init), sched[|sched| - 1]);
    }
  }

  /** No existence check of the run was refused. */
  predicate NoRefusals(sched: seq<Move>) { forall n :: 0 <= n < |sched| ==> !sched[n].fault.CheckRefused? }

  lemma {:induction false} RefusalsAreBooked(cfg: Config, k: nat, sched: seq<Move>)
    requires Schedule(k, sched) && NoRefusals(sched)
    ensures NeverRefused(Account(cfg, k, sched).envs) && !Account(cfg, k, sched).current.existsRefused
    decreases |sched|
  {
    hide Next;
    if sched != [] { RefusalsAreBooked(cfg, k, sched[..|sched| - 1]); }
  }

  predicate AllSmooth(sched: seq<Move>) { forall n :: 0 <= n < |sched| ==> sched[n].fault.Smooth? }

  lemma {:induction false} SmoothIsQuiet(cfg: Config, k: nat, sched: seq<Move>)
    requires Schedule(k, sched) && AllSmooth(sched)
    ensures var l := Account(cfg, k, sched); l.envs == Quiet(|l.envs|) && l.current == NO_FAULT
    decreases |sched|
  {
    hide Next;
    if sched != [] {
      var init, m := sched[..|sched| - 1], sched[|sched| - 1];
      SmoothIsQuiet(cfg, k, init);
      var l := Account(cfg, k, init);
      assert Quiet(|l.envs|) + [NO_FAULT] == Quiet(|l.envs| + 1);
    }
  }

  /** Without faults either, exclusive runs are an atomic fetch-and-increment: the `n`-th invocation to
      end holds the `n`-th address, and nobody failed. */
  lemma ExclusionIsAtomic(cfg: Config, k: nat, sched: seq<Move>, n: nat)
    requires Parse(cfg.subnet).Ok? && Parse(cfg.clusterCidr).Ok?
    requires Schedule(k, sched) && Exclusive(cfg, k, sched) && AllSmooth(sched)
    requires n < |Account(cfg, k, sched).ended|
    ensures var i := Account(cfg, k, sched).ended[n];
      i < k && Run(cfg, k, sched).procs[i] == Done(PodCidr(cfg, Nth(Base(cfg), n + 1)))
  {
    hide Run, Account, Parse, Print, Exclusive, Nth, Base, PodCidr, Computes, Acquire, FileAfter;
    ExclusionIsSequential(cfg, k, sched);
    SmoothIsQuiet(cfg, k, sched);
    var s, l := Run(cfg, k, sched), Account(cfg, k, sched);
    var i := l.ended[n];
    assert Agrees(s.procs[i], Answer(cfg, l.envs, n));
    QuietRun(cfg, n + 1);
    assert Quiet(|l.envs|)[..n] == Quiet(n + 1)[..n];
    RoundTrip(PodCidr(cfg, Nth(Base(cfg), n + 1)));
    if s.procs[i].Done? { RoundTrip(s.procs[i].cidr); }
  }
}
