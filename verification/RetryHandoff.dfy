/** The hand-off between `rotated` calls and the background retry thread of one `TokenSink`: a mutex around
    the unsaved rotation and one atomic flag, `retrying`. Each step is one lock section or one atomic
    operation, and the threads interleave freely. */
module RetryHandoff {
  import opened Runs

  /** Where a thread is. The first five are a `rotated` call, the last four a retry thread. */
  datatype Pc =
    | Setting      // about to put the rotation into `unsaved`
    | Writing      // about to flush
    | Keeping      // refused; about to keep it in the kernel
    | Swapping     // about to swap `retrying` to true
    | Spawning     // swapped it; about to spawn the retry thread
    | Retrying     // sleeping, then about to flush
    | Releasing    // flushed; about to store false into `retrying`
    | Checking     // about to look at `unsaved` once more
    | Reswapping   // found one; about to swap `retrying` to true

  /** `dropped`: a spawn failed with a rotation unsaved and no other thread to carry it, and that rotation is
      still unsaved. */
  datatype State = State(unsaved: bool, retrying: bool, dropped: bool, threads: map<nat, Pc>)

  const Initial := State(false, false, false, map[])

  datatype Step =
    | Call(t: nat)
    | Set(t: nat)
    | Write(t: nat, ok: bool)
    | Keep(t: nat)
    | Swap(t: nat)
    | Spawn(t: nat, child: nat, ok: bool)
    | Retry(t: nat, ok: bool)
    | Release(t: nat)
    | Check(t: nat)
    | Reswap(t: nat)
    | Persist(ok: bool)

  predicate At(s: State, t: nat, pc: Pc) {
    t in s.threads && s.threads[t] == pc
  }

  predicate Enabled(s: State, step: Step) {
    match step
    case Call(t) => t !in s.threads
    case Set(t) => At(s, t, Setting)
    case Write(t, _) => At(s, t, Writing)
    case Keep(t) => At(s, t, Keeping)
    case Swap(t) => At(s, t, Swapping)
    case Spawn(t, child, _) => At(s, t, Spawning) && child !in s.threads
    case Retry(t, _) => At(s, t, Retrying)
    case Release(t) => At(s, t, Releasing)
    case Check(t) => At(s, t, Checking)
    case Reswap(t) => At(s, t, Reswapping)
    case Persist(_) => true
  }

  function Goto(s: State, t: nat, pc: Pc): State { s.(threads := s.threads[t := pc]) }

  function Return(s: State, t: nat): State { s.(threads := s.threads - {t}) }

  /** `flush`, as one lock section: a refusal leaves the rotation unsaved. */
  function Flushed(s: State, ok: bool): State {
    if ok then s.(unsaved := false, dropped := false) else s
  }

  /** A thread that will still try to write the rotation, swap the flag, or look again. */
  predicate Carries(pc: Pc) { !pc.Setting? }

  predicate Carried(s: State) { exists t :: t in s.threads && Carries(s.threads[t]) }

  function Next(s: State, step: Step): State
    requires Enabled(s, step)
  {
    match step
    case Call(t) => Goto(s, t, Setting)
    case Set(t) => Goto(s.(unsaved := true, dropped := false), t, Writing)
    case Write(t, ok) =>
      if ok || !s.unsaved then Return(Flushed(s, ok), t) else Goto(s, t, Keeping)
    case Keep(t) => Goto(s, t, Swapping)
    case Swap(t) => if s.retrying then Return(s, t) else Goto(s.(retrying := true), t, Spawning)
    case Spawn(t, child, ok) =>
      if ok then Goto(Return(s, t), child, Retrying)
      else Return(s.(retrying := false, dropped := s.unsaved && !Carried(Return(s, t))), t)
    case Retry(t, ok) =>
      if ok || !s.unsaved then Goto(Flushed(s, ok), t, Releasing) else s
    case Release(t) => Goto(s.(retrying := false), t, Checking)
    case Check(t) => if s.unsaved then Goto(s, t, Reswapping) else Return(s, t)
    case Reswap(t) => if s.retrying then Return(s, t) else Goto(s.(retrying := true), t, Retrying)
    case Persist(ok) => Flushed(s, ok)
  }

  /** A thread that holds the `retrying` flag. */
  predicate Owns(pc: Pc) { pc.Spawning? || pc.Retrying? || pc.Releasing? }

  ghost predicate Inv(s: State) {
    && (forall t, u :: t in s.threads && u in s.threads && Owns(s.threads[t]) && Owns(s.threads[u]) ==> t == u)
    && (s.retrying <==> exists t :: t in s.threads && Owns(s.threads[t]))
    && (s.dropped <==> s.unsaved && !Carried(s))
  }

  lemma InvKept(s: State, step: Step)
    requires Inv(s) && Enabled(s, step)
    ensures Inv(Next(s, step))
  {
    match step
    case Swap(t) => InvKeptBySwap(s, t);
    case Reswap(t) => InvKeptByReswap(s, t);
    case Spawn(t, child, ok) => InvKeptBySpawn(s, t, child, ok);
    case Call(_) => InvKeptByCaller(s, step);
    case Set(_) => InvKeptByCaller(s, step);
    case Keep(_) => InvKeptByCaller(s, step);
    case Write(t, ok) => InvKeptByWrite(s, t, ok);
    case Persist(_) =>
    case Retry(t, ok) => InvKeptByRetry(s, t, ok);
    case Release(t) => InvKeptByRelease(s, t);
    case Check(t) => InvKeptByCheck(s, t);
  }

  lemma InvKeptByCaller(s: State, step: Step)
    requires Inv(s) && Enabled(s, step) && (step.Call? || step.Set? || step.Keep?)
    ensures Inv(Next(s, step))
  {
    var s' := Next(s, step);
    assert forall u :: u in s.threads ==> u in s'.threads;
    assert forall u :: u in s'.threads && u != step.t ==> u in s.threads && s'.threads[u] == s.threads[u];
    assert step.t in s'.threads;
  }

  lemma InvKeptByWrite(s: State, t: nat, ok: bool)
    requires Inv(s) && Enabled(s, Write(t, ok))
    ensures Inv(Next(s, Write(t, ok)))
  {
    var s' := Next(s, Write(t, ok));
    assert forall u :: u in s'.threads && u != t ==> u in s.threads && s'.threads[u] == s.threads[u];
    assert forall u :: u in s.threads && u != t ==> u in s'.threads;
    assert s.unsaved && !ok ==> t in s'.threads;
  }

  /** A call that finds the flag up leaves its rotation to the thread that owns it. */
  lemma InvKeptBySwap(s: State, t: nat)
    requires Inv(s) && Enabled(s, Swap(t))
    ensures Inv(Next(s, Swap(t)))
  {
    var s' := Next(s, Swap(t));
    assert forall u :: u in s.threads && u != t ==> u in s'.threads && s'.threads[u] == s.threads[u];
    if s.retrying {
      var o :| o in s.threads && Owns(s.threads[o]);
      assert o in s'.threads && Owns(s'.threads[o]);
    } else {
      assert t in s'.threads && Owns(s'.threads[t]);
    }
  }

  lemma InvKeptByReswap(s: State, t: nat)
    requires Inv(s) && Enabled(s, Reswap(t))
    ensures Inv(Next(s, Reswap(t)))
  {
    var s' := Next(s, Reswap(t));
    assert forall u :: u in s.threads && u != t ==> u in s'.threads && s'.threads[u] == s.threads[u];
    if s.retrying {
      var o :| o in s.threads && Owns(s.threads[o]);
      assert o in s'.threads && Owns(s'.threads[o]);
    } else {
      assert t in s'.threads && Owns(s'.threads[t]);
    }
  }

  lemma InvKeptBySpawn(s: State, t: nat, child: nat, ok: bool)
    requires Inv(s) && Enabled(s, Spawn(t, child, ok))
    ensures Inv(Next(s, Spawn(t, child, ok)))
  {
    var s' := Next(s, Spawn(t, child, ok));
    assert Owns(s.threads[t]);
    assert forall u :: u in s'.threads && u != child ==> u in s.threads && u != t && s'.threads[u] == s.threads[u];
    assert ok ==> child in s'.threads && Owns(s'.threads[child]);
  }

  lemma InvKeptByRetry(s: State, t: nat, ok: bool)
    requires Inv(s) && Enabled(s, Retry(t, ok))
    ensures Inv(Next(s, Retry(t, ok)))
  {
    var s' := Next(s, Retry(t, ok));
    assert forall u :: u in s'.threads && u != t ==> u in s.threads && s'.threads[u] == s.threads[u];
    assert Owns(s.threads[t]) && t in s'.threads && Owns(s'.threads[t]);
  }

  lemma InvKeptByRelease(s: State, t: nat)
    requires Inv(s) && Enabled(s, Release(t))
    ensures Inv(Next(s, Release(t)))
  {
    var s' := Next(s, Release(t));
    assert Owns(s.threads[t]) && t in s'.threads;
    assert forall u :: u in s'.threads && u != t ==> u in s.threads && s'.threads[u] == s.threads[u];
  }

  lemma InvKeptByCheck(s: State, t: nat)
    requires Inv(s) && Enabled(s, Check(t))
    ensures Inv(Next(s, Check(t)))
  {
    var s' := Next(s, Check(t));
    assert forall u :: u in s'.threads && u != t ==> u in s.threads && s'.threads[u] == s.threads[u];
    assert forall u :: u in s.threads && u != t ==> u in s'.threads;
    assert s.unsaved ==> t in s'.threads;
  }

  /** Under every interleaving, at most one thread owns the flag, the flag is up exactly while one does,
      and an unsaved rotation is without a thread that carries it exactly when the spawn of its retry thread
      failed with no other thread left to carry it. So once every thread has returned, a rotation is left
      unsaved only by a failed spawn. */
  lemma HandoffLosesNoWork(steps: seq<Step>)
    requires Run(Next, Initial, steps)
    ensures
      var s := Final(Next, Initial, steps);
      && (forall t, u :: t in s.threads && u in s.threads && Owns(s.threads[t]) && Owns(s.threads[u]) ==> t == u)
      && (s.retrying <==> exists t :: t in s.threads && Owns(s.threads[t]))
      && (s.unsaved ==> (s.dropped <==> !exists t :: t in s.threads && Carries(s.threads[t])))
      && (s.threads == map[] ==> (s.unsaved <==> s.dropped) && !s.retrying)
  {
    assert Inv(Initial);
    forall s, step | Inv(s) && Enabled(s, step) ensures Inv(Next(s, step)) {
      InvKept(s, step);
    }
    RunKeeps(Next, Inv, Initial, steps);
  }

  /** A call that the keyring refuses and whose retry thread cannot be spawned. */
  function RefusedCall(t: nat, child: nat): seq<Step> {
    [Call(t), Set(t), Write(t, false), Keep(t), Swap(t), Spawn(t, child, false)]
  }

  /** A failed spawn strands the rotation: it is left unsaved, with no thread. */
  lemma FailedSpawnStrands(t: nat, child: nat)
    requires t != child
    ensures Run(Next, Initial, RefusedCall(t, child))
    ensures Final(Next, Initial, RefusedCall(t, child)) == State(true, false, true, map[])
  {
    var s1 := Next(Initial, Call(t));
    var s2 := Next(s1, Set(t));
    var s3 := Next(s2, Write(t, false));
    var s4 := Next(s3, Keep(t));
    var s5 := Next(s4, Swap(t));
    assert s5 == State(true, true, false, map[t := Spawning]);
    var s6 := Next(s5, Spawn(t, child, false));
    assert s6.threads == map[] && !Carried(s6);
    RunThrough(Next, [Initial, s1, s2, s3, s4, s5, s6], RefusedCall(t, child));
  }
}
