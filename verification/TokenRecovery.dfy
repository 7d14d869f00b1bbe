/** What survives a crash. In a process that has one sink per session, the live refresh token can be resumed
    from the keyring blob and the kernel slot exactly unless a rotation is outstanding that the sink has not
    got into the slot, or that something else has taken out of it since. */
module TokenRecovery {
  import opened Prelude
  import opened Runs
  import opened TokenRotation

  /** One process: no session is resumed while a sink of its own is alive. (A login's session is always new.) */
  predicate Apart(s: State, step: Step) {
    step.Resume? && s.blob.Some? ==> forall j :: j in s.sinks ==> s.sinks[j].session != s.blob.value.session
  }

  function ApartNext(s: State, step: Step): State
    requires Enabled(s, step) && Apart(s, step)
  {
    Next(s, step)
  }

  /** A rotation that is in memory and not in the blob. */
  predicate Outstanding(k: Sink) { k.unsaved.Some? && !k.settling }

  /** The blob, where it is this sink's, holds the token the sink thinks it does, and its newest one when no
      rotation is outstanding. */
  predicate SinkLinked(s: State, k: Sink) {
    && (k.unsaved.Some? ==> k.unsaved.value.refresh == k.current)
    && (s.blob.Some? && s.blob.value.session == k.session ==>
          k.stored == s.blob.value.tokens.refresh && (!Outstanding(k) ==> k.stored == k.current))
  }

  ghost predicate Linked(s: State) {
    && Inv(s)
    && (forall i, j :: i in s.sinks && j in s.sinks && s.sinks[i].session == s.sinks[j].session ==> i == j)
    && (forall id :: id in s.sinks ==> SinkLinked(s, s.sinks[id]))
  }

  /** A step of one sink leaves the others linked if it leaves alone the blob that is theirs. */
  lemma OthersStayLinked(s: State, s': State, id: nat)
    requires Linked(s) && id in s.sinks && s'.sinks.Keys == s.sinks.Keys && Inv(s')
    requires s'.sinks[id].session == s.sinks[id].session && SinkLinked(s', s'.sinks[id])
    requires forall j :: j in s.sinks && j != id ==> s'.sinks[j] == s.sinks[j]
    requires s'.blob.Some? <==> s.blob.Some?
    requires s.blob.Some? ==> s'.blob.value.session == s.blob.value.session
    requires s'.blob != s.blob ==> s.blob.Some? && s.blob.value.session == s.sinks[id].session
    ensures Linked(s')
  {
    forall j | j in s'.sinks ensures SinkLinked(s', s'.sinks[j]) {
      assert SinkLinked(s, s.sinks[j]);
    }
  }

  lemma LinkedKeptByFlush(s: State, id: nat, keyring: Keyring)
    requires Linked(s) && Enabled(s, Flush(id, keyring))
    ensures Linked(Next(s, Flush(id, keyring)))
  {
    InvKept(s, Flush(id, keyring));
    FlushTouches(s, id, keyring);
    FlusherStaysLinked(s, id, keyring);
    OthersStayLinked(s, Next(s, Flush(id, keyring)), id);
  }

  /** What a flush leaves alone. */
  lemma FlushTouches(s: State, id: nat, keyring: Keyring)
    requires Enabled(s, Flush(id, keyring))
    ensures
      var s' := Next(s, Flush(id, keyring));
      && s'.sinks.Keys == s.sinks.Keys && s'.sinks[id].session == s.sinks[id].session
      && (forall j :: j in s.sinks && j != id ==> s'.sinks[j] == s.sinks[j])
      && (s'.blob.Some? <==> s.blob.Some?) && (s.blob.Some? ==> s'.blob.value.session == s.blob.value.session)
      && (s'.blob != s.blob ==> s.blob.Some? && s.blob.value.session == s.sinks[id].session)
  {
  }

  lemma FlusherStaysLinked(s: State, id: nat, keyring: Keyring)
    requires Linked(s) && Enabled(s, Flush(id, keyring))
    ensures
      var s' := Next(s, Flush(id, keyring));
      id in s'.sinks && SinkLinked(s', s'.sinks[id])
  {
    assert SinkOk(s.live, s.sinks[id]) && SinkLinked(s, s.sinks[id]);
  }

  lemma LinkedKeptByOwner(s: State, step: Step)
    requires Linked(s) && Enabled(s, step)
    requires step.Refresh? || step.Settle? || step.Keep? || step.Rotated?
    ensures Linked(Next(s, step))
  {
    InvKept(s, step);
    assert SinkOk(s.live, s.sinks[step.id]) && SinkLinked(s, s.sinks[step.id]);
    OthersStayLinked(s, Next(s, step), step.id);
  }

  lemma LinkedKeptByOpening(s: State, step: Step)
    requires Linked(s) && Enabled(s, step) && Apart(s, step) && (step.Login? || step.Resume?)
    ensures Linked(Next(s, step))
  {
    InvKept(s, step);
    forall j | j in s.sinks ensures SinkOk(s.live, s.sinks[j]) {
    }
  }

  lemma LinkedKept(s: State, step: Step)
    requires Linked(s) && Enabled(s, step) && Apart(s, step)
    ensures Linked(ApartNext(s, step))
  {
    match step
    case Login(_, _, _, _) => LinkedKeptByOpening(s, step);
    case Resume(_, _, _) => LinkedKeptByOpening(s, step);
    case Logout(_, _) => InvKept(s, step);
    case Rewrite(_) => InvKept(s, step);
    case Exit(_) => InvKept(s, step);
    case Flush(id, keyring) => LinkedKeptByFlush(s, id, keyring);
    case _ => LinkedKeptByOwner(s, step);
  }

  /** What decides a resume: the blob holds the live token already, or the slot holds the outstanding rotation. */
  lemma ResumesLiveIffInSlot(s: State, id: nat)
    requires Linked(s) && id in s.sinks && s.blob.Some? && s.blob.value.session == s.sinks[id].session
    requires s.sinks[id].session in s.live && s.sinks[id].current == s.live[s.sinks[id].session]
    ensures
      var k := s.sinks[id];
      ResumesWith(s.blob.value, s.slot) == s.live[k.session]
      <==> !Outstanding(k) || s.slot == Some(Record(k))
  {
    assert SinkOk(s.live, s.sinks[id]) && SinkLinked(s, s.sinks[id]);
  }

  // ----- who has the slot

  /** The step puts the rotation of sink `id` into the slot, or makes a sink of what it finds there. */
  predicate PutsIntoSlot(s: State, step: Step, id: nat)
    requires Enabled(s, step)
  {
    match step
    case Keep(j, stored) => j == id && stored && s.sinks[j].unsaved.Some?
    case Resume(j, _, _) => j == id
    case _ => false
  }

  /** The step takes from the slot what a sink other than its own had there. */
  predicate TakesSlot(s: State, step: Step, id: nat)
    requires Enabled(s, step)
  {
    match step
    case Keep(j, stored) => j != id && stored && s.sinks[j].unsaved.Some?
    case Settle(j, cleared) => j != id && cleared && s.sinks[j].kept
    case Logout(cleared, _) => cleared
    case Resume(j, readable, cleared) =>
      j != id && readable && cleared && s.slot.Some? && !s.slot.value.BelongsIn(s.blob.value)
    case _ => false
  }

  function TakenAfter(s: State, step: Step, id: nat, taken: bool): bool
    requires Enabled(s, step)
  {
    if PutsIntoSlot(s, step, id) then false else taken || TakesSlot(s, step, id)
  }

  /** Since sink `id` last put its rotation into the slot, another step has taken the slot. `taken`: one had
      before the run. */
  ghost predicate Taken(s: State, steps: seq<Step>, id: nat, taken: bool)
    requires Run(ApartNext, s, steps)
    decreases |steps|
  {
    if steps == [] then taken
    else Taken(ApartNext(s, steps[0]), steps[1..], id, TakenAfter(s, steps[0], id, taken))
  }

  /** An outstanding rotation is in the slot exactly if the sink got it there and nothing has taken it. */
  predicate Holds(s: State, id: nat, taken: bool) {
    id in s.sinks && Outstanding(s.sinks[id]) ==>
      (s.slot == Some(Record(s.sinks[id])) <==> s.sinks[id].held && !taken)
  }

  lemma HoldsKeptByOwner(s: State, step: Step, id: nat, taken: bool)
    requires Linked(s) && Enabled(s, step) && Apart(s, step) && Holds(s, id, taken)
    requires !step.Logout? && !step.Rewrite? && step.id == id
    ensures Holds(Next(s, step), id, TakenAfter(s, step, id, taken))
  {
    if id in s.sinks {
      assert SinkOk(s.live, s.sinks[id]);
    }
  }

  lemma HoldsKeptByOthers(s: State, step: Step, id: nat, taken: bool)
    requires Linked(s) && Enabled(s, step) && Apart(s, step) && Holds(s, id, taken)
    requires step.Logout? || step.Rewrite? || step.id != id
    ensures Holds(Next(s, step), id, TakenAfter(s, step, id, taken))
  {
    assert id in Next(s, step).sinks ==> id in s.sinks && Next(s, step).sinks[id] == s.sinks[id];
  }

  lemma {:induction false} HoldsThroughout(s: State, steps: seq<Step>, id: nat, taken: bool)
    requires Linked(s) && Run(ApartNext, s, steps) && Holds(s, id, taken)
    ensures Linked(Final(ApartNext, s, steps))
    ensures Holds(Final(ApartNext, s, steps), id, Taken(s, steps, id, taken))
    decreases |steps|
  {
    if steps != [] {
      var step := steps[0];
      assert Enabled(s, step) && Apart(s, step);
      LinkedKept(s, step);
      if step.Logout? || step.Rewrite? || step.id != id {
        HoldsKeptByOthers(s, step, id, taken);
      } else {
        HoldsKeptByOwner(s, step, id, taken);
      }
      HoldsThroughout(ApartNext(s, step), steps[1..], id, TakenAfter(s, step, id, taken));
    }
  }

  /** At every point of every run with any number of sinks, one per session: if the process dies there, the
      session whose live token it had resumes with that token if and only if no rotation was outstanding, or
      the sink had got it into the slot and no other sink's keep or settle, no logout and no other resume has
      taken the slot since. */
  lemma CrashResumesLiveIff(steps: seq<Step>, id: nat)
    requires Run(ApartNext, Initial, steps)
    requires
      var s := Final(ApartNext, Initial, steps);
      && id in s.sinks && s.blob.Some? && s.blob.value.session == s.sinks[id].session
      && HasLive(s, id)
    ensures
      var s := Final(ApartNext, Initial, steps);
      var k, crashed := s.sinks[id], Next(s, Exit(id));
      && crashed.blob == s.blob && crashed.slot == s.slot
      && (ResumesWith(s.blob.value, s.slot) == s.live[k.session]
          <==> !Outstanding(k) || (k.held && !Taken(Initial, steps, id, false)))
  {
    HoldsThroughout(Initial, steps, id, false);
    ResumesLiveIffInSlot(Final(ApartNext, Initial, steps), id);
  }

  /** The sink has the live token of its session. */
  predicate HasLive(s: State, id: nat) {
    id in s.sinks && s.sinks[id].session in s.live && s.sinks[id].current == s.live[s.sinks[id].session]
  }

  /** A sink has the live token from a login, or from a resume that found it, and then for as long as it lives. */
  lemma HasLiveFromOpening(s: State, step: Step, id: nat)
    requires Linked(s) && Enabled(s, step) && Apart(s, step)
    ensures step.Login? && step.written ==> HasLive(Next(s, step), step.id)
    ensures step.Resume? && step.readable ==>
              (HasLive(Next(s, step), step.id)
               <==> ResumesWith(s.blob.value, s.slot) == s.live[s.blob.value.session])
    ensures HasLive(s, id) && step != Exit(id) ==> HasLive(Next(s, step), id)
  {
    if id in s.sinks {
      assert SinkOk(s.live, s.sinks[id]);
    }
  }

  /** With two sinks the slot can be taken: session 1 keeps a refused rotation in it, and the sink of the older
      session 0, dropping its own, clears it. The crash then resumes session 1 with its spent token. */
  lemma SecondSinkLosesLiveToken()
    ensures
      var steps := RefusedRotation(0) + RefusedRotation(1) + [Flush(0, Works), Settle(0, true)];
      && Run(ApartNext, Initial, steps)
      && var s := Final(ApartNext, Initial, steps);
         && s.blob.Some? && s.blob.value.session == 1 && Tracked(s, 1) && HasLive(s, 1) && !Exposed(s.sinks[1])
         && ResumesWith(s.blob.value, s.slot) < s.live[1]
  {
    RefusalIsKept(Initial, 0);
    var one := Final(ApartNext, Initial, RefusedRotation(0));
    RefusalIsKept(one, 1);
    RunsJoin(ApartNext, Initial, RefusedRotation(0), RefusedRotation(1));
    OlderSinkClearsSlot(Final(ApartNext, one, RefusedRotation(1)));
    RunsJoin(ApartNext, Initial, RefusedRotation(0) + RefusedRotation(1), [Flush(0, Works), Settle(0, true)]);
  }

  /** The blob has moved on from session 0, whose sink still has a rotation in the slot to drop. */
  lemma OlderSinkClearsSlot(s: State)
    requires 0 in s.sinks && s.sinks[0].session == 0 && s.blob.Some? && s.blob.value.session != 0
    requires Outstanding(s.sinks[0]) && s.sinks[0].kept
    ensures Run(ApartNext, s, [Flush(0, Works), Settle(0, true)])
    ensures Final(ApartNext, s, [Flush(0, Works), Settle(0, true)])
            == s.(slot := None, sinks := s.sinks[0 := s.sinks[0].(unsaved := None, kept := false)])
  {
    var flushed := Next(s, Flush(0, Works));
    var settled := Next(flushed, Settle(0, true));
    assert Enabled(s, Flush(0, Works)) && Apart(s, Flush(0, Works));
    assert Enabled(flushed, Settle(0, true)) && Apart(flushed, Settle(0, true));
    assert settled.sinks == s.sinks[0 := s.sinks[0].(unsaved := None, kept := false)];
    OneStep(ApartNext, s, Flush(0, Works));
    RunExtends(ApartNext, s, [Flush(0, Works)], Settle(0, true));
    assert [Flush(0, Works)] + [Settle(0, true)] == [Flush(0, Works), Settle(0, true)];
  }

  /** A login, then a rotation the keyring refuses and the kernel slot takes. */
  function RefusedRotation(n: nat): seq<Step> {
    [Login(n, n, 0, true), Refresh(n), Flush(n, RefusesLoad), Keep(n, true)]
  }

  lemma RefusalIsKept(s: State, n: nat)
    requires n !in s.sinks && n !in s.live
    ensures Run(ApartNext, s, RefusedRotation(n))
    ensures Final(ApartNext, s, RefusedRotation(n)) == s.(
              live := s.live[n := 1],
              blob := Some(Stored(n, Issued(0), 0)),
              slot := Some(Unsaved(n, 0, Issued(1))),
              sinks := s.sinks[n := Sink(n, 1, 0, Some(Issued(1)), true, false, false, true)])
  {
    var begun := Next(s, Login(n, n, 0, true));
    var refreshed := Next(begun, Refresh(n));
    assert refreshed.live == s.live[n := 1];
    assert refreshed.sinks == s.sinks[n := Sink(n, 1, 0, Some(Issued(1)), false, true, false, false)];
    assert Apart(s, Login(n, n, 0, true)) && Apart(begun, Refresh(n));
    RunThrough(ApartNext, [s, begun, refreshed], [Login(n, n, 0, true), Refresh(n)]);
    RefusalEnds(refreshed, n);
    RunsJoin(ApartNext, s, [Login(n, n, 0, true), Refresh(n)], [Flush(n, RefusesLoad), Keep(n, true)]);
    assert [Login(n, n, 0, true), Refresh(n)] + [Flush(n, RefusesLoad), Keep(n, true)] == RefusedRotation(n);
  }

  lemma RefusalEnds(s: State, n: nat)
    requires n in s.sinks && s.sinks[n].rotating && Outstanding(s.sinks[n])
    ensures Run(ApartNext, s, [Flush(n, RefusesLoad), Keep(n, true)])
    ensures Final(ApartNext, s, [Flush(n, RefusesLoad), Keep(n, true)]) == s.(
              slot := Some(Record(s.sinks[n])),
              sinks := s.sinks[n := s.sinks[n].(rotating := false, kept := true, held := true)])
  {
    assert Apart(s, Flush(n, RefusesLoad)) && Apart(s, Keep(n, true));
    assert Enabled(s, Flush(n, RefusesLoad)) && Next(s, Flush(n, RefusesLoad)) == s && Enabled(s, Keep(n, true));
    RunThrough(ApartNext, [s, s, Next(s, Keep(n, true))], [Flush(n, RefusesLoad), Keep(n, true)]);
  }

  /** A record of another login, or one whose tokens the blob already holds, is not resumed from: it is
      dropped, and the session starts from the blob. */
  lemma StaleRecordIsDropped(s: State, id: nat, cleared: bool)
    requires Inv(s) && s.blob.Some? && s.slot.Some? && id !in s.sinks
    requires || s.slot.value.session != s.blob.value.session
             || s.slot.value.tokens.refresh <= s.blob.value.tokens.refresh
    ensures
      var s' := Next(s, Resume(id, true, cleared));
      && s'.sinks[id].current == s.blob.value.tokens.refresh && s'.sinks[id].unsaved.None?
      && (cleared ==> s'.slot.None?) && s'.blob == s.blob
  {
  }

  // ----- one sink at a time, through any number of crashes

  /** No session is opened while a sink is alive. */
  predicate Solo(s: State, step: Step) {
    step.Login? || step.Resume? ==> s.sinks == map[]
  }

  function SoloNext(s: State, step: Step): State
    requires Enabled(s, step) && Solo(s, step)
  {
    Next(s, step)
  }

  /** A session that was neither signed out nor lost with its process. */
  predicate Tracked(s: State, session: nat) {
    session in s.live && session !in s.signedOut && session !in s.lost
  }

  /** Nothing takes the slot from a single sink. One that resumed while the kernel slot could not be read may
      have a spent token; it then does nothing, and the live one stays where it was. */
  predicate Keeps(s: State, k: Sink)
    requires s.blob.Some? && k.session in s.live
  {
    if k.current != s.live[k.session] then
      k.unsaved.None? && ResumesWith(s.blob.value, s.slot) == s.live[k.session]
    else Outstanding(k) ==> (s.slot == Some(Record(k)) <==> k.held)
  }

  ghost predicate SoloInv(s: State) {
    && Linked(s)
    && (forall i, j :: i in s.sinks && j in s.sinks ==> i == j)
    && (s.blob.Some? ==> forall id :: id in s.sinks ==> s.sinks[id].session == s.blob.value.session)
    && (s.blob.Some? && Tracked(s, s.blob.value.session) ==>
          if s.sinks == map[] then ResumesWith(s.blob.value, s.slot) == s.live[s.blob.value.session]
          else forall id :: id in s.sinks ==> Keeps(s, s.sinks[id]))
  }

  lemma SoloInvKeptByOwner(s: State, step: Step, id: nat)
    requires SoloInv(s) && Enabled(s, step) && id in s.sinks
    requires !step.Login? && !step.Resume? && !step.Logout? && !step.Rewrite? && !step.Exit? && step.id == id
    ensures SoloInv(Next(s, step))
  {
    LinkedKept(s, step);
    assert SinkOk(s.live, s.sinks[id]) && SinkLinked(s, s.sinks[id]);
    assert forall j :: j in Next(s, step).sinks <==> j == id;
  }

  lemma SoloInvKeptByExit(s: State, id: nat)
    requires SoloInv(s) && id in s.sinks
    ensures SoloInv(Next(s, Exit(id)))
    ensures s.blob.Some? && Tracked(s, s.blob.value.session) ==>
              (ResumesWith(s.blob.value, s.slot) == s.live[s.blob.value.session] <==> !Exposed(s.sinks[id]))
  {
    LinkedKept(s, Exit(id));
    assert SinkOk(s.live, s.sinks[id]);
    assert Next(s, Exit(id)).sinks == map[];
    if s.blob.Some? && s.sinks[id].current == s.live[s.blob.value.session] {
      ResumesLiveIffInSlot(s, id);
    }
  }

  lemma SoloInvKeptByOthers(s: State, step: Step)
    requires SoloInv(s) && Enabled(s, step) && Solo(s, step)
    requires step.Login? || step.Logout? || step.Rewrite? || step.Resume?
    ensures SoloInv(Next(s, step))
  {
    LinkedKept(s, step);
  }

  lemma SoloInvKept(s: State, step: Step)
    requires SoloInv(s) && Enabled(s, step) && Solo(s, step)
    ensures SoloInv(SoloNext(s, step))
  {
    match step
    case Login(_, _, _, _) => SoloInvKeptByOthers(s, step);
    case Logout(_, _) => SoloInvKeptByOthers(s, step);
    case Rewrite(_) => SoloInvKeptByOthers(s, step);
    case Resume(_, _, _) => SoloInvKeptByOthers(s, step);
    case Exit(id) => SoloInvKeptByExit(s, id);
    case _ => SoloInvKeptByOwner(s, step, step.id);
  }

  lemma SoloInvHolds(s: State, steps: seq<Step>)
    requires SoloInv(s) && Run(SoloNext, s, steps)
    ensures SoloInv(Final(SoloNext, s, steps))
  {
    forall s, step | SoloInv(s) && Enabled(s, step) && Solo(s, step) ensures SoloInv(SoloNext(s, step)) {
      SoloInvKept(s, step);
    }
    RunKeeps(SoloNext, SoloInv, s, steps);
  }

  /** In every run with one sink at a time, through any number of crashes and resumes: a session not signed
      out and not lost before resumes after a crash with its live token if and only if the sink had no
      rotation outstanding or had got it into the slot. */
  lemma CrashedSessionResumesLive(steps: seq<Step>, id: nat)
    requires Run(SoloNext, Initial, steps)
    requires
      var s := Final(SoloNext, Initial, steps);
      id in s.sinks && s.blob.Some? && Tracked(s, s.blob.value.session)
    ensures
      var s := Final(SoloNext, Initial, steps);
      var crashed := Next(s, Exit(id));
      && crashed.blob == s.blob && crashed.slot == s.slot && s.sinks[id].session == s.blob.value.session
      && (ResumesWith(crashed.blob.value, crashed.slot) == s.live[s.blob.value.session] <==> !Exposed(s.sinks[id]))
  {
    SoloInvHolds(Initial, steps);
    SoloInvKeptByExit(Final(SoloNext, Initial, steps), id);
  }
}
